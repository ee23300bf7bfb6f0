/** Seven inputs and no more: the order of keys, and the convergence of arrays with insertion trains. */
module OrderLimit {
  import opened Elements
  import opened Batch
  import opened Streams
  import opened Engine
  import opened KeyLists
  import opened Discont
  import opened EngineOrder
  import opened RepairLimit

  /** The keys of n merged inputs always come in the order of the folded merge exactly when n is at most seven, or all keys tie. */
  lemma OrderIff(k: Kind, n: nat)
    ensures k == P || n <= 7 <==> forall inputs | |inputs| == n :: KeyList(k, HeapMerged(k, inputs)) == KeyList(k, FoldMerge(k, inputs))
  {
    if k == P || n <= 7 {
      forall inputs | |inputs| == n ensures KeyList(k, HeapMerged(k, inputs)) == KeyList(k, FoldMerge(k, inputs)) {
        MergeOrder(k, inputs);
      }
    } else {
      var h: seq<Doc> := Board(START, n);
      LaterMergesBreak(k, n);
      assert |h| == n;
    }
  }

  // ---- versions of one array

  const ROWS: seq<Key> :=
    [SourceKey(L, 0), SourceKey(L, 5), SourceKey(L, 9), SourceKey(L, 10), SourceKey(L, 11), SourceKey(L, 20),
     SourceKey(L, 100), SourceKey(L, 900)]

  const PICKED: seq<set<nat>> := [{0, 6}, {0, 6}, {2, 7}, {0, 6}, {5, 7}, {3, 7}, {4, 7}, {1, 7}]

  function Held(n: nat): (r: seq<set<nat>>)
    requires n >= 8
    ensures |r| == n
    ensures forall i | 0 <= i < n :: r[i] == if i < 8 then PICKED[i] else {7}
  {
    seq(n, i requires 0 <= i < n => if i < 8 then PICKED[i] else {7})
  }

  lemma RowsAscend(i: nat, j: nat)
    requires i < j < 8
    ensures Below(ROWS[i], ROWS[j])
  {
    var v := [0, 5, 9, 10, 11, 20, 100, 900];
    assert i in {0, 1, 2, 3, 4, 5, 6} && j in {1, 2, 3, 4, 5, 6, 7};
    RecordOrder(L, v[i], v[j]);
  }

  /** In an array that ascends no row has a head. */
  lemma {:induction false} NoHeads(j: nat, i: nat)
    requires i <= j < 8
    ensures HeadFrom(ROWS, j, i) == -1
  {
    if i > 0 {
      RowsAscend(i - 1, j);
      NoHeads(j, i - 1);
    }
  }

  lemma TwoRows(u: seq<Key>, i: nat, j: nat)
    requires i < j < |u|
    ensures Restrict(u, 0, {i, j}) == [u[i], u[j]]
  {
    TailOfRestrict(u, 0, {i, j}, i);
    TailOfRestrict(u, i + 1, {i, j}, j);
    RestrictIsEmpty(u, j + 1, {i, j});
  }

  lemma LastRow(u: seq<Key>, j: nat)
    requires j + 1 == |u|
    ensures Restrict(u, 0, {j}) == [u[j]]
  {
    TailOfRestrict(u, 0, {j}, j);
    RestrictIsEmpty(u, j + 1, {j});
  }

  lemma KeysOfTwo(s: Stream)
    requires |s| == 2
    ensures KeyList(L, s) == [KeyOf(L, s[0]), KeyOf(L, s[1])]
  {
    assert KeyList(L, s[1..]) == [KeyOf(L, s[1])] + KeyList(L, []) by { assert s[1..][1..] == []; }
  }

  lemma StreamIsVersion(n: nat, i: nat)
    requires n >= 8 && i < n
    ensures KeyList(L, Board(START, n)[i]) == Restrict(ROWS, 0, Held(n)[i])
    ensures HeadClosed(ROWS, Held(n)[i])
  {
    forall j | j in Held(n)[i] && j < |ROWS| ensures Head(ROWS, j) == -1 { NoHeads(j, j); }
    if i >= 8 {
      LastRow(ROWS, 7);
    } else {
      assert i in {0, 1, 2, 3, 4, 5, 6, 7};
      var a: nat, b: nat := [0, 0, 2, 0, 5, 3, 4, 1][i], [6, 6, 7, 6, 7, 7, 7, 7][i];
      TwoRows(ROWS, a, b);
      KeysOfTwo(START[i]);
    }
  }

  ghost predicate AreVersions(u: seq<Key>, sels: seq<set<nat>>, versions: seq<Doc>) {
    && |sels| == |versions|
    && forall i | 0 <= i < |sels| :: HeadClosed(u, sels[i]) && KeyList(L, versions[i]) == Restrict(u, 0, sels[i])
  }

  /** Merging n head-closed versions always gives the layout cut down to all their rows exactly when n is at most seven. */
  lemma VersionsIff(n: nat)
    ensures n <= 7 <==> forall u, sels, versions | |versions| == n && AreVersions(u, sels, versions) ::
                          KeyList(L, HeapMerged(L, versions)) == Restrict(u, 0, Union(sels))
  {
    if n <= 7 {
      forall u, sels, versions | |versions| == n && AreVersions(u, sels, versions)
        ensures KeyList(L, HeapMerged(L, versions)) == Restrict(u, 0, Union(sels))
      {
        VersionsConverge(u, sels, versions);
      }
    } else {
      var h: seq<Doc> := Board(START, n);
      forall i | 0 <= i < n
        ensures HeadClosed(ROWS, Held(n)[i]) && KeyList(L, h[i]) == Restrict(ROWS, 0, Held(n)[i])
      {
        StreamIsVersion(n, i);
      }
      assert AreVersions(ROWS, Held(n), h);
      FamilyConverges(ROWS, Held(n), h);
      LaterMergesBreak(L, n);
    }
  }
}
