/**
 How many runs the normalizer can merge. A list of runs comes out of some input when each run starts
 no higher than the run before it ended; eight of them are enough to break the order.
 */
module NormalLimit {
  import opened Seqs
  import opened Ids
  import opened Elements
  import opened Layouts
  import opened Heaps
  import opened Streams
  import opened Engine
  import opened Normal
  import opened EngineNormal
  import opened FixedPoints
  import opened RepairLimit

  /** All runs, one behind the other. */
  function Joined(ss: seq<Doc>): Doc {
    if ss == [] then [] else Joined(ss[..|ss| - 1]) + ss[|ss| - 1]
  }

  predicate StartsAnew(k: Kind, run: Doc, next: Doc) {
    run != [] && next != [] && Cuts(k, run[|run| - 1], next[0])
  }

  /** Nonempty normal runs, none of which carries on from the one before. */
  predicate AreRuns(k: Kind, ss: seq<Doc>) {
    && (forall s | s in ss :: s != [] && NormalKids(k, s))
    && forall i | 0 < i < |ss| :: StartsAnew(k, ss[i - 1], ss[i])
  }

  lemma {:induction false} GoesOn(k: Kind, run: Doc)
    requires |run| > 1 && NormalKids(k, run)
    ensures var n := |run| - 1; NormalKids(k, run[..n]) && !Cuts(k, run[n - 1], run[n])
  {
    var n := |run| - 1;
    assert forall x | x in run[..n] :: x in run;
    CompareIsKeyOrder(k, run[n - 1], run[n]);
  }

  lemma {:induction false} StaysAsItIs(m: MergeFn, k: Kind, run: Doc, x: Elem)
    requires NormalKids(k, run) && x in run
    ensures NormIn(m, k, x) == [x]
  {
    NormKeepsNormal(m, x);
  }

  /** Reading one more run behind the others cuts once, in front of it. */
  lemma {:induction false} PassReadsRun(m: MergeFn, k: Kind, front: Doc, run: Doc)
    requires front != [] && run != [] && NormalKids(k, run) && Cuts(k, front[|front| - 1], run[0])
    ensures var p := Passed(m, k, front); Passed(m, k, front + run) == Pass(p.chunks + [p.last], run)
    decreases |run|
  {
    var n := |run| - 1;
    StaysAsItIs(m, k, run, run[n]);
    SplitLast(run);
    if n == 0 {
      PassGrows(m, k, front, run[0]);
    } else {
      GoesOn(k, run);
      PassReadsRun(m, k, front, run[..n]);
      Associates(front, run[..n], [run[n]]);
      PassGrows(m, k, front + run[..n], run[n]);
    }
  }

  /** So the pass over runs finds exactly these runs. */
  lemma {:induction false} PassFindsRuns(m: MergeFn, k: Kind, ss: seq<Doc>)
    requires ss != [] && AreRuns(k, ss)
    ensures var n := |ss| - 1;
            && Passed(m, k, Joined(ss)) == Pass(ss[..n], ss[n])
            && Joined(ss) != [] && ss[n] != [] && Joined(ss)[|Joined(ss)| - 1] == ss[n][|ss[n]| - 1]
    decreases |ss|
  {
    var n := |ss| - 1;
    assert ss[n] in ss;
    if n == 0 {
      assert Joined(ss) == ss[0];
      PassKeepsNormal(m, k, ss[0]);
    } else {
      var front := ss[..n];
      assert forall s | s in front :: s in ss;
      PassFindsRuns(m, k, front);
      PassReadsRun(m, k, Joined(front), ss[n]);
      SplitLast(front);
    }
  }

  lemma {:induction false} JoinedHolds(ss: seq<Doc>, x: Elem)
    requires x in Joined(ss)
    ensures exists s | s in ss :: x in s
    decreases |ss|
  {
    var n := |ss| - 1;
    if x in ss[n] {
      assert ss[n] in ss;
    } else {
      JoinedHolds(ss[..n], x);
      var s :| s in ss[..n] && x in s;
      assert s in ss;
    }
  }

  // ---- the streams that break the heap, as the runs of one container

  function Breaking(n: nat): Doc
    requires n >= 8
  {
    Joined(Board(START, n))
  }

  lemma BoardIsRuns(k: Kind, n: nat)
    requires (k == E || k == X) && n >= 8
    ensures AreRuns(k, Board(START, n))
  {
    var h := Board(START, n);
    BoardIsNormal(k, n);
    forall i | 0 < i < n ensures StartsAnew(k, h[i - 1], h[i]) {
      BoardOnRecs(n, i);
      BoardEnds(n, i - 1);
      var last := h[i - 1][|h[i - 1]| - 1];
      RecordOrder(k, last.id.src, KeyNum(h[i]));
    }
  }

  /** Every stream ends at least as high as the next one starts. */
  lemma BoardEnds(n: nat, i: nat)
    requires n >= 8 && i + 1 < n
    ensures var h := Board(START, n);
            var last := h[i][|h[i]| - 1];
            last.id.src <= 900 && last == Rec(last.id.src) && KeyNum(h[i + 1]) <= last.id.src
  {
    assert i < 8 ==> i in {0, 1, 2, 3, 4, 5, 6, 7};
  }

  /** One set, or one multiplexed container, with n runs, which the normalizer writes out of order. */
  lemma {:induction false} LaterRunsBreak(k: Kind, n: nat)
    requires (k == E || k == X) && n >= 8
    ensures Runs(k, Breaking(n)) == n && Few(AtMost(n), k, Breaking(n))
    ensures !NormalKids(k, NormKids(HEAP, k, Breaking(n))) && !InPlace(k, NormKids(HEAP, k, Breaking(n)))
  {
    var h: seq<Doc> := Board(START, n);
    BoardIsRuns(k, n);
    PassFindsRuns(HEAP, k, h);
    PassCutsRuns(HEAP, k, Breaking(n));
    SplitLast(h);
    OutputDescends(k, n);
    NormalIsInPlace(k, NormKids(HEAP, k, Breaking(n)));
    forall e | e in Breaking(n) ensures e.First? {
      JoinedHolds(h, e);
      var s :| s in h && e in s;
      BoardIsShort(n, s);
    }
  }

  /** The same container as the only element of a document. */
  function BreakingDoc(k: Kind, n: nat): Doc
    requires n >= 8
  {
    [Plex(k, ID0, Breaking(n))]
  }

  lemma {:induction false} LaterDocumentsBreak(k: Kind, n: nat)
    requires (k == E || k == X) && n >= 8
    ensures Few(AtMost(n), P, BreakingDoc(k, n)) && !NormalKids(P, Normalized(BreakingDoc(k, n)))
  {
    var d := BreakingDoc(k, n);
    LaterRunsBreak(k, n);
    PassedPositional(HEAP, P, d);
    PassCutsRuns(HEAP, P, d);
    var e := Normalized(d)[0];
    assert e == NormElem(HEAP, d[0]) && e in Normalized(d);
  }

  // ---- seven is exact

  /** With at most n runs in it and in what it holds, a container that is sorted always comes out normal exactly when n is at most seven. */
  lemma ContainerIff(k: Kind, n: nat)
    requires k == E || k == X
    ensures n <= 7 <==> forall raw | Few(AtMost(n), k, raw) :: InPlace(k, NormKids(HEAP, k, raw))
  {
    if n <= 7 {
      HeapKeepsNormal(n);
      forall raw | Few(AtMost(n), k, raw) ensures InPlace(k, NormKids(HEAP, k, raw)) {
        KidsAreNormal(HEAP, AtMost(n), k, raw);
        NormalIsInPlace(k, NormKids(HEAP, k, raw));
      }
    } else {
      LaterRunsBreak(k, n);
    }
  }

  /** With at most n runs in every container, the normalizer's output is always normal exactly when n is at most seven. */
  lemma NormalizedIff(n: nat)
    ensures n <= 7 <==> forall d | Few(AtMost(n), P, d) :: InPlace(P, Normalized(d))
    ensures n <= 7 <==> forall d | Few(AtMost(n), P, d) :: NormalKids(P, Normalized(d))
  {
    if n <= 7 {
      HeapKeepsNormal(n);
      forall d | Few(AtMost(n), P, d) ensures NormalKids(P, Normalized(d)) && InPlace(P, Normalized(d)) {
        KidsAreNormal(HEAP, AtMost(n), P, d);
        NormalIsInPlace(P, Normalized(d));
      }
    } else {
      LaterDocumentsBreak(X, n);
      NormalIsInPlace(P, Normalized(BreakingDoc(X, n)));
    }
  }

  /** And so is normalizing a second time without effect. */
  lemma NormalizedTwiceIff(n: nat)
    ensures n <= 7 <==> forall d | Few(AtMost(n), P, d) :: Normalized(Normalized(d)) == Normalized(d)
  {
    NormalizedIff(n);
    forall d ensures Normalized(Normalized(d)) == Normalized(d) <==> NormalKids(P, Normalized(d)) {
      SecondPassIff(d);
    }
  }
}
