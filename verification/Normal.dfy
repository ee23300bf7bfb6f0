/** The normal form of a document: containers re-sorted, doublets merged, empty tuples dropped from sets. */
module Normal {
  import opened Ids
  import opened Elements
  import opened Merge
  import opened Layouts
  import opened Batch
  import opened Seqs

  /** The input is cut where it does not ascend; only sets and multiplexed containers are put in order. */
  predicate Cuts(k: Kind, a: Elem, b: Elem) { (k == E || k == X) && Compare(k, a, b) != Less }

  /** How the runs of a container are merged. */
  type MergeFn = (Kind, seq<Doc>) -> Doc

  const FOLD: MergeFn := (k: Kind, ss: seq<Doc>) => FoldMerge(k, ss)

  datatype Pass = Pass(chunks: seq<Doc>, last: Doc)

  /** One pass over the children: the finished ascending runs, and the run under way. */
  function Passed(m: MergeFn, k: Kind, raw: Doc): Pass
    decreases raw, 0
  {
    if raw == [] then Pass([], [])
    else
      var n := |raw| - 1;
      var p := Passed(m, k, raw[..n]);
      var e := NormIn(m, k, raw[n]);
      if n > 0 && Cuts(k, raw[n - 1], raw[n]) then Pass(p.chunks + [p.last], e) else Pass(p.chunks, p.last + e)
  }

  /** A child of a container of kind k; a set drops its empty tuples. */
  function NormIn(m: MergeFn, k: Kind, e: Elem): Doc
    decreases e, 2
  {
    if k == E && IsEmptyTuple(e) then [] else [NormElem(m, e)]
  }

  function NormElem(m: MergeFn, e: Elem): Elem
    decreases e, 1
  {
    match e
    case First(_, _) => e
    case Plex(k, id, kids) => Plex(k, id, NormKids(m, k, kids))
  }

  function NormKids(m: MergeFn, k: Kind, raw: Doc): Doc
    decreases raw, 1
  {
    var p := Passed(m, k, raw);
    if p.chunks == [] then p.last else m(k, p.chunks + [p.last])
  }

  /** With the two-way merge folded over the runs. */
  function NormDoc(d: Doc): Doc { NormKids(FOLD, P, d) }

  /** What a normal form is, said without reference to how it is computed. */
  predicate Normal(e: Elem)
    decreases e
  {
    e.Plex? ==> NormalKids(e.kind, e.kids)
  }

  predicate NormalKids(k: Kind, xs: Doc)
    decreases xs
  {
    && (k == E || k == X ==> Ascending(k, xs))
    && (k == E ==> forall x | x in xs :: !IsEmptyTuple(x))
    && forall x | x in xs :: Normal(x)
  }

  /** The same with the orders spelled out: sets ascend strictly and hold no empty tuple, multiplexed containers ascend by source. */
  predicate InPlace(k: Kind, xs: Doc)
    decreases xs
  {
    && (k == E ==> forall i, j | 0 <= i < j < |xs| :: CompareEuler(xs[i], xs[j]) == Less)
    && (k == E ==> forall x | x in xs :: !(x.Plex? && x.kind == P && x.kids == []))
    && (k == X ==> forall i, j | 0 <= i < j < |xs| :: xs[i].id.src < xs[j].id.src)
    && forall x | x in xs && x.Plex? :: InPlace(x.kind, x.kids)
  }

  lemma {:induction false} AscendsIff(k: Kind, xs: Doc)
    ensures Ascending(k, xs) <==> forall i, j | 0 <= i < j < |xs| :: Compare(k, xs[i], xs[j]) == Less
  {
    forall i, j | 0 <= i < j < |xs| ensures Compare(k, xs[i], xs[j]) == CompareKey(KeyOf(k, xs[i]), KeyOf(k, xs[j])) {
      CompareIsKeyOrder(k, xs[i], xs[j]);
    }
    if Ascending(k, xs) {
      forall i, j | 0 <= i < j < |xs| ensures Below(KeyOf(k, xs[i]), KeyOf(k, xs[j])) { LaterIsAbove(k, xs, i, j); }
    }
  }

  /** Normal means in place, at every level. */
  lemma {:induction false} NormalIsInPlace(k: Kind, xs: Doc)
    ensures NormalKids(k, xs) <==> InPlace(k, xs)
    decreases xs
  {
    AscendsIff(k, xs);
    forall x | x in xs && x.Plex? ensures NormalKids(x.kind, x.kids) <==> InPlace(x.kind, x.kids) {
      NormalIsInPlace(x.kind, x.kids);
    }
  }

  lemma {:induction false} NormKeepsValueKey(m: MergeFn, e: Elem)
    ensures ValueKey(NormElem(m, e)) == ValueKey(e)
  {
  }

  /** The pass takes one more child: it goes on with the run or cuts in front of it. */
  lemma {:induction false} PassGrows(m: MergeFn, k: Kind, raw: Doc, x: Elem)
    ensures var p := Passed(m, k, raw);
            Passed(m, k, raw + [x])
            == if raw != [] && Cuts(k, raw[|raw| - 1], x) then Pass(p.chunks + [p.last], NormIn(m, k, x))
               else Pass(p.chunks, p.last + NormIn(m, k, x))
  {
    assert (raw + [x])[..|raw|] == raw;
  }

  lemma {:induction false} PassedPositional(m: MergeFn, k: Kind, raw: Doc)
    requires k == P || k == L
    ensures Passed(m, k, raw).chunks == [] && |Passed(m, k, raw).last| == |raw|
    ensures forall i | 0 <= i < |raw| :: Passed(m, k, raw).last[i] == NormElem(m, raw[i])
    decreases |raw|
  {
    if raw != [] {
      var n := |raw| - 1;
      PassedPositional(m, k, raw[..n]);
      assert raw == raw[..n] + [raw[n]];
      PassGrows(m, k, raw[..n], raw[n]);
      assert NormIn(m, k, raw[n]) == [NormElem(m, raw[n])];
    }
  }

  lemma {:induction false} NormKeepsKey(m: MergeFn, k: Kind, e: Elem)
    ensures KeyOf(k, NormElem(m, e)) == KeyOf(k, e)
    ensures IsEmptyTuple(NormElem(m, e)) == IsEmptyTuple(e)
  {
    if e.Plex? && e.kind == P {
      PassedPositional(m, P, e.kids);
    } else {
      NormKeepsValueKey(m, e);
    }
  }

  // ---- merging keeps the normal form

  lemma {:induction false} SpotIsNormal(a: Elem, b: Elem)
    requires Normal(a) && Normal(b)
    ensures Normal(Spot(a, b))
    ensures IsEmptyTuple(Spot(a, b)) ==> IsEmptyTuple(a) || IsEmptyTuple(b)
    decreases a, 0
  {
    if a.Plex? && b.Plex? && IsSame(a, b) {
      MergeIsNormal(a.kind, a.kids, b.kids);
    }
  }

  lemma {:induction false} MergeMembers(k: Kind, xs: Doc, ys: Doc)
    requires forall x | x in xs :: Normal(x) && (k == E ==> !IsEmptyTuple(x))
    requires forall y | y in ys :: Normal(y) && (k == E ==> !IsEmptyTuple(y))
    ensures forall z | z in MergeList(k, xs, ys) :: Normal(z) && (k == E ==> !IsEmptyTuple(z))
    decreases xs, 1, ys
  {
    if xs != [] && ys != [] {
      assert xs[0] in xs && ys[0] in ys;
      match Compare(k, xs[0], ys[0])
      case Less => MergeMembers(k, xs[1..], ys);
      case Grtr => MergeMembers(k, xs, ys[1..]);
      case Eq =>
        SpotIsNormal(xs[0], ys[0]);
        MergeMembers(k, xs[1..], ys[1..]);
    }
  }

  /** The merge of two normal lists is normal. */
  lemma {:induction false} MergeIsNormal(k: Kind, xs: Doc, ys: Doc)
    requires NormalKids(k, xs) && NormalKids(k, ys)
    ensures NormalKids(k, MergeList(k, xs, ys))
    decreases xs, 2, ys
  {
    MergeMembers(k, xs, ys);
    if k == E || k == X {
      MergeAscends(k, xs, ys);
    }
  }

  lemma {:induction false} BatchIsNormal(k: Kind, ss: seq<Doc>)
    requires forall s | s in ss :: NormalKids(k, s)
    ensures NormalKids(k, FoldMerge(k, ss))
    decreases |ss|
  {
    if ss != [] {
      var front, last := ss[..|ss| - 1], ss[|ss| - 1];
      SplitLast(ss);
      assert forall s | s in front :: s in ss;
      BatchIsNormal(k, front);
      FoldMergeGrows(k, front, last);
      MergeIsNormal(k, FoldMerge(k, front), last);
    }
  }

  // ---- the normalizer's output is normal

  /** How many ascending runs the children of a container fall into. */
  function Runs(k: Kind, raw: Doc): nat {
    if raw == [] then 1
    else
      var n := |raw| - 1;
      Runs(k, raw[..n]) + (if n > 0 && Cuts(k, raw[n - 1], raw[n]) then 1 else 0)
  }

  lemma {:induction false} PassCutsRuns(m: MergeFn, k: Kind, raw: Doc)
    ensures |Passed(m, k, raw).chunks| + 1 == Runs(k, raw)
    decreases |raw|
  {
    if raw != [] {
      PassCutsRuns(m, k, raw[..|raw| - 1]);
    }
  }

  /** No container falls into a number of runs that `cap` does not allow. */
  predicate Few(cap: nat -> bool, k: Kind, raw: Doc)
    decreases raw
  {
    cap(Runs(k, raw)) && forall e | e in raw && e.Plex? :: Few(cap, e.kind, e.kids)
  }

  /** Merging that many normal runs gives a normal list. */
  ghost predicate KeepsNormal(m: MergeFn, cap: nat -> bool) {
    forall k, ss | cap(|ss|) && (forall s | s in ss :: NormalKids(k, s)) :: NormalKids(k, m(k, ss))
  }

  const ALWAYS: nat -> bool := (n: nat) => true

  function AtMost(n: nat): nat -> bool { (m: nat) => m <= n }

  lemma FoldKeepsNormal()
    ensures KeepsNormal(FOLD, ALWAYS)
  {
    forall k, ss: seq<Doc> | forall s | s in ss :: NormalKids(k, s) ensures NormalKids(k, FOLD(k, ss)) {
      BatchIsNormal(k, ss);
    }
  }

  lemma {:induction false} AlwaysFew(k: Kind, raw: Doc)
    ensures Few(ALWAYS, k, raw)
    decreases raw
  {
    forall e | e in raw && e.Plex? ensures Few(ALWAYS, e.kind, e.kids) {
      AlwaysFew(e.kind, e.kids);
    }
  }

  /** The state of the pass: ascending runs, the last one ending where the input ended. */
  predicate RunsAscend(k: Kind, raw: Doc, p: Pass) {
    && (forall s | s in p.chunks :: Ascending(k, s)) && Ascending(k, p.last)
    && (raw != [] ==>
          var x := raw[|raw| - 1];
          if k == E && IsEmptyTuple(x) then p.last == []
          else p.last != [] && KeyOf(k, p.last[|p.last| - 1]) == KeyOf(k, x))
  }

  /** Whatever the children become, the runs of a sorted container ascend. */
  lemma {:induction false} PassAscends(m: MergeFn, k: Kind, raw: Doc)
    requires k == E || k == X
    ensures RunsAscend(k, raw, Passed(m, k, raw))
    decreases |raw|
  {
    if raw != [] {
      var n := |raw| - 1;
      SplitLast(raw);
      PassAscends(m, k, raw[..n]);
      PassGrows(m, k, raw[..n], raw[n]);
      RunStaysAscending(m, k, raw[..n], raw[n], Passed(m, k, raw[..n]), Passed(m, k, raw));
    }
  }

  lemma {:induction false} RunStaysAscending(m: MergeFn, k: Kind, raw: Doc, x: Elem, p: Pass, q: Pass)
    requires (k == E || k == X) && RunsAscend(k, raw, p) && (raw == [] ==> p.last == [])
    requires q == if raw != [] && Cuts(k, raw[|raw| - 1], x) then Pass(p.chunks + [p.last], NormIn(m, k, x))
                  else Pass(p.chunks, p.last + NormIn(m, k, x))
    ensures RunsAscend(k, raw + [x], q)
  {
    NormKeepsKey(m, k, x);
    if raw != [] && !Cuts(k, raw[|raw| - 1], x) {
      CompareIsKeyOrder(k, raw[|raw| - 1], x);
      if !(k == E && IsEmptyTuple(x)) {
        AscendingGrows(k, p.last, NormElem(m, x));
      }
    }
  }

  predicate AllMembersNormal(k: Kind, xs: Doc) {
    forall x | x in xs :: Normal(x) && (k == E ==> !IsEmptyTuple(x))
  }

  lemma {:induction false} PassMembers(m: MergeFn, cap: nat -> bool, k: Kind, raw: Doc)
    requires KeepsNormal(m, cap) && forall e | e in raw && e.Plex? :: Few(cap, e.kind, e.kids)
    ensures AllMembersNormal(k, Passed(m, k, raw).last)
    ensures forall s | s in Passed(m, k, raw).chunks :: AllMembersNormal(k, s)
    decreases raw, 0
  {
    if raw != [] {
      var n := |raw| - 1;
      assert raw[n] in raw && forall e | e in raw[..n] :: e in raw;
      PassMembers(m, cap, k, raw[..n]);
      NormElemIsNormal(m, cap, raw[n]);
      NormKeepsKey(m, k, raw[n]);
    }
  }

  lemma {:induction false} PassIsNormal(m: MergeFn, cap: nat -> bool, k: Kind, raw: Doc)
    requires KeepsNormal(m, cap) && forall e | e in raw && e.Plex? :: Few(cap, e.kind, e.kids)
    ensures NormalKids(k, Passed(m, k, raw).last)
    ensures forall s | s in Passed(m, k, raw).chunks :: NormalKids(k, s)
    decreases raw, 1
  {
    PassMembers(m, cap, k, raw);
    if k == E || k == X {
      PassAscends(m, k, raw);
    }
  }

  lemma {:induction false} NormElemIsNormal(m: MergeFn, cap: nat -> bool, e: Elem)
    requires KeepsNormal(m, cap) && (e.Plex? ==> Few(cap, e.kind, e.kids))
    ensures Normal(NormElem(m, e))
    decreases e, 3
  {
    if e.Plex? {
      KidsAreNormal(m, cap, e.kind, e.kids);
    }
  }

  lemma {:induction false} KidsAreNormal(m: MergeFn, cap: nat -> bool, k: Kind, raw: Doc)
    requires KeepsNormal(m, cap) && Few(cap, k, raw)
    ensures NormalKids(k, NormKids(m, k, raw))
    decreases raw, 2
  {
    var p := Passed(m, k, raw);
    var runs := p.chunks + [p.last];
    PassIsNormal(m, cap, k, raw);
    PassCutsRuns(m, k, raw);
    assert forall s | s in runs :: NormalKids(k, s);
    assert cap(|runs|);
  }

  /** Every output is in normal form, at every level. */
  lemma {:induction false} NormKidsIsNormal(k: Kind, raw: Doc)
    ensures NormalKids(k, NormKids(FOLD, k, raw)) && InPlace(k, NormKids(FOLD, k, raw))
  {
    FoldKeepsNormal();
    AlwaysFew(k, raw);
    KidsAreNormal(FOLD, ALWAYS, k, raw);
    NormalIsInPlace(k, NormKids(FOLD, k, raw));
  }

  // ---- a normal form is left as it is

  lemma {:induction false} PassKeepsNormal(m: MergeFn, k: Kind, xs: Doc)
    requires NormalKids(k, xs)
    ensures Passed(m, k, xs) == Pass([], xs)
    decreases xs, 0
  {
    if xs != [] {
      var n := |xs| - 1;
      assert forall x | x in xs[..n] :: x in xs;
      assert (k == E || k == X) ==> Ascending(k, xs[..n]);
      PassKeepsNormal(m, k, xs[..n]);
      NormKeepsNormal(m, xs[n]);
      SplitLast(xs);
      if n > 0 && (k == E || k == X) {
        CompareIsKeyOrder(k, xs[n - 1], xs[n]);
      }
    }
  }

  lemma {:induction false} NormKeepsNormal(m: MergeFn, e: Elem)
    requires Normal(e)
    ensures NormElem(m, e) == e
    decreases e, 1
  {
    if e.Plex? {
      PassKeepsNormal(m, e.kind, e.kids);
    }
  }

  /** Normalizing is idempotent, and its fixed points are exactly the normal documents. */
  lemma {:induction false} NormIsIdempotent(d: Doc)
    ensures NormDoc(NormDoc(d)) == NormDoc(d)
    ensures NormDoc(d) == d <==> NormalKids(P, d)
  {
    NormKidsIsNormal(P, d);
    PassKeepsNormal(FOLD, P, NormDoc(d));
    if NormalKids(P, d) {
      PassKeepsNormal(FOLD, P, d);
    }
  }

  /** Merging normal documents gives a document that normalizing leaves unchanged. */
  lemma {:induction false} MergeOfNormalIsNormal(a: Doc, b: Doc)
    requires NormalKids(P, a) && NormalKids(P, b)
    ensures NormDoc(MergeDocs(a, b)) == MergeDocs(a, b)
  {
    MergeIsNormal(P, a, b);
    NormIsIdempotent(MergeDocs(a, b));
  }

  // ---- the output is the merge of all elements that share a key

  ghost function AtKeyOf(k: Kind, xs: Doc, key: Key): MaybeElem
    requires Placed(Sorted, k, Start, xs)
  {
    Look(Sorted, k, Start, xs, AtKey(key))
  }

  /** The children with one key, in the order they came, each in normal form. */
  function Sharing(k: Kind, key: Key, raw: Doc): seq<Elem> {
    if raw == [] then []
    else
      var n := |raw| - 1;
      Sharing(k, key, raw[..n]) + (if KeyOf(k, raw[n]) == key then NormIn(FOLD, k, raw[n]) else [])
  }

  function Folded(es: seq<Elem>): MaybeElem { if es == [] then NoElem else SomeElem(FoldSpot(es)) }

  lemma FoldedGrows(es: seq<Elem>, e: Elem)
    ensures Folded(es + [e]) == Join(Folded(es), SomeElem(e))
  {
    if es != [] {
      FoldSpotGrows(es, e);
    } else {
      assert es + [e] == [e];
    }
  }

  lemma {:induction false} LookGrows(k: Kind, p: Cursor, xs: Doc, x: Elem, s: Slot)
    requires p.After? ==> p.slot.AtKey?
    requires Placed(Sorted, k, p, xs) && Placed(Sorted, k, p, xs + [x])
    ensures Look(Sorted, k, p, xs + [x], s)
         == if s == AtKey(KeyOf(k, x)) then SomeElem(x) else Look(Sorted, k, p, xs, s)
    ensures Look(Sorted, k, p, xs, AtKey(KeyOf(k, x))) == NoElem
    decreases |xs|
  {
    if xs == [] {
      assert xs + [x] == [x];
    } else {
      var t := SlotOf(Sorted, p, KeyOf(k, xs[0]));
      assert (xs + [x])[1..] == xs[1..] + [x] && (xs + [x])[0] == xs[0];
      LookGrows(k, After(t), xs[1..], x, s);
      assert Look(Sorted, k, After(t), xs[1..] + [x], AtKey(KeyOf(k, x))) == SomeElem(x) by {
        LookGrows(k, After(t), xs[1..], x, AtKey(KeyOf(k, x)));
      }
      LookIsLater(Sorted, k, t, xs[1..] + [x], AtKey(KeyOf(k, x)));
      LaterIsStrict(t, AtKey(KeyOf(k, x)));
    }
  }

  /** What the pass has at a key: the finished runs merged, and the run under way on top. */
  ghost predicate PassHolds(k: Kind, raw: Doc, key: Key, p: Pass) {
    && Placed(Sorted, k, Start, FoldMerge(k, p.chunks)) && Placed(Sorted, k, Start, p.last)
    && Join(AtKeyOf(k, FoldMerge(k, p.chunks), key), AtKeyOf(k, p.last, key)) == Folded(Sharing(k, key, raw))
  }

  lemma {:induction false} PassIsKeywise(k: Kind, raw: Doc, key: Key)
    requires k == E || k == X
    ensures PassHolds(k, raw, key, Passed(FOLD, k, raw))
    decreases |raw|
  {
    var p := Passed(FOLD, k, raw);
    FoldKeepsNormal();
    AlwaysFew(k, raw);
    PassIsNormal(FOLD, ALWAYS, k, raw);
    BatchIsNormal(k, p.chunks);
    AscendingIsPlaced(k, Start, FoldMerge(k, p.chunks));
    AscendingIsPlaced(k, Start, p.last);
    if raw != [] {
      PassIsKeywise(k, raw[..|raw| - 1], key);
      PassStepIsKeywise(k, raw, key, Passed(FOLD, k, raw[..|raw| - 1]), p);
    }
  }

  /** What an element adds at a key; nothing if a set drops it. */
  function Added(k: Kind, x: Elem, key: Key): MaybeElem {
    if KeyOf(k, x) == key && NormIn(FOLD, k, x) != [] then SomeElem(NormElem(FOLD, x)) else NoElem
  }

  lemma {:induction false} PassStepIsKeywise(k: Kind, raw: Doc, key: Key, p: Pass, q: Pass)
    requires (k == E || k == X) && raw != []
    requires var n := |raw| - 1;
             && PassHolds(k, raw[..n], key, p)
             && q == if n > 0 && Cuts(k, raw[n - 1], raw[n]) then Pass(p.chunks + [p.last], NormIn(FOLD, k, raw[n]))
                     else Pass(p.chunks, p.last + NormIn(FOLD, k, raw[n]))
    requires Placed(Sorted, k, Start, FoldMerge(k, q.chunks)) && Placed(Sorted, k, Start, q.last)
    ensures PassHolds(k, raw, key, q)
  {
    var n := |raw| - 1;
    SharingGrows(k, key, raw);
    if n > 0 && Cuts(k, raw[n - 1], raw[n]) {
      CutIsKeywise(k, key, p, raw[n]);
    } else {
      HeldGrows(k, p.last, raw[n], key, AtKeyOf(k, FoldMerge(k, p.chunks), key));
    }
  }

  /** A finished run is merged into the others, and the element starts a new one. */
  lemma {:induction false} CutIsKeywise(k: Kind, key: Key, p: Pass, x: Elem)
    requires Placed(Sorted, k, Start, FoldMerge(k, p.chunks)) && Placed(Sorted, k, Start, p.last)
    requires Placed(Sorted, k, Start, NormIn(FOLD, k, x)) && Placed(Sorted, k, Start, FoldMerge(k, p.chunks + [p.last]))
    ensures Join(AtKeyOf(k, FoldMerge(k, p.chunks + [p.last]), key), AtKeyOf(k, NormIn(FOLD, k, x), key))
         == Join(Join(AtKeyOf(k, FoldMerge(k, p.chunks), key), AtKeyOf(k, p.last, key)), Added(k, x, key))
  {
    FoldMergeGrows(k, p.chunks, p.last);
    MergeIsSlotwise(Sorted, k, Start, FoldMerge(k, p.chunks), p.last);
    var was := AtKeyOf(k, FoldMerge(k, p.chunks + [p.last]), key);
    assert [] + NormIn(FOLD, k, x) == NormIn(FOLD, k, x);
    HeldGrows(k, [], x, key, was);
  }

  lemma {:induction false} SharingGrows(k: Kind, key: Key, raw: Doc)
    requires raw != []
    ensures var n := |raw| - 1;
            Folded(Sharing(k, key, raw)) == Join(Folded(Sharing(k, key, raw[..n])), Added(k, raw[n], key))
  {
    var n := |raw| - 1;
    var before := Sharing(k, key, raw[..n]);
    FoldedGrows(before, NormElem(FOLD, raw[n]));
    assert before + [] == before;
  }

  /** A run grows by an element: what it has at a key, it had before, or is that element. */
  lemma {:induction false} HeldGrows(k: Kind, xs: Doc, x: Elem, key: Key, m: MaybeElem)
    requires Placed(Sorted, k, Start, xs) && Placed(Sorted, k, Start, xs + NormIn(FOLD, k, x))
    ensures Join(m, AtKeyOf(k, xs + NormIn(FOLD, k, x), key)) == Join(Join(m, AtKeyOf(k, xs, key)), Added(k, x, key))
  {
    NormKeepsKey(FOLD, k, x);
    if NormIn(FOLD, k, x) == [] {
      assert xs + [] == xs;
    } else {
      LookGrows(k, Start, xs, NormElem(FOLD, x), AtKey(key));
    }
  }

  /** At every key the output holds the spot-merge of all input elements with that key, in input order. */
  lemma {:induction false} NormIsKeywise(k: Kind, raw: Doc, key: Key)
    requires k == E || k == X
    ensures Placed(Sorted, k, Start, NormKids(FOLD, k, raw))
    ensures AtKeyOf(k, NormKids(FOLD, k, raw), key) == Folded(Sharing(k, key, raw))
  {
    var p := Passed(FOLD, k, raw);
    NormKidsIsNormal(k, raw);
    AscendingIsPlaced(k, Start, NormKids(FOLD, k, raw));
    PassIsKeywise(k, raw, key);
    FoldMergeGrows(k, p.chunks, p.last);
    MergeIsSlotwise(Sorted, k, Start, FoldMerge(k, p.chunks), p.last);
  }
}
