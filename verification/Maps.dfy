/** Sets as maps: a tuple in a set is an entry under its first part, and entries of one key merge into one. */
module Maps {
  import opened Ids
  import opened Elements
  import opened Merge
  import opened Layouts
  import opened PairMerge
  import opened Engine
  import opened Orders

  /** A tuple with something in it. */
  predicate IsEntry(e: Elem) { e.Plex? && e.kind == P && e.kids != [] }

  /** Anything that a set keeps: an entry, or an element that is no tuple. */
  predicate IsKept(e: Elem) { e.Plex? && e.kind == P ==> e.kids != [] }

  /** What a kept element stands for: an entry for its first part, anything else for itself. */
  function Subject(e: Elem): Elem
    requires IsKept(e)
  {
    if IsEntry(e) then e.kids[0] else e
  }

  /** Sets compare what their elements stand for. */
  lemma SetsCompareSubjects(a: Elem, b: Elem)
    requires IsKept(a) && IsKept(b)
    ensures Compare(E, a, b) == CompareValue(Subject(a), Subject(b))
  {
  }

  lemma EntriesCompareFirstParts(a: Elem, b: Elem)
    requires IsEntry(a)
    ensures IsEntry(b) ==> Compare(E, a, b) == CompareValue(a.kids[0], b.kids[0])
    ensures !(b.Plex? && b.kind == P) ==>
            Compare(E, a, b) == CompareValue(a.kids[0], b) && Compare(E, b, a) == CompareValue(b, a.kids[0])
  {
  }

  /** The empty tuple is below everything else. */
  lemma EmptyTupleIsLowest(a: Elem, b: Elem)
    requires IsEmptyTuple(a) && !IsEmptyTuple(b)
    ensures Compare(E, a, b) == Less && Compare(E, b, a) == Grtr
  {
  }

  /** Two entries merge into one exactly when their first parts compare equal; otherwise both stay, the lower first. */
  lemma {:induction false} EntriesMergeIff(a: Elem, b: Elem)
    requires IsEntry(a) && IsEntry(b)
    ensures MergeList(E, [a], [b])
         == match CompareValue(a.kids[0], b.kids[0]) { case Less => [a, b] case Grtr => [b, a] case Eq => [Spot(a, b)] }
    ensures |MergeList(E, [a], [b])| == 1 <==> CompareValue(a.kids[0], b.kids[0]) == Eq
  {
    assert [a][1..] == [] && [b][1..] == [];
    match Compare(E, a, b)
    case Less => assert MergeList(E, [a], [b]) == [a] + MergeList(E, [], [b]);
    case Grtr => assert MergeList(E, [a], [b]) == [b] + MergeList(E, [a], []);
    case Eq => assert MergeList(E, [a], [b]) == [Spot(a, b)] + MergeList(E, [], []);
  }

  // ---- whole maps

  predicate StandsFor(e: Elem, v: Elem) { IsKept(e) && CompareValue(Subject(e), v) == Eq }

  /** The element of a set that stands for v; the first one, if the set is not in order. */
  function EntryFor(xs: Doc, v: Elem): MaybeElem {
    if xs == [] then NoElem else if StandsFor(xs[0], v) then SomeElem(xs[0]) else EntryFor(xs[1..], v)
  }

  lemma StandsForItsKey(e: Elem, v: Elem)
    ensures StandsFor(e, v) <==> KeyOf(E, e) == ValueKey(v)
  {
    if IsKept(e) {
      ValueOrderIsKeyOrder(Subject(e), v);
      KeysAreTotallyOrdered(ValueKey(Subject(e)), ValueKey(v));
    }
  }

  lemma {:induction false} EntryForIsLook(p: Cursor, xs: Doc, v: Elem)
    requires p.After? ==> p.slot.AtKey?
    requires Placed(Sorted, E, p, xs)
    ensures EntryFor(xs, v) == Look(Sorted, E, p, xs, AtKey(ValueKey(v)))
    decreases |xs|
  {
    if xs != [] {
      var t := SlotOf(Sorted, p, KeyOf(E, xs[0]));
      StandsForItsKey(xs[0], v);
      if !StandsFor(xs[0], v) {
        EntryForIsLook(After(t), xs[1..], v);
      }
    }
  }

  /** Maps merge entry by entry: what stands for v in the merge is what stands for it in either, merged if it is in both. */
  lemma {:induction false} MapsMerge(xs: Doc, ys: Doc, v: Elem)
    requires Ascending(E, xs) && Ascending(E, ys)
    ensures EntryFor(MergeList(E, xs, ys), v) == Join(EntryFor(xs, v), EntryFor(ys, v))
  {
    var zs := MergeList(E, xs, ys);
    AscendingIsPlaced(E, Start, xs);
    AscendingIsPlaced(E, Start, ys);
    MergeIsSlotwise(Sorted, E, Start, xs, ys);
    EntryForIsLook(Start, xs, v);
    EntryForIsLook(Start, ys, v);
    EntryForIsLook(Start, zs, v);
  }

  /** The engine does the same for two maps of exact values. */
  lemma {:induction false} EngineMergesMaps(xs: Doc, ys: Doc, v: Elem)
    requires Ascending(E, xs) && Ascending(E, ys) && ExactDoc(xs) && ExactDoc(ys)
    ensures EntryFor(HeapMerged(E, [xs, ys]), v) == Join(EntryFor(xs, v), EntryFor(ys, v))
  {
    MergeOfTwo(E, xs, ys);
    MapsMerge(xs, ys, v);
  }

  // ---- multiplexed containers

  /** What a source has in a multiplexed container. */
  function FromSource(xs: Doc, src: u64): MaybeElem {
    if xs == [] then NoElem else if xs[0].id.src == src then SomeElem(xs[0]) else FromSource(xs[1..], src)
  }

  lemma {:induction false} FromSourceIsLook(p: Cursor, xs: Doc, src: u64)
    requires p.After? ==> p.slot.AtKey?
    requires Placed(Sorted, X, p, xs)
    ensures FromSource(xs, src) == Look(Sorted, X, p, xs, AtKey(Num(0, src)))
    decreases |xs|
  {
    if xs != [] && xs[0].id.src != src {
      FromSourceIsLook(After(SlotOf(Sorted, p, KeyOf(X, xs[0]))), xs[1..], src);
    }
  }

  /** They merge source by source. */
  lemma {:induction false} SourcesMerge(xs: Doc, ys: Doc, src: u64)
    requires Ascending(X, xs) && Ascending(X, ys)
    ensures FromSource(MergeList(X, xs, ys), src) == Join(FromSource(xs, src), FromSource(ys, src))
  {
    AscendingIsPlaced(X, Start, xs);
    AscendingIsPlaced(X, Start, ys);
    MergeIsSlotwise(Sorted, X, Start, xs, ys);
    FromSourceIsLook(Start, xs, src);
    FromSourceIsLook(Start, ys, src);
    FromSourceIsLook(Start, MergeList(X, xs, ys), src);
  }

  // ---- an example

  function Number(i: i64): Elem { First(ID0, Integer(i)) }

  function EntryOf(i: i64, j: i64): Elem { Plex(P, ID0, [Number(i), Number(j)]) }

  /** {1:2} and {3:4} make {1:2, 3:4}; {1:2} and {1:3} make {1:3}. */
  lemma TwoMaps()
    ensures MergeList(E, [EntryOf(1, 2)], [EntryOf(3, 4)]) == [EntryOf(1, 2), EntryOf(3, 4)]
    ensures MergeList(E, [EntryOf(1, 2)], [EntryOf(1, 3)]) == [EntryOf(1, 3)]
  {
    EntriesMergeIff(EntryOf(1, 2), EntryOf(3, 4));
    EntriesMergeIff(EntryOf(1, 2), EntryOf(1, 3));
    LargerValueStays(ID0, Integer(1), Integer(1));
    LargerValueStays(ID0, Integer(2), Integer(3));
    var a, b := [Number(1), Number(2)], [Number(1), Number(3)];
    assert a[1..] == [Number(2)] && b[1..] == [Number(3)];
    OneByOne(Number(2), Number(3));
    assert MergeList(P, a, b) == [Spot(Number(1), Number(1))] + MergeList(P, a[1..], b[1..]);
    assert MergeList(P, a, b) == b;
    assert Spot(EntryOf(1, 2), EntryOf(1, 3)) == Plex(P, ID0, MergeList(P, a, b));
  }
}
