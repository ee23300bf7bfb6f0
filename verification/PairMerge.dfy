/** Two inputs: on exact values the engine is the two-way merge, for any lists, sorted or not, in any world. */
module PairMerge {
  import opened Seqs
  import opened Ids
  import opened Elements
  import opened Merge
  import opened Batch
  import opened Contest
  import opened Heaps
  import opened Selection
  import opened Streams
  import opened Weights
  import opened Engine
  import opened SelfMerge

  lemma {:induction false} LoneInput(k: Kind, xs: Doc)
    ensures HeapMerged(k, [xs]) == xs
  {
    SelfMerge.SelfMerge(k, xs, 1);
    assert Copies(xs, 1) == [xs];
  }

  lemma {:induction false} LoneClass(e: Elem)
    ensures ClassMerged([e]) == e
  {
    if e.First? {
      assert ValuesOf([e]) == [e.val] by { assert ValuesOf([e][..0]) == []; }
    } else {
      assert KidsOf([e]) == [e.kids] by { assert KidsOf([e][..0]) == []; }
      LoneInput(e.kind, e.kids);
    }
  }

  lemma {:induction false} WinnersOfTwo(a: Elem, b: Elem)
    ensures Winners([a, b]) == match Judge(a, b) { case Less => [b] case Grtr => [a] case Eq => [a, b] }
  {
    var es := [a, b];
    match Judge(a, b)
    case Less => assert SelectFrom(JUDGE, es, 2, 1, 1) == SelectFrom(JUDGE, Swap(es, 0, 1), 2, 1, 2);
    case Grtr =>
      assert Swap(es, 1, 1) == es;
      assert SelectFrom(JUDGE, es, 2, 1, 1) == SelectFrom(JUDGE, es, 1, 1, 1);
    case Eq =>
      assert Swap(es, 1, 1) == es;
      assert SelectFrom(JUDGE, es, 2, 1, 1) == SelectFrom(JUDGE, es, 2, 2, 2);
  }

  /** Two contenders. */
  lemma {:induction false} SpotOfTwo(a: Elem, b: Elem)
    requires Exact(a) && Exact(b)
    ensures SpotOf([a, b]) == Spot(a, b)
    decreases WeightOf([a, b]), 1
  {
    WinnersAgree([a, b]);
    WinnersOfTwo(a, b);
    match Judge(a, b)
    case Less => LoneClass(b);
    case Grtr => LoneClass(a);
    case Eq => ClassOfTwo(a, b);
  }

  lemma ValuesOfTwo(a: Elem, b: Elem)
    requires a.First? && b.First?
    ensures ValuesOf([a, b]) == [a.val, b.val] && Largest([a.val, b.val]) == MergeValues(a.val, b.val)
  {
    assert [a, b][..1] == [a] && [a][..0] == [];
    assert ValuesOf([a]) == [a.val];
    assert [a.val, b.val][..1] == [a.val];
  }

  lemma KidsOfTwo(a: Elem, b: Elem)
    requires a.Plex? && b.Plex?
    ensures KidsOf([a, b]) == [a.kids, b.kids]
  {
    assert [a, b][..1] == [a] && [a][..0] == [];
    assert KidsOf([a]) == [a.kids];
  }

  lemma MaxIDOfTwo(a: Elem, b: Elem)
    ensures MaxIDs([a, b]) == MaxID(a.id, b.id)
  {
    assert [a, b][..1] == [a];
  }

  lemma {:induction false} ClassOfTwo(a: Elem, b: Elem)
    requires Exact(a) && Exact(b) && Judge(a, b) == Eq && OneType([a, b])
    ensures ClassMerged([a, b]) == Spot(a, b)
    decreases WeightOf([a, b]), 0
  {
    var es := [a, b];
    assert es[0] in es && es[1] in es;
    MaxIDOfTwo(a, b);
    if a.First? {
      ValuesOfTwo(a, b);
    } else {
      KidsOfTwo(a, b);
      KidsWeigh(es);
      MergeOfTwo(a.kind, a.kids, b.kids);
      if !IsSame(a, b) {
        TieIsIdentity(a, b);
      }
    }
  }

  /** For every two exact lists, and every container, the engine is the two-way merge. */
  lemma {:induction false} MergeOfTwo(k: Kind, xs: Doc, ys: Doc)
    requires ExactDoc(xs) && ExactDoc(ys)
    ensures HeapMerged(k, [xs, ys]) == MergeList(k, xs, ys)
    decreases WeightAll([xs, ys]), 4
  {
    var h := Heapized(k, [xs, ys]);
    HeapizedWeighs(k, [xs, ys]);
    HeapizedHolds(k, [xs, ys]);
    NonEmptyOfTwo(xs, ys);
    RunOfPair(k, xs, ys, h);
  }

  lemma NonEmptyOfTwo(xs: Doc, ys: Doc)
    ensures multiset(NonEmpty([xs, ys])) == (if xs != [] then multiset{xs} else multiset{}) + (if ys != [] then multiset{ys} else multiset{})
  {
    assert [xs, ys][..1] == [xs] && [xs][..0] == [];
    NonEmptyGrows([xs], ys);
    NonEmptyGrows([], xs);
  }

  /** A heap that holds what is left of two lists, in either order. */
  ghost predicate HoldsPair(xs: Doc, ys: Doc, h: seq<Stream>) {
    multiset(h) == (if xs != [] then multiset{xs} else multiset{}) + (if ys != [] then multiset{ys} else multiset{})
  }

  lemma PairShapes(xs: Doc, ys: Doc, h: seq<Stream>)
    requires HoldsPair(xs, ys, h)
    ensures xs == [] && ys == [] ==> h == []
    ensures xs != [] && ys == [] ==> h == [xs]
    ensures xs == [] && ys != [] ==> h == [ys]
    ensures xs != [] && ys != [] ==> h == [xs, ys] || h == [ys, xs]
  {
    assert |h| == |multiset(h)|;
    assert forall i | 0 <= i < |h| :: h[i] in multiset(h);
    if |h| == 2 {
      assert h == [h[0], h[1]];
      assert multiset(h) == multiset{h[0], h[1]};
      assert multiset(h)[xs] > 0 && multiset(h)[ys] > 0;
    }
  }

  lemma {:induction false} RunOfPair(k: Kind, xs: Doc, ys: Doc, h: seq<Stream>)
    requires ExactDoc(xs) && ExactDoc(ys) && HoldsPair(xs, ys, h) && IsHeap(LessBy(k), h)
    ensures RunHeap(k, h) == MergeList(k, xs, ys)
    decreases WeightAll(h), 3
  {
    PairShapes(xs, ys, h);
    if xs != [] && ys != [] {
      if h == [xs, ys] {
        RunOfHeap(k, xs, ys, h);
      } else {
        MergeListCommutes(k, xs, ys);
        RunOfHeap(k, ys, xs, h);
      }
    } else if h != [] {
      RunOfCopies(k, h[0], 1);
      assert Copies(h[0], 1) == h;
    }
  }

  /** The streams in the order in which they stand in the heap. */
  lemma {:induction false} RunOfHeap(k: Kind, xs: Doc, ys: Doc, h: seq<Stream>)
    requires ExactDoc(xs) && ExactDoc(ys) && xs != [] && ys != [] && h == [xs, ys] && IsHeap(LessBy(k), h)
    ensures RunHeap(k, h) == MergeList(k, xs, ys)
    decreases WeightAll(h), 2
  {
    RoundWeighs(k, h);
    RoundKeepsHeap(k, h);
    assert RunHeap(k, h) == [Emitted(k, h)] + RunHeap(k, NextHeap(k, h));
    assert xs[0] in xs && ys[0] in ys;
    MergeOfHeads(k, xs, ys);
    if Compare(k, xs[0], ys[0]) == Eq {
      BothHeadsGo(k, h);
      assert WeightOf([xs[0], ys[0]]) <= WeightAll(h);
      SpotOfTwo(xs[0], ys[0]);
      RunOfPair(k, xs[1..], ys[1..], NextHeap(k, h));
    } else {
      FirstHeadGoes(k, h);
      RunOfPair(k, xs[1..], ys, NextHeap(k, h));
    }
  }

  lemma MergeOfHeads(k: Kind, xs: Doc, ys: Doc)
    requires xs != [] && ys != []
    ensures Compare(k, xs[0], ys[0]) == Eq ==> MergeList(k, xs, ys) == [Spot(xs[0], ys[0])] + MergeList(k, xs[1..], ys[1..])
    ensures Compare(k, xs[0], ys[0]) == Less ==> MergeList(k, xs, ys) == [xs[0]] + MergeList(k, xs[1..], ys)
  {
  }

  lemma PairGathers(k: Kind, h: seq<Stream>)
    requires |h| == 2
    ensures EqUp(EqBy(k), h) == (h, if EqBy(k)(h[0], h[1]) then 2 else 1)
  {
    GatherStep(EqBy(k), h, [1, 2], 1);
    assert Swap(h, 1, 1) == h && [1, 2][1..] == [2] && ([1, 2] + [3, 4])[1..] == [2, 3, 4];
  }

  lemma LiveOfOne(s: Stream)
    ensures multiset(Live([s])) == if s[1..] != [] then multiset{s[1..]} else multiset{}
    ensures HeadsOf([s]) == [s[0]]
  {
    LiveGrows([], s);
    assert [] + [s] == [s];
  }

  lemma TwoParts(h: seq<Stream>)
    requires |h| == 2
    ensures h == [h[0]] + [h[1]]
  {
  }

  lemma PairHeads(h: seq<Stream>)
    requires |h| == 2
    ensures HeadsOf(h) == [h[0][0], h[1][0]] && HeadsOf(h[..1]) == [h[0][0]]
  {
    TwoParts(h);
    LiveOfOne(h[0]);
    LiveGrows([h[0]], h[1]);
    assert HeadsOf(h) == HeadsOf([h[0]]) + [h[1][0]];
    assert h[..1] == [h[0]];
  }

  lemma BothAdvance(s: Stream, t: Stream, h: seq<Stream>)
    requires multiset(h) == multiset(Live([s] + [t]))
    ensures HoldsPair(s[1..], t[1..], h)
  {
    LiveOfOne(s);
    LiveOfOne(t);
    LiveConcat([s], [t]);
  }

  lemma FirstAdvances(s: Stream, t: Stream, h: seq<Stream>)
    requires multiset(h) == multiset(Live([s]) + [t])
    ensures HoldsPair(s[1..], t, h)
  {
    LiveOfOne(s);
  }

  /** One round over two streams with equal heads takes both. */
  lemma BothHeadsGo(k: Kind, h: seq<Stream>)
    requires |h| == 2 && Compare(k, h[0][0], h[1][0]) == Eq
    ensures Minimal(k, h) == h && HeadsOf(h) == [h[0][0], h[1][0]] && HoldsPair(h[0][1..], h[1][1..], NextHeap(k, h))
  {
    PairGathers(k, h);
    assert h + [] == h;
    RoundKeepsParts(k, h, h, []);
    PairHeads(h);
    TwoParts(h);
    BothAdvance(h[0], h[1], NextHeap(k, h));
  }

  /** Otherwise it takes the first, which is the lower. */
  lemma FirstHeadGoes(k: Kind, h: seq<Stream>)
    requires |h| == 2 && IsHeap(LessBy(k), h) && Compare(k, h[0][0], h[1][0]) != Eq
    ensures Compare(k, h[0][0], h[1][0]) == Less
    ensures HeadsOf(Minimal(k, h)) == [h[0][0]] && HoldsPair(h[0][1..], h[1], NextHeap(k, h))
  {
    PairGathers(k, h);
    TwoParts(h);
    RoundKeepsParts(k, h, [h[0]], [h[1]]);
    PairHeads(h);
    LiveOfOne(h[0]);
    FirstAdvances(h[0], h[1], NextHeap(k, h));
    assert Fine(LessBy(k), h, 1);
    CompareFlips(k, h[0][0], h[1][0]);
  }
}
