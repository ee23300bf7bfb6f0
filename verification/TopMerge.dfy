/** Merging whole documents, many at a time, as bytes. */
module TopMerge {
  import opened Seqs
  import opened Ids
  import opened Elements
  import opened Merge
  import opened Layouts
  import opened Worlds
  import opened Discipline
  import opened Batch
  import opened Contest
  import opened Selection
  import opened Engine
  import opened EngineSize
  import opened Tlv
  import opened Wire
  import opened PairMerge
  import opened Orders
  import IterHeap
  import Heaps
  import Streams

  /** The chunks are encoded lists, each short enough for the record iterator. */
  ghost predicate Chunked(chunks: seq<bytes>, runs: seq<Doc>, limit: nat) {
    |chunks| == |runs| && forall i | 0 <= i < |runs| :: chunks[i] == EncodeDoc(runs[i]) && |chunks[i]| <= limit
  }

  /** `HeapMerge` on buffers: reads the records, merges the streams, writes the records. */
  method MergeStreams(data: bytes, k: Kind, chunks: seq<bytes>, ghost runs: seq<Doc>) returns (res: bytes)
    requires Chunked(chunks, runs, MAX_ITER_LEN - 1)
    ensures res == data + EncodeDoc(HeapMerged(k, runs)) && |res| <= |data| + TotalSize(runs)
  {
    var inputs: seq<Doc> := [];
    var i := 0;
    while i < |chunks|
      invariant 0 <= i <= |chunks| && inputs == runs[..i]
    {
      DecodeUndoesEncode(runs[i]);
      TakeGrows(runs, i);
      inputs := inputs + [Decode(chunks[i]).value];
      i := i + 1;
    }
    assert runs[..i] == runs;
    HeapShrinks(k, runs);
    res := IterHeap.HeapMerge(data, k, inputs);
  }

  ghost predicate AllDisciplined(r: Rules, ok: Roster, docs: seq<Doc>) {
    forall d | d in docs :: DisciplinedDoc(r, ok, d)
  }

  /** `Merge`: documents merge as tuples do. */
  method MergeBuffers(data: bytes, bare: seq<bytes>, ghost docs: seq<Doc>) returns (ret: bytes)
    requires Chunked(bare, docs, MAX_ITER_LEN - 1)
    ensures |ret| <= |data| + TotalSize(docs)
    ensures |docs| == 2 && ExactDoc(docs[0]) && ExactDoc(docs[1]) ==> ret == data + EncodeDoc(MergeDocs(docs[0], docs[1]))
    ensures |docs| <= 7 ==> forall r, holes | AllDisciplined(r, Tidy(holes), docs) ::
              ret == data + EncodeDoc(FoldMerge(P, docs))
    ensures forall w | Mergeable(w, [], P, Start, docs) :: ret == data + EncodeDoc(FoldMerge(P, docs))
  {
    ret := MergeStreams(data, P, bare, docs);
    if |docs| == 2 && ExactDoc(docs[0]) && ExactDoc(docs[1]) {
      MergeOfTwo(P, docs[0], docs[1]);
      assert docs == [docs[0], docs[1]];
    }
    if |docs| <= 7 {
      forall r, holes | AllDisciplined(r, Tidy(holes), docs)
        ensures ret == data + EncodeDoc(FoldMerge(P, docs))
      {
        DisciplinedMerge(r, holes, docs);
      }
    }
    forall w | Mergeable(w, [], P, Start, docs) ensures ret == data + EncodeDoc(FoldMerge(P, docs)) {
      MergedIsFold(w, [], P, Start, docs);
    }
  }

  // ---- the engine on documents of one world

  /** Up to seven documents that fit one world: the order in which they come does not matter. */
  lemma {:induction false} MergePermutes(w: World, inputs: seq<Doc>, others: seq<Doc>)
    requires Mergeable(w, [], P, Start, inputs) && multiset(inputs) == multiset(others)
    ensures HeapMerged(P, inputs) == FoldMerge(P, inputs) == FoldMerge(P, others) == HeapMerged(P, others)
  {
    assert |others| == |multiset(others)| == |multiset(inputs)| == |inputs|;
    Streams.AllLaidPermutes(w, [], P, Start, inputs, others);
    Streams.AllLaidInOpened(w, [], P, Start, inputs);
    MergedIsFold(w, [], P, Start, inputs);
    MergedIsFold(w, [], P, Start, others);
    FoldMergePermutes(Opened(w), [], P, Start, inputs, others);
  }

  /** Ids at which empty tuples may stand; no type that an empty tuple loses to may stand there. */
  predicate KeepsHoles(holes: ID -> bool, e: Elem) {
    (IsEmptyTuple(e) ==> holes(e.id)) && (holes(e.id) ==> CompareLit(Lit(e), KindLit(P)) != Less)
  }

  /** Empty tuples are kept apart, place by place. */
  function Tidy(holes: Path -> (ID -> bool)): Roster { (p: Path) => (e: Elem) => KeepsHoles(holes(p), e) }

  lemma TidyFits(r: Rules, holes: Path -> (ID -> bool), inputs: seq<Doc>)
    requires AllDisciplined(r, Tidy(holes), inputs)
    ensures Fitting(WorldOf(r, Tidy(holes)), [], P, Start, inputs)
  {
    WorldIsCalm(r, Tidy(holes));
    forall d | d in inputs ensures Laid(WorldOf(r, Tidy(holes)), [], P, Start, d) {
      DisciplinedIsLaid(r, Tidy(holes), [], P, Start, d);
    }
  }

  /** Up to seven documents that keep one discipline, with their empty tuples kept apart: no world need be named. */
  lemma {:induction false} DisciplinedMerge(r: Rules, holes: Path -> (ID -> bool), inputs: seq<Doc>)
    requires |inputs| <= 7 && AllDisciplined(r, Tidy(holes), inputs)
    ensures HeapMerged(P, inputs) == FoldMerge(P, inputs)
    ensures forall others | multiset(others) == multiset(inputs) :: HeapMerged(P, others) == HeapMerged(P, inputs)
  {
    var w := WorldOf(r, Tidy(holes));
    TidyFits(r, holes, inputs);
    MergePermutes(w, inputs, inputs);
    forall others | multiset(others) == multiset(inputs) ensures HeapMerged(P, others) == HeapMerged(P, inputs) {
      MergePermutes(w, inputs, others);
    }
  }

  // ---- two at a time: no condition on empty tuples

  function Merged2(a: Doc, b: Doc): Doc { HeapMerged(P, [a, b]) }

  /** The engine, used on pairs, is commutative and idempotent on all exact documents. */
  lemma PairsCommute(a: Doc, b: Doc)
    requires ExactDoc(a) && ExactDoc(b)
    ensures Merged2(a, b) == Merged2(b, a) && Merged2(a, a) == a && ExactDoc(Merged2(a, b))
  {
    MergeOfTwo(P, a, b);
    MergeOfTwo(P, b, a);
    MergeOfTwo(P, a, a);
    MergeIsCommutative(a, b);
    MergeIsIdempotent(a);
    MergeListKeepsExact(P, a, b);
  }

  /** And associative on all documents that keep one discipline. */
  lemma PairsAssociate(r: Rules, a: Doc, b: Doc, c: Doc)
    requires DisciplinedDoc(r, ANY, a) && DisciplinedDoc(r, ANY, b) && DisciplinedDoc(r, ANY, c)
    ensures Merged2(Merged2(a, b), c) == Merged2(a, Merged2(b, c))
    ensures DisciplinedDoc(r, ANY, Merged2(a, b))
  {
    DisciplinedIsExact(r, ANY, a);
    DisciplinedIsExact(r, ANY, b);
    DisciplinedIsExact(r, ANY, c);
    MergeListKeepsExact(P, a, b);
    MergeListKeepsExact(P, b, c);
    MergeOfTwo(P, a, b);
    MergeOfTwo(P, b, c);
    MergeOfTwo(P, MergeDocs(a, b), c);
    MergeOfTwo(P, a, MergeDocs(b, c));
    DocumentsFormASemilattice(r, a, b, c);
  }

  /** Three at once, or two by two, if the empty tuples are kept apart. */
  lemma ThreeAtOnce(r: Rules, holes: Path -> (ID -> bool), a: Doc, b: Doc, c: Doc)
    requires AllDisciplined(r, Tidy(holes), [a, b, c])
    ensures HeapMerged(P, [a, b, c]) == Merged2(Merged2(a, b), c)
  {
    DisciplinedMerge(r, holes, [a, b, c]);
    FoldOfThreeLists(P, a, b, c);
    var docs := [a, b, c];
    assert docs[0] in docs && docs[1] in docs && docs[2] in docs;
    DisciplinedIsExact(r, Tidy(holes), a);
    DisciplinedIsExact(r, Tidy(holes), b);
    DisciplinedIsExact(r, Tidy(holes), c);
    PairsChain(a, b, c);
  }

  const HOLE: Elem := Plex(P, ID0, [])
  const ONE: Elem := Plex(P, ID0, [First(ID0, Integer(1))])
  const FIVE: Elem := First(ID0, Integer(5))

  /** They must be: of (), (1) and 5 the merge of all three keeps 5, two by two it keeps (1). */
  lemma ThreeAtOnceMisled()
    ensures HeapMerged(P, [[HOLE], [ONE], [FIVE]]) == [FIVE]
    ensures Merged2(Merged2([HOLE], [ONE]), [FIVE]) == [ONE]
  {
    EmptyTupleMisleads();
    OneRound(HOLE, ONE, FIVE);
    TwoRounds(HOLE, ONE, FIVE);
    SpotIsOfWinners([HOLE, ONE, FIVE], FIVE);
  }

  /** A lone winner is the result. */
  lemma {:induction false} SpotIsOfWinners(es: seq<Elem>, e: Elem)
    requires es != [] && |Winners(es)| == 1 && Winners(es)[0] == e
    ensures SpotOf(es) == e
  {
    WinnersAgree(es);
    assert Winners(es) == [e];
    LoneClass(e);
  }

  lemma {:induction false} TwoRounds(a: Elem, b: Elem, c: Elem)
    requires Exact(a) && Exact(b) && Exact(c)
    ensures Merged2(Merged2([a], [b]), [c]) == [FoldSpot([a, b, c])]
  {
    PairsChain([a], [b], [c]);
    OneByOne(a, b);
    OneByOne(Spot(a, b), c);
    FoldOfThree(a, b, c);
  }

  /** Of three one-element documents all heads tie, and the round that merges them exhausts the streams. */
  lemma OneRound(a: Elem, b: Elem, c: Elem)
    ensures HeapMerged(P, [[a], [b], [c]]) == [SpotOf([a, b, c])]
  {
    var h: seq<Streams.Stream> := [[a], [b], [c]];
    HeapizedIdle(P, h, 3);
    assert h[..3] == h;
    RoundOfThree(h);
  }

  lemma {:induction false} RoundOfThree(h: seq<Streams.Stream>)
    requires |h| == 3 && forall s | s in h :: |s| == 1
    ensures RunHeap(P, h) == [SpotOf([h[0][0], h[1][0], h[2][0]])]
  {
    AllTie(h);
    ThreeHeads(h);
    Streams.NextHeapKeepsStreams(P, h);
    NothingLeft(Streams.NextHeap(P, h));
    assert Streams.Minimal(P, h) == h;
    assert RunHeap(P, []) == [];
  }

  lemma NothingLeft(h: seq<Streams.Stream>)
    requires multiset(h) == multiset{}
    ensures h == []
  {
    assert |h| == |multiset(h)|;
  }

  lemma AllTie(h: seq<Streams.Stream>)
    requires |h| == 3
    ensures Heaps.EqUp(Streams.EqBy(P), h) == (h, 3)
  {
    var eq := Streams.EqBy(P);
    assert Heaps.Swap(h, 1, 1) == h && Heaps.Swap(h, 2, 2) == h;
    Heaps.GatherStep(eq, h, [1, 2], 1);
    assert ([1, 2] + [3, 4])[1..] == [2, 3, 4];
    Heaps.GatherStep(eq, h, [2, 3, 4], 2);
    assert ([2, 3, 4] + [5, 6])[1..] == [3, 4, 5, 6];
  }

  lemma {:induction false} ThreeHeads(h: seq<Streams.Stream>)
    requires |h| == 3 && forall s | s in h :: |s| == 1
    ensures Streams.HeadsOf(h) == [h[0][0], h[1][0], h[2][0]] && Streams.Live(h) == [] && h[..3] == h && h[3..] == []
  {
    IterHeap.HeadsAreHeads(h, [h[0][0], h[1][0], h[2][0]]);
    NoneLive(h);
  }

  lemma {:induction false} NoneLive(h: seq<Streams.Stream>)
    requires forall s | s in h :: |s| == 1
    ensures Streams.Live(h) == []
    decreases |h|
  {
    if h != [] {
      assert h[|h| - 1] in h;
      NoneLive(h[..|h| - 1]);
    }
  }

  lemma PairsChain(a: Doc, b: Doc, c: Doc)
    requires ExactDoc(a) && ExactDoc(b) && ExactDoc(c)
    ensures Merged2(Merged2(a, b), c) == MergeDocs(MergeDocs(a, b), c)
  {
    MergeListKeepsExact(P, a, b);
    MergeOfTwo(P, a, b);
    MergeOfTwo(P, MergeDocs(a, b), c);
  }

  lemma {:induction false} FoldOfThreeLists(k: Kind, a: Doc, b: Doc, c: Doc)
    ensures FoldMerge(k, [a, b, c]) == MergeList(k, MergeList(k, a, b), c)
  {
    assert [a, b, c] == [a, b] + [c] && [a, b] == [a] + [b];
    FoldMergeGrows(k, [a, b], c);
    FoldMergeGrows(k, [a], b);
  }

  // ---- without empty tuples

  /** No empty tuple, at any level. */
  predicate Filled(e: Elem) {
    e.Plex? ==> !IsEmptyTuple(e) && forall x | x in e.kids :: Filled(x)
  }

  /** The same world, without empty tuples. */
  ghost function Hardened(w: World): World {
    w.(roster := (p: Path) => (e: Elem) => !IsEmptyTuple(e))
  }

  lemma {:induction false} FilledBelongs(w: World, p: Path, e: Elem)
    requires Belongs(w, p, e) && Filled(e)
    ensures Belongs(Hardened(w), p, e)
    decreases e, 0
  {
    if e.Plex? {
      FilledLaid(w, Inside(p, e), e.kind, Start, e.kids);
    }
  }

  /** Documents without empty tuples are at home in the hardened world. */
  lemma {:induction false} FilledLaid(w: World, c: Path, k: Kind, q: Cursor, xs: Doc)
    requires Laid(w, c, k, q, xs) && forall x | x in xs :: Filled(x)
    ensures Laid(Hardened(w), c, k, q, xs)
    decreases xs, 1
  {
    if xs != [] {
      assert LayoutAt(Hardened(w), c, k) == LayoutAt(w, c, k);
      var s := SlotOf(LayoutAt(w, c, k), q, KeyOf(k, xs[0]));
      FilledBelongs(w, c + [At(s)], xs[0]);
      FilledLaid(w, c, k, After(s), xs[1..]);
    }
  }

  /** Without empty tuples, a calm world is enough. */
  lemma {:induction false} FilledMerge(w: World, inputs: seq<Doc>)
    requires |inputs| <= 7 && CalmWorld(Opened(w))
    requires forall d | d in inputs :: DocBelongs(w, d) && forall x | x in d :: Filled(x)
    ensures HeapMerged(P, inputs) == FoldMerge(P, inputs)
  {
    forall d | d in inputs ensures DocBelongs(Hardened(w), d) {
      FilledLaid(w, [], P, Start, d);
    }
    assert Opened(Hardened(w)) == Opened(w);
    MergePermutes(Hardened(w), inputs, inputs);
  }
}
