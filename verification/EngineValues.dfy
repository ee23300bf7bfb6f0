/** No value is made up: whatever holds of all values of the inputs holds of all values of the merge. */
module EngineValues {
  import opened Seqs
  import opened Elements
  import opened Merge
  import opened Batch
  import opened Contest
  import opened Heaps
  import opened Selection
  import opened Streams
  import opened Weights
  import opened Engine
  import opened Normal
  import opened EngineNormal

  /** All values in the element, at any depth, are `ok`. */
  predicate Holds(ok: Prim -> bool, e: Elem)
    decreases e
  {
    match e
    case First(_, val) => ok(val)
    case Plex(_, _, kids) => forall x | x in kids :: Holds(ok, x)
  }

  predicate AllHold(ok: Prim -> bool, d: Doc) { forall x | x in d :: Holds(ok, x) }

  lemma {:induction false} SpotHolds(ok: Prim -> bool, es: seq<Elem>)
    requires es != [] && AllHold(ok, es)
    ensures Holds(ok, SpotOf(es))
    decreases WeightOf(es), 0
  {
    var eqs := Winners(es);
    var x := SpotOfShell(es);
    WinnersComeFrom(es);
    WinnersWeigh(es);
    WinnersAgree(es);
    if eqs[0].Plex? {
      KidsWeigh(eqs);
      forall s | s in KidsOf(eqs) ensures AllHold(ok, s) {
        var y := KidsComeFrom(eqs, s);
      }
      MergeHolds(ok, eqs[0].kind, KidsOf(eqs));
    }
  }

  lemma {:induction false} GatheredHold(ok: Prim -> bool, k: Kind, h: seq<Stream>)
    requires forall s | s in h :: AllHold(ok, s)
    ensures forall s | s in EqUp(EqBy(k), h).0 :: AllHold(ok, s)
  {
    EqUpPermutes(EqBy(k), h);
    forall s | s in EqUp(EqBy(k), h).0 ensures AllHold(ok, s) { assert s in multiset(h); }
  }

  lemma {:induction false} HeadsHold(ok: Prim -> bool, k: Kind, h: seq<Stream>)
    requires h != [] && forall s | s in h :: AllHold(ok, s)
    ensures AllHold(ok, HeadsOf(Minimal(k, h)))
  {
    var g := EqUp(EqBy(k), h).0;
    GatheredHold(ok, k, h);
    forall x | x in HeadsOf(Minimal(k, h)) ensures Holds(ok, x) {
      var j := HeadsComeFrom(Minimal(k, h), x);
      assert g[j] in g && AllHold(ok, g[j]);
    }
  }

  lemma {:induction false} EmittedHolds(ok: Prim -> bool, k: Kind, h: seq<Stream>)
    requires h != [] && forall s | s in h :: AllHold(ok, s)
    ensures Holds(ok, Emitted(k, h))
    decreases WeightAll(h), 2
  {
    var heads := HeadsOf(Minimal(k, h));
    RoundWeighs(k, h);
    HeadsHold(ok, k, h);
    if |heads| == 1 {
      assert heads[0] in heads;
    } else {
      SpotHolds(ok, heads);
    }
  }

  lemma {:induction false} NextHolds(ok: Prim -> bool, k: Kind, h: seq<Stream>)
    requires h != [] && forall s | s in h :: AllHold(ok, s)
    ensures forall s | s in NextHeap(k, h) :: AllHold(ok, s)
  {
    var (g, e) := EqUp(EqBy(k), h);
    GatheredHold(ok, k, h);
    NextHeapKeepsStreams(k, h);
    forall s | s in NextHeap(k, h) ensures AllHold(ok, s) {
      assert s in multiset(Live(g[..e]) + g[e..]);
      if s in Live(g[..e]) {
        var j := LiveComesFrom(g[..e], s);
        assert g[j] in g && AllHold(ok, g[j]);
      }
    }
  }

  lemma {:induction false} RunHolds(ok: Prim -> bool, k: Kind, h: seq<Stream>)
    requires forall s | s in h :: AllHold(ok, s)
    ensures AllHold(ok, RunHeap(k, h))
    decreases WeightAll(h), 3
  {
    if h != [] {
      RoundWeighs(k, h);
      EmittedHolds(ok, k, h);
      NextHolds(ok, k, h);
      RunHolds(ok, k, NextHeap(k, h));
    }
  }

  /** For any number of inputs, sorted or not, in any container. */
  lemma {:induction false} MergeHolds(ok: Prim -> bool, k: Kind, inputs: seq<Doc>)
    requires forall s | s in inputs :: AllHold(ok, s)
    ensures AllHold(ok, HeapMerged(k, inputs))
    decreases WeightAll(inputs), 4
  {
    var h := Heapized(k, inputs);
    HeapizedHolds(k, inputs);
    HeapizedWeighs(k, inputs);
    forall s | s in h ensures AllHold(ok, s) {
      assert s in multiset(NonEmpty(inputs));
      NonEmptyComesFrom(inputs, s);
    }
    RunHolds(ok, k, h);
  }

  // ---- the normalizer

  lemma {:induction false} PassHolds(ok: Prim -> bool, k: Kind, raw: Doc)
    requires AllHold(ok, raw)
    ensures AllHold(ok, Passed(HEAP, k, raw).last)
    ensures forall s | s in Passed(HEAP, k, raw).chunks :: AllHold(ok, s)
    decreases raw, 0
  {
    if raw != [] {
      var n := |raw| - 1;
      assert raw[n] in raw && forall x | x in raw[..n] :: x in raw;
      PassHolds(ok, k, raw[..n]);
      if raw[n].Plex? {
        NormKidsHold(ok, raw[n].kind, raw[n].kids);
      }
      assert AllHold(ok, NormIn(HEAP, k, raw[n]));
    }
  }

  /** Nor does normalizing make up any. */
  lemma {:induction false} NormKidsHold(ok: Prim -> bool, k: Kind, raw: Doc)
    requires AllHold(ok, raw)
    ensures AllHold(ok, NormKids(HEAP, k, raw))
    decreases raw, 1
  {
    var p := Passed(HEAP, k, raw);
    PassHolds(ok, k, raw);
    if p.chunks != [] {
      MergeHolds(ok, k, p.chunks + [p.last]);
    }
  }
}
