/** Up to seven lists in normal form merge to a list in normal form, whatever their stamps. */
module EngineNormal {
  import opened Seqs
  import opened Elements
  import opened Layouts
  import opened Batch
  import opened Contest
  import opened Heaps
  import opened Selection
  import opened Streams
  import opened Weights
  import opened Engine
  import opened EngineSize
  import opened Normal

  // ---- the record written at a spot has the key of the contenders

  /** A merged value is one of the values; a merged container has the type and identity of one. */
  lemma SpotOfShell(es: seq<Elem>) returns (x: Elem)
    requires es != []
    ensures x in es && Lit(SpotOf(es)) == Lit(x) && SpotOf(es).id == x.id
    ensures SpotOf(es).First? ==> SpotOf(es) == x
    ensures SpotOf(es).Plex? ==> forall e | e in Winners(es) :: e.Plex? && e.kind == SpotOf(es).kind
  {
    var eqs := Winners(es);
    WinningValuesShareAnId(es);
    WinnersComeFrom(es);
    WinnersWeigh(es);
    MaxIsAtLeast(eqs, eqs[0]);
    x :| x in eqs && x.id == MaxIDs(eqs);
    if eqs[0].First? {
      LargestIsIn(ValuesOf(eqs));
      x := ValueComesFrom(eqs, Largest(ValuesOf(eqs)));
    }
  }

  lemma {:induction false} SpotOfKeepsValueKey(es: seq<Elem>, key: Key)
    requires es != [] && forall e | e in es :: ValueKey(e) == key
    ensures ValueKey(SpotOf(es)) == key
  {
    var x := SpotOfShell(es);
  }

  lemma {:induction false} HeadsHaveKey(f: seq<Stream>, key: Key)
    requires forall s | s in f :: ValueKey(s[0]) == key
    ensures forall e | e in HeadsOf(f) :: ValueKey(e) == key
  {
    forall e | e in HeadsOf(f) ensures ValueKey(e) == key {
      var j := HeadsComeFrom(f, e);
      assert f[j] in f;
    }
  }

  /** The first of what tuples merge to stands for what their first elements stand for. */
  lemma {:induction false} FirstPartKeepsValueKey(inputs: seq<Doc>, key: Key)
    requires inputs != [] && forall s | s in inputs :: s != [] && ValueKey(s[0]) == key
    ensures var m := HeapMerged(P, inputs); m != [] && ValueKey(m[0]) == key
  {
    var h := Heapized(P, inputs);
    HeapizedHolds(P, inputs);
    assert inputs[0] in inputs;
    NonEmptyHas(inputs, inputs[0]);
    assert inputs[0] in multiset(h);
    forall s | s in h ensures ValueKey(s[0]) == key {
      assert s in multiset(NonEmpty(inputs));
      NonEmptyComesFrom(inputs, s);
    }
    EmittedHasValueKey(h, key);
  }

  lemma {:induction false} EmittedHasValueKey(h: seq<Stream>, key: Key)
    requires h != [] && forall s | s in h :: ValueKey(s[0]) == key
    ensures ValueKey(Emitted(P, h)) == key
  {
    EqUpPermutes(EqBy(P), h);
    RoundWeighs(P, h);
    forall s | s in Minimal(P, h) ensures ValueKey(s[0]) == key { assert s in multiset(h); }
    HeadsHaveKey(Minimal(P, h), key);
    var heads := HeadsOf(Minimal(P, h));
    assert heads[0] in heads;
    if |heads| > 1 {
      SpotOfKeepsValueKey(heads, key);
    }
  }

  lemma {:induction false} NonEmptyHas(ss: seq<Doc>, s: Doc)
    requires s in ss && s != []
    ensures s in NonEmpty(ss)
    decreases |ss|
  {
    SplitLast(ss);
    if s in ss[..|ss| - 1] {
      NonEmptyHas(ss[..|ss| - 1], s);
    }
  }

  lemma {:induction false} NonEmptyComesFrom(ss: seq<Doc>, s: Stream)
    requires s in NonEmpty(ss)
    ensures s in ss
    decreases |ss|
  {
    var n := |ss| - 1;
    if ss[n] != s {
      NonEmptyComesFrom(ss[..n], s);
    }
  }

  lemma {:induction false} NoneNonEmpty(ss: seq<Doc>)
    requires forall s | s in ss :: s == []
    ensures NonEmpty(ss) == []
  {
    if NonEmpty(ss) != [] {
      NonEmptyComesFrom(ss, NonEmpty(ss)[0]);
    }
  }

  lemma {:induction false} EmptyInputs(k: Kind, inputs: seq<Doc>)
    requires forall s | s in inputs :: s == []
    ensures HeapMerged(k, inputs) == []
  {
    HeapizedHolds(k, inputs);
    NoneNonEmpty(inputs);
    assert |Heapized(k, inputs)| == |multiset(Heapized(k, inputs))|;
  }

  /** In every container the record written has the key of its contenders. */
  lemma {:induction false} SpotOfKeepsKey(k: Kind, es: seq<Elem>, key: Key)
    requires es != [] && forall e | e in es :: KeyOf(k, e) == key
    ensures KeyOf(k, SpotOf(es)) == key
    ensures IsEmptyTuple(SpotOf(es)) ==> exists e | e in es :: IsEmptyTuple(e)
  {
    var x := SpotOfShell(es);
    WinnersComeFrom(es);
    if SpotOf(es).Plex? && SpotOf(es).kind == P {
      TuplesKeepKey(k, es, key);
    }
  }

  lemma {:induction false} TuplesKeepKey(k: Kind, es: seq<Elem>, key: Key)
    requires es != [] && (forall e | e in es :: KeyOf(k, e) == key) && SpotOf(es).Plex? && SpotOf(es).kind == P
    ensures k == E ==> KeyOf(k, SpotOf(es)) == key
    ensures IsEmptyTuple(SpotOf(es)) ==> exists e | e in es :: IsEmptyTuple(e)
  {
    var eqs := Winners(es);
    var x := SpotOfShell(es);
    WinnersComeFrom(es);
    assert eqs[0] in eqs;
    KidsOfMember(eqs, eqs[0]);
    if exists e | e in eqs :: IsEmptyTuple(e) {
      var e :| e in eqs && IsEmptyTuple(e);
      assert e in es;
      if k == E {
        forall s | s in KidsOf(eqs) ensures s == [] {
          var y := KidsComeFrom(eqs, s);
        }
        EmptyInputs(P, KidsOf(eqs));
      }
    } else if k == E {
      forall s | s in KidsOf(eqs) ensures s != [] && ValueKey(s[0]) == key {
        var y := KidsComeFrom(eqs, s);
      }
      FirstPartKeepsValueKey(KidsOf(eqs), key);
    } else {
      var y := KidsComeFrom(eqs, KidsOf(eqs)[0]);
      SomethingStays(KidsOf(eqs));
    }
  }

  lemma {:induction false} SomethingStays(inputs: seq<Doc>)
    requires inputs != [] && inputs[0] != []
    ensures HeapMerged(P, inputs) != []
  {
    HeapizedHolds(P, inputs);
    NonEmptyHas(inputs, inputs[0]);
    assert inputs[0] in multiset(Heapized(P, inputs));
  }

  // ---- normal streams

  ghost predicate AllNormal(k: Kind, h: seq<Doc>) { forall s | s in h :: NormalKids(k, s) }

  lemma {:induction false} NormalTail(k: Kind, s: Doc)
    requires NormalKids(k, s) && s != []
    ensures NormalKids(k, s[1..]) && Normal.Normal(s[0]) && (k == E ==> !IsEmptyTuple(s[0]))
    ensures (k == E || k == X) && |s| > 1 ==> Below(KeyOf(k, s[0]), KeyOf(k, s[1]))
  {
    assert s[0] in s && forall x | x in s[1..] :: x in s;
    if k == E || k == X {
      AscendingTail(k, s);
    }
  }

  /** A round over ascending streams: what is left ascends and stands above the key just written. */
  lemma RoundLeavesAscending(k: Kind, h: seq<Stream>)
    requires h != [] && IsHeap(LessBy(k), h) && forall s | s in h :: Ascending(k, s)
    ensures forall s | s in NextHeap(k, h) :: Ascending(k, s) && Below(KeyOf(k, h[0][0]), KeyOf(k, s[0]))
  {
    var (g, e) := EqUp(EqBy(k), h);
    GatherLow(k, h);
    TopStays(k, h);
    EqUpPermutes(EqBy(k), h);
    NextHeapKeepsStreams(k, h);
    assert forall s | s in g :: s in multiset(h);
    forall s | s in NextHeap(k, h) ensures Ascending(k, s) && Below(KeyOf(k, h[0][0]), KeyOf(k, s[0])) {
      assert s in multiset(Live(g[..e]) + g[e..]);
      LeftAscends(k, g, e, s);
    }
  }

  lemma TopStays(k: Kind, h: seq<Stream>)
    requires h != [] && IsHeap(LessBy(k), h)
    ensures EqUp(EqBy(k), h).0[0] == h[0]
  {
    StreamsAreOrdered(k);
    EqUpSplits(LessBy(k), EqBy(k), h);
  }

  lemma {:induction false} LeftAscends(k: Kind, g: seq<Stream>, e: nat, s: Stream)
    requires g != [] && Gathered(k, KeyOf(k, g[0][0]), g, e) && (forall x | x in g :: Ascending(k, x))
    requires s in Live(g[..e]) + g[e..]
    ensures Ascending(k, s) && Below(KeyOf(k, g[0][0]), KeyOf(k, s[0]))
  {
    if s in Live(g[..e]) {
      var j := LiveComesFrom(g[..e], s);
      assert g[j] in g;
      AscendingTail(k, g[j]);
    }
  }

  /** A round over normal streams leaves normal streams, and its heads are normal. */
  lemma RoundLeavesNormal(k: Kind, h: seq<Stream>)
    requires h != [] && IsHeap(LessBy(k), h) && AllNormal(k, h)
    ensures AllNormal(k, NextHeap(k, h))
    ensures HeadsOf(Minimal(k, h)) != []
    ensures forall e | e in HeadsOf(Minimal(k, h)) ::
              Normal.Normal(e) && (k == E ==> !IsEmptyTuple(e)) && KeyOf(k, e) == KeyOf(k, h[0][0])
  {
    var (g, e) := EqUp(EqBy(k), h);
    GatherLow(k, h);
    TopStays(k, h);
    EqUpPermutes(EqBy(k), h);
    NextHeapKeepsStreams(k, h);
    HeadsWeigh(g[..e]);
    assert AllNormal(k, g) by {
      forall s | s in g ensures NormalKids(k, s) { assert s in multiset(h); }
    }
    forall s | s in NextHeap(k, h) ensures NormalKids(k, s) {
      assert s in multiset(Live(g[..e]) + g[e..]);
      LeftIsNormal(k, g, e, s);
    }
    forall x | x in HeadsOf(g[..e]) ensures Normal.Normal(x) && (k == E ==> !IsEmptyTuple(x)) && KeyOf(k, x) == KeyOf(k, h[0][0]) {
      var j := HeadsComeFrom(g[..e], x);
      assert g[j] in g;
      NormalTail(k, g[j]);
    }
  }

  lemma {:induction false} LeftIsNormal(k: Kind, g: seq<Stream>, e: nat, s: Stream)
    requires e <= |g| && AllNormal(k, g) && s in Live(g[..e]) + g[e..]
    ensures NormalKids(k, s)
  {
    if s in Live(g[..e]) {
      var j := LiveComesFrom(g[..e], s);
      assert g[j] in g;
      NormalTail(k, g[j]);
    }
  }

  // ---- the merge

  /** For any heap of up to seven normal streams, the run over it writes a normal list from its top key on. */
  lemma {:induction false} RunIsNormal(k: Kind, h: seq<Stream>)
    requires |h| <= 7 && IsHeap(LessBy(k), h) && AllNormal(k, h)
    ensures NormalKids(k, RunHeap(k, h))
    ensures h != [] ==> RunHeap(k, h) != [] && KeyOf(k, RunHeap(k, h)[0]) == KeyOf(k, h[0][0])
    decreases WeightAll(h), 3
  {
    if h != [] {
      var next := NextHeap(k, h);
      RoundWeighs(k, h);
      RoundKeepsHeap(k, h);
      RoundLeavesNormal(k, h);
      if k == E || k == X {
        RoundLeavesAscending(k, h);
      }
      EmittedIsNormal(k, h);
      RunIsNormal(k, next);
      assert next != [] ==> next[0] in next;
      PrependIsNormal(k, Emitted(k, h), RunHeap(k, next));
    }
  }

  lemma {:induction false} PrependIsNormal(k: Kind, e: Elem, rest: Doc)
    requires Normal.Normal(e) && (k == E ==> !IsEmptyTuple(e)) && NormalKids(k, rest)
    requires (k == E || k == X) && rest != [] ==> Below(KeyOf(k, e), KeyOf(k, rest[0]))
    ensures NormalKids(k, [e] + rest)
  {
    var xs := [e] + rest;
    assert xs[1..] == rest;
    if k == E || k == X {
      AscendingTail(k, xs);
    }
  }

  lemma {:induction false} EmittedIsNormal(k: Kind, h: seq<Stream>)
    requires 0 < |h| <= 7 && IsHeap(LessBy(k), h) && AllNormal(k, h)
    ensures Normal.Normal(Emitted(k, h)) && (k == E ==> !IsEmptyTuple(Emitted(k, h)))
    ensures KeyOf(k, Emitted(k, h)) == KeyOf(k, h[0][0])
    decreases WeightAll(h), 2
  {
    var heads := HeadsOf(Minimal(k, h));
    RoundLeavesNormal(k, h);
    RoundWeighs(k, h);
    SomeMinimal(k, h);
    HeadsWeigh(Minimal(k, h));
    if |heads| == 1 {
      assert heads[0] in heads;
    } else {
      SpotOfIsNormal(heads);
      SpotOfKeepsKey(k, heads, KeyOf(k, h[0][0]));
    }
  }

  lemma {:induction false} SpotOfIsNormal(es: seq<Elem>)
    requires 0 < |es| <= 7 && forall e | e in es :: Normal.Normal(e)
    ensures Normal.Normal(SpotOf(es))
    decreases WeightOf(es), 0
  {
    var eqs := Winners(es);
    var x := SpotOfShell(es);
    WinnersComeFrom(es);
    WinnersWeigh(es);
    WinnersAgree(es);
    if eqs[0].Plex? {
      KidsWeigh(eqs);
      KidsOfMember(eqs, eqs[0]);
      forall s | s in KidsOf(eqs) ensures NormalKids(eqs[0].kind, s) {
        var y := KidsComeFrom(eqs, s);
      }
      EngineKeepsNormal(eqs[0].kind, KidsOf(eqs));
    }
  }

  /** The k-way merge of up to seven normal lists is normal, and drops no key order on the way. */
  lemma {:induction false} EngineKeepsNormal(k: Kind, inputs: seq<Doc>)
    requires |inputs| <= 7 && AllNormal(k, inputs)
    ensures NormalKids(k, HeapMerged(k, inputs))
    decreases WeightAll(inputs), 4
  {
    var h := Heapized(k, inputs);
    HeapizedHolds(k, inputs);
    HeapizedWeighs(k, inputs);
    forall s | s in h ensures NormalKids(k, s) {
      assert s in multiset(NonEmpty(inputs));
      NonEmptyComesFrom(inputs, s);
    }
    RunIsNormal(k, h);
  }

  // ---- the normalizer with the engine

  const HEAP: MergeFn := (k: Kind, ss: seq<Doc>) => HeapMerged(k, ss)

  const SEVEN: nat -> bool := AtMost(7)

  lemma HeapKeepsNormal(n: nat)
    requires n <= 7
    ensures KeepsNormal(HEAP, AtMost(n))
  {
    forall k, ss: seq<Doc> | AtMost(n)(|ss|) && (forall s | s in ss :: NormalKids(k, s)) ensures NormalKids(k, HEAP(k, ss)) {
      EngineKeepsNormal(k, ss);
    }
  }

  /** What the normalizer makes of a document. */
  function Normalized(d: Doc): Doc { NormKids(HEAP, P, d) }

  /** Up to seven runs in every container: the output is normal, and exactly the normal documents stay as they are. */
  lemma {:induction false} NormalizedIsNormal(d: Doc)
    requires Few(SEVEN, P, d)
    ensures NormalKids(P, Normalized(d)) && InPlace(P, Normalized(d))
    ensures Normalized(Normalized(d)) == Normalized(d)
    ensures Normalized(d) == d <==> NormalKids(P, d)
  {
    HeapKeepsNormal(7);
    KidsAreNormal(HEAP, SEVEN, P, d);
    NormalIsInPlace(P, Normalized(d));
    NormalStays(Normalized(d));
    if NormalKids(P, d) {
      NormalStays(d);
    }
  }

  /** A normal document stays as it is, whatever it holds. */
  lemma {:induction false} NormalStays(d: Doc)
    requires NormalKids(P, d)
    ensures Normalized(d) == d
  {
    PassKeepsNormal(HEAP, P, d);
  }
}
