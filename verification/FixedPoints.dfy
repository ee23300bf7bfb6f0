/** What the normalizer leaves as it is, is in normal form, however many runs it had to merge. */
module FixedPoints {
  import opened Seqs
  import opened Elements
  import opened Layouts
  import opened Heaps
  import opened Streams
  import opened Weights
  import opened Engine
  import opened Normal
  import opened EngineNormal
  import opened EngineKeys

  const LENGTH: Doc -> nat := (xs: Doc) => |xs|

  // ---- a merge that loses no element is in order

  /** A round that writes a lone head keeps a heap of any size. */
  lemma LoneRoundKeepsHeap(k: Kind, h: seq<Stream>)
    requires h != [] && IsHeap(LessBy(k), h) && |Minimal(k, h)| == 1
    ensures IsHeap(LessBy(k), NextHeap(k, h))
  {
    StreamsAreOrdered(k);
    EqUpSplits(LessBy(k), EqBy(k), h);
    assert forall c | 0 < c < |h| :: Fine(LessBy(k), h, c);
    NextKRepairs(k, h, 1, {});
    assert forall c | 0 < c < |NextK(k, h, 1)| :: Loose({}, c) || Fine(LessBy(k), NextK(k, h, 1), c);
  }

  lemma {:induction false} RoundShortens(k: Kind, h: seq<Stream>)
    requires h != []
    ensures |RunHeap(k, h)| == 1 + |RunHeap(k, NextHeap(k, h))|
    ensures Total(LENGTH, h) == |Minimal(k, h)| + Total(LENGTH, NextHeap(k, h)) && |Minimal(k, h)| > 0
  {
    RoundSpends(LENGTH, k, h);
    HeadsWeigh(Minimal(k, h));
  }

  lemma {:induction false} RunIsNoLonger(k: Kind, h: seq<Stream>)
    ensures |RunHeap(k, h)| <= Total(LENGTH, h)
    decreases WeightAll(h)
  {
    if h != [] {
      RoundWeighs(k, h);
      RoundShortens(k, h);
      RunIsNoLonger(k, NextHeap(k, h));
    }
  }

  /** With nothing lost, every round wrote a lone head, and no round broke the heap. */
  lemma {:induction false} FullRunAscends(k: Kind, h: seq<Stream>)
    requires IsHeap(LessBy(k), h) && (forall s | s in h :: Ascending(k, s)) && |RunHeap(k, h)| == Total(LENGTH, h)
    ensures Ascending(k, RunHeap(k, h))
    decreases WeightAll(h)
  {
    if h != [] {
      var next := NextHeap(k, h);
      RoundWeighs(k, h);
      RoundShortens(k, h);
      RunIsNoLonger(k, next);
      LoneRoundKeepsHeap(k, h);
      RoundLeavesAscending(k, h);
      FullRunAscends(k, next);
      var m := RunHeap(k, h);
      assert m[0] == Emitted(k, h) && m[1..] == RunHeap(k, next);
      EmittedKeepsKey(k, h);
      if next != [] {
        EmittedKeepsKey(k, next);
        assert next[0] in next;
      }
      AscendingTail(k, m);
    }
  }

  lemma {:induction false} FullMergeAscends(k: Kind, inputs: seq<Doc>)
    requires forall s | s in inputs :: Ascending(k, s)
    ensures |HeapMerged(k, inputs)| <= Total(LENGTH, inputs)
    ensures |HeapMerged(k, inputs)| == Total(LENGTH, inputs) ==> Ascending(k, HeapMerged(k, inputs))
  {
    var h := Heapized(k, inputs);
    HeapizedHolds(k, inputs);
    TotalPermutes(LENGTH, h, NonEmpty(inputs));
    NonEmptyWeighs(LENGTH, inputs);
    RunIsNoLonger(k, h);
    forall s | s in h ensures Ascending(k, s) {
      assert s in multiset(NonEmpty(inputs));
      NonEmptyComesFrom(inputs, s);
    }
    if |HeapMerged(k, inputs)| == Total(LENGTH, inputs) {
      FullRunAscends(k, h);
    }
  }

  // ---- fixed points

  function PassLength(p: Pass): nat { Total(LENGTH, p.chunks) + |p.last| }

  lemma PassLengthIsTotal(p: Pass)
    ensures PassLength(p) == Total(LENGTH, p.chunks + [p.last])
  {
    TotalGrows(LENGTH, p.chunks, p.last);
  }

  lemma PassLengthens(q: Pass, es: Doc)
    ensures PassLength(Pass(q.chunks + [q.last], es)) == PassLength(Pass(q.chunks, q.last + es)) == PassLength(q) + |es|
  {
    PassLengthIsTotal(q);
  }

  /** A pass makes up no elements. */
  lemma {:induction false} PassIsNoLonger(m: MergeFn, k: Kind, raw: Doc)
    ensures PassLength(Passed(m, k, raw)) <= |raw|
    decreases |raw|
  {
    if raw != [] {
      var n := |raw| - 1;
      var es := NormIn(m, k, raw[n]);
      PassIsNoLonger(m, k, raw[..n]);
      assert |es| <= 1;
      PassLengthens(Passed(m, k, raw[..n]), es);
    }
  }

  /** A pass that neither cuts nor drops has every element in its normal form. */
  lemma {:induction false} PassKeepsAll(m: MergeFn, k: Kind, raw: Doc)
    requires Passed(m, k, raw).chunks == [] && |Passed(m, k, raw).last| == |raw|
    ensures forall i | 0 <= i < |raw| :: [Passed(m, k, raw).last[i]] == NormIn(m, k, raw[i])
    decreases |raw|
  {
    if raw != [] {
      var n := |raw| - 1;
      SplitLast(raw);
      PassGrows(m, k, raw[..n], raw[n]);
      PassIsNoLonger(m, k, raw[..n]);
      PassKeepsAll(m, k, raw[..n]);
    }
  }

  lemma {:induction false} OrderIsOneRun(k: Kind, raw: Doc)
    requires Ascending(k, raw)
    ensures Runs(k, raw) == 1
    decreases |raw|
  {
    if raw != [] {
      var n := |raw| - 1;
      assert Ascending(k, raw[..n]);
      OrderIsOneRun(k, raw[..n]);
      if n > 0 {
        CompareIsKeyOrder(k, raw[n - 1], raw[n]);
      }
    }
  }

  /** A sorted container that comes out as it went in, was in order. */
  lemma {:induction false} FixedIsInOrder(k: Kind, raw: Doc)
    requires (k == E || k == X) && NormKids(HEAP, k, raw) == raw
    ensures Ascending(k, raw)
  {
    var p := Passed(HEAP, k, raw);
    PassAscends(HEAP, k, raw);
    PassIsNoLonger(HEAP, k, raw);
    PassLengthIsTotal(p);
    FullMergeAscends(k, p.chunks + [p.last]);
  }

  lemma {:induction false} FixedIsOneRun(k: Kind, raw: Doc)
    requires NormKids(HEAP, k, raw) == raw
    ensures Passed(HEAP, k, raw) == Pass([], raw)
  {
    if k == E || k == X {
      FixedIsInOrder(k, raw);
      OrderIsOneRun(k, raw);
      PassCutsRuns(HEAP, k, raw);
    } else {
      PassedPositional(HEAP, k, raw);
    }
  }

  lemma {:induction false} FixedMembers(k: Kind, raw: Doc)
    requires NormKids(HEAP, k, raw) == raw
    ensures forall x | x in raw :: NormElem(HEAP, x) == x && (k == E ==> !IsEmptyTuple(x))
  {
    FixedIsOneRun(k, raw);
    PassKeepsAll(HEAP, k, raw);
    forall x | x in raw ensures NormIn(HEAP, k, x) == [x] {
      var i :| 0 <= i < |raw| && raw[i] == x;
    }
  }

  lemma {:induction false} FixedElem(e: Elem)
    requires NormElem(HEAP, e) == e
    ensures Normal.Normal(e)
    decreases e, 0
  {
    if e.Plex? {
      FixedIsNormal(e.kind, e.kids);
    }
  }

  lemma {:induction false} FixedIsNormal(k: Kind, raw: Doc)
    requires NormKids(HEAP, k, raw) == raw
    ensures NormalKids(k, raw)
    decreases raw, 1
  {
    FixedMembers(k, raw);
    forall x | x in raw ensures Normal.Normal(x) { FixedElem(x); }
    if k == E || k == X {
      FixedIsInOrder(k, raw);
    }
  }

  /** The normalizer leaves exactly the normal lists as they are: no bound on the number of runs. */
  lemma {:induction false} FixedIff(k: Kind, raw: Doc)
    ensures NormKids(HEAP, k, raw) == raw <==> NormalKids(k, raw)
    ensures NormKids(HEAP, k, raw) == raw <==> InPlace(k, raw)
  {
    NormalIsInPlace(k, raw);
    if NormalKids(k, raw) {
      PassKeepsNormal(HEAP, k, raw);
    } else if NormKids(HEAP, k, raw) == raw {
      FixedIsNormal(k, raw);
    }
  }

  /** Normalizing again changes nothing exactly when the first time gave a normal document. */
  lemma {:induction false} SecondPassIff(d: Doc)
    ensures Normalized(Normalized(d)) == Normalized(d) <==> NormalKids(P, Normalized(d))
  {
    FixedIff(P, Normalized(d));
  }
}
