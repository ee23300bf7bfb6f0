/** Whole runs of the second heap: reading until all inputs are exhausted. */
module Heap2Run {
  import opened Seqs
  import opened Elements
  import opened Heaps
  import opened Heap2
  import opened Weights
  import Streams

  /** One read: the least key, and the streams handed to the merge function. */
  datatype Round = Round(key: Elem, holders: seq<Doc>)

  function Written(y: (seq<Doc>, Doc) -> Doc, log: seq<Round>, out: Doc): Doc {
    if log == [] then out else y(log[|log| - 1].holders, Written(y, log[..|log| - 1], out))
  }

  /** Keys ascend, and each round's holders all stand at its key. */
  ghost predicate InOrder(lt: (Elem, Elem) -> bool, log: seq<Round>) {
    && (forall r, q | 0 <= r < q < |log| :: lt(log[r].key, log[q].key))
    && forall r | 0 <= r < |log| :: AtKey(lt, log[r])
  }

  ghost predicate AtKey(lt: (Elem, Elem) -> bool, r: Round) {
    r.holders != [] && forall s | s in r.holders :: s != [] && !lt(s[0], r.key) && !lt(r.key, s[0])
  }

  /** At some round the stream was handed over with record i in front. */
  ghost predicate Served(log: seq<Round>, s: Doc, i: nat)
    requires i < |s|
  {
    exists r | 0 <= r < |log| :: s[i..] in log[r].holders
  }

  /** All of s up to some record was handed over, and the rest is still in the heap. */
  ghost predicate Kept(log: seq<Round>, h: seq<Doc>, s: Doc) {
    exists c: nat | c <= |s| :: ServedTo(log, s, c) && (c == |s| || s[c..] in h)
  }

  ghost predicate ServedTo(log: seq<Round>, s: Doc, c: nat)
    requires c <= |s|
  {
    forall i | 0 <= i < c :: Served(log, s, i)
  }

  // ---- what is left gets less

  const LENGTH: Doc -> nat := (s: Doc) => |s|

  function Left(h: seq<Doc>): nat { Total(LENGTH, h) }

  lemma {:induction false} NonEmptyCounts(h: seq<Doc>, s: Doc)
    ensures multiset(Streams.NonEmpty(h))[s] == if s == [] then 0 else multiset(h)[s]
    decreases |h|
  {
    if h != [] {
      NonEmptyCounts(h[..|h| - 1], s);
      SplitLast(h);
      Streams.NonEmptyGrows(h[..|h| - 1], h[|h| - 1]);
    }
  }

  lemma {:induction false} TotalPointwise(a: seq<Doc>, b: seq<Doc>)
    requires |a| == |b| && forall i | 0 <= i < |a| :: |a[i]| <= |b[i]|
    ensures Left(a) <= Left(b)
    ensures (exists i :: 0 <= i < |a| && |a[i]| < |b[i]|) ==> Left(a) < Left(b)
    decreases |a|
  {
    if a != [] {
      var n := |a| - 1;
      TotalPointwise(a[..n], b[..n]);
      SplitLast(a);
      SplitLast(b);
      TotalGrows(LENGTH, a[..n], a[n]);
      TotalGrows(LENGTH, b[..n], b[n]);
      if i :| 0 <= i < n && |a[i]| < |b[i]| {
        assert |a[..n][i]| < |b[..n][i]|;
      }
    }
  }

  lemma ReadShrinks(lt: (Elem, Elem) -> bool, h: seq<Doc>, ps: seq<nat>, h': seq<Doc>)
    requires Orders(lt) && Live(h) && IsMinimal(lt, h, ps) && Live(h') && SameStreams(h', Advanced(h, ps))
    ensures Left(h') < Left(h)
  {
    var adv := Advanced(h, ps);
    forall s ensures multiset(h')[s] == multiset(Streams.NonEmpty(adv))[s] {
      NonEmptyCounts(adv, s);
      if s == [] {
        assert s !in h';
      }
    }
    assert multiset(h') == multiset(Streams.NonEmpty(adv));
    TotalPermutes(LENGTH, h', Streams.NonEmpty(adv));
    NonEmptyWeighs(LENGTH, adv);
    assert 0 in ps;
    assert |adv[0]| < |h[0]|;
    TotalPointwise(adv, h);
  }

  // ---- one round of the log

  lemma RoundServes(lt: (Elem, Elem) -> bool, h: seq<Doc>, ps: seq<nat>, h': seq<Doc>, log: seq<Round>, s: Doc)
    requires Live(h) && IsMinimal(lt, h, ps) && SameStreams(h', Advanced(h, ps)) && Kept(log, h, s)
    ensures Kept(log + [Round(h[0][0], Pick(h, ps))], h', s)
  {
    var next := log + [Round(h[0][0], Pick(h, ps))];
    var c: nat :| c <= |s| && ServedTo(log, s, c) && (c == |s| || s[c..] in h);
    forall i | 0 <= i < c ensures Served(next, s, i) {
      assert Served(log, s, i);
      var r :| 0 <= r < |log| && s[i..] in log[r].holders;
      assert next[r] == log[r];
    }
    if c < |s| {
      var p :| 0 <= p < |h| && h[p] == s[c..];
      var adv := Advanced(h, ps);
      if p in ps {
        var j :| 0 <= j < |ps| && ps[j] == p;
        assert Pick(h, ps)[j] == s[c..];
        assert next[|log|].holders == Pick(h, ps);
        assert Served(next, s, c);
        assert adv[p] == s[c + 1..];
        StillThere(adv, h', p);
        assert ServedTo(next, s, c + 1);
      } else {
        assert adv[p] == s[c..];
        StillThere(adv, h', p);
        assert ServedTo(next, s, c);
      }
    } else {
      assert ServedTo(next, s, c);
    }
  }

  lemma StillThere(adv: seq<Doc>, h': seq<Doc>, p: nat)
    requires SameStreams(h', adv) && p < |adv|
    ensures adv[p] == [] || adv[p] in h'
  {
    if adv[p] != [] {
      assert multiset(adv)[adv[p]] > 0;
      assert adv[p] in multiset(h');
    }
  }

  lemma RoundInOrder(lt: (Elem, Elem) -> bool, h: seq<Doc>, ps: seq<nat>, log: seq<Round>)
    requires Orders(lt) && Live(h) && IsHeap(Lift(lt), h) && IsMinimal(lt, h, ps) && InOrder(lt, log)
    requires forall r | 0 <= r < |log| :: lt(log[r].key, h[0][0])
    ensures InOrder(lt, log + [Round(h[0][0], Pick(h, ps))])
  {
    LiftOrders(lt);
    var holders := Pick(h, ps);
    assert 0 in ps;
    var z: nat :| z < |ps| && ps[z] == 0;
    assert holders[z] == h[0];
    forall s | s in holders ensures s != [] && !lt(s[0], h[0][0]) && !lt(h[0][0], s[0]) {
      var i :| 0 <= i < |ps| && holders[i] == s;
      assert ps[i] in ps;
      MinOfHeap(Lift(lt), h, ps[i]);
    }
  }

  /** Reads to the end: keys come out once, in order, each with every stream that stands at it. */
  method ReadToEnd(heap: Heap2) returns (ghost log: seq<Round>)
    requires heap.Valid() && forall s | s in heap.inputs :: Ascends(heap.z, s)
    modifies heap
    ensures heap.inputs == [] && heap.out == Written(heap.y, log, old(heap.out))
    ensures InOrder(heap.z, log)
    ensures forall s | s in old(heap.inputs) :: ServedTo(log, s, |s|)
  {
    log := [];
    ghost var all, lt := heap.inputs, heap.z;
    forall s | s in all ensures Kept(log, all, s) {
      assert ServedTo(log, s, 0) && s[0..] == s;
    }
    while |heap.inputs| > 0
      invariant heap.Valid() && forall s | s in heap.inputs :: Ascends(lt, s)
      invariant heap.out == Written(heap.y, log, old(heap.out)) && InOrder(lt, log)
      invariant forall r | 0 <= r < |log| :: forall s | s in heap.inputs :: lt(log[r].key, s[0])
      invariant forall s | s in all :: Kept(log, heap.inputs, s)
      decreases Left(heap.inputs)
    {
      ghost var h, before, out := heap.inputs, log, heap.out;
      var ok := heap.Read();
      ghost var ps: seq<nat> :| IsMinimal(lt, h, ps) && heap.out == heap.y(Pick(h, ps), out)
                                && SameStreams(heap.inputs, Advanced(h, ps));
      log := log + [Round(h[0][0], Pick(h, ps))];
      assert log[..|before|] == before;
      assert h[0] in h;
      RoundInOrder(lt, h, ps, before);
      ReadsAscend(lt, h, ps, heap.inputs);
      ReadShrinks(lt, h, ps, heap.inputs);
      forall s | s in all ensures Kept(log, heap.inputs, s) {
        RoundServes(lt, h, ps, heap.inputs, before, s);
      }
      KeysBelow(lt, h[0][0], before, h, heap.inputs);
    }
  }

  lemma KeysBelow(lt: (Elem, Elem) -> bool, key: Elem, log: seq<Round>, h: seq<Doc>, h': seq<Doc>)
    requires Orders(lt) && Live(h) && Live(h') && h != [] && key == h[0][0]
    requires forall r | 0 <= r < |log| :: forall s | s in h :: lt(log[r].key, s[0])
    requires forall s | s in h' :: s != [] && lt(key, s[0])
    ensures forall r | 0 <= r < |log| :: forall s | s in h' :: lt(log[r].key, s[0])
  {
    forall r, s | 0 <= r < |log| && s in h' ensures lt(log[r].key, s[0]) {
      assert h[0] in h;
      OrderChains(lt, log[r].key, key, s[0]);
    }
  }

  lemma OrderChains(lt: (Elem, Elem) -> bool, a: Elem, b: Elem, c: Elem)
    requires Orders(lt) && lt(a, b) && lt(b, c)
    ensures lt(a, c)
  {
  }

  /** A heap over positioned inputs. */
  method MakeHeap2(inputs: seq<Doc>, y: (seq<Doc>, Doc) -> Doc, z: (Elem, Elem) -> bool) returns (heap: Heap2)
    requires Orders(z) && forall s | s in inputs :: s != []
    ensures fresh(heap) && heap.Valid() && heap.y == y && heap.z == z && heap.out == []
    ensures multiset(heap.inputs) == multiset(inputs)
  {
    heap := new Heap2(y, z);
    var i := 0;
    assert inputs[..0] == [];
    while i < |inputs|
      invariant 0 <= i <= |inputs| && fresh(heap) && heap.Valid() && heap.y == y && heap.z == z && heap.out == []
      invariant multiset(heap.inputs) == multiset(inputs[..i])
    {
      TakeGrows(inputs, i);
      assert inputs[i] in inputs;
      heap.AddIter(inputs[i]);
      i := i + 1;
    }
    assert inputs[..i] == inputs;
  }
}
