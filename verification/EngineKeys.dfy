/** The merge of any number of inputs of any kind loses no key and makes none up. */
module EngineKeys {
  import opened Seqs
  import opened Elements
  import opened Batch
  import opened Contest
  import opened Heaps
  import opened Selection
  import opened Streams
  import opened Weights
  import opened Engine
  import opened EngineNormal

  /** What is gathered ties with the top, even in an array that is not a heap. */
  lemma {:induction false} GatheredTies<T(!new)>(eq: (T, T) -> bool, h: seq<T>, q: seq<nat>, eqs: nat)
    requires 0 < eqs <= |h| && (q != [] ==> eqs <= q[0]) && IsQueue(q)
    requires forall j | 0 < j < eqs :: eq(h[0], h[j])
    ensures var (g, e) := EqUpFrom(eq, h, q, eqs); g[0] == h[0] && forall j | 0 < j < e :: eq(g[0], g[j])
    decreases if q == [] || q[0] >= |h| then 0 else |h| - q[0]
  {
    if q != [] && q[0] < |h| {
      var n := q[0];
      assert forall i | 0 < i < |q[1..]| :: q[1..][i - 1] < q[1..][i];
      if eq(h[0], h[n]) {
        var q' := q[1..] + [2 * n + 1, 2 * n + 2];
        assert q' != [] && q'[0] > n && q'[|q'| - 1] <= 2 * q'[0];
        GatheredTies(eq, Swap(h, eqs, n), q', eqs + 1);
      } else {
        GatheredTies(eq, h, q[1..], eqs);
      }
    }
  }

  lemma MinimalShareKey(k: Kind, h: seq<Stream>)
    requires h != []
    ensures Minimal(k, h) != [] && Minimal(k, h)[0] == h[0]
    ensures forall s | s in Minimal(k, h) :: KeyOf(k, s[0]) == KeyOf(k, h[0][0])
  {
    StreamsAreOrdered(k);
    if |h| >= 2 {
      GatheredTies(EqBy(k), h, [1, 2], 1);
    }
  }

  ghost predicate HasKey(k: Kind, xs: Doc, key: Key) { exists x | x in xs :: KeyOf(k, x) == key }

  ghost predicate AnyHas(k: Kind, ss: seq<Doc>, key: Key) { exists s | s in ss :: HasKey(k, s, key) }

  lemma HasKeySplits(k: Kind, xs: Doc, key: Key)
    requires xs != []
    ensures HasKey(k, xs, key) <==> KeyOf(k, xs[0]) == key || HasKey(k, xs[1..], key)
  {
    assert xs == [xs[0]] + xs[1..];
  }

  lemma AnyHasPermutes(k: Kind, a: seq<Doc>, b: seq<Doc>, key: Key)
    requires multiset(a) == multiset(b)
    ensures AnyHas(k, a, key) <==> AnyHas(k, b, key)
  {
    forall s | s in a || s in b ensures s in a && s in b {
      assert s in multiset(a) || s in multiset(b);
    }
  }

  lemma AnyHasParts(k: Kind, a: seq<Doc>, b: seq<Doc>, key: Key)
    ensures AnyHas(k, a + b, key) <==> AnyHas(k, a, key) || AnyHas(k, b, key)
  {
  }

  /** Advancing streams that stand on one key takes that key at most. */
  lemma {:induction false} AdvancingKeepsKeys(k: Kind, f: seq<Stream>, low: Key, key: Key)
    requires f != [] && forall s | s in f :: KeyOf(k, s[0]) == low
    ensures AnyHas(k, f, key) <==> key == low || AnyHas(k, Live(f), key)
    decreases |f|
  {
    var n := |f| - 1;
    SplitLast(f);
    assert f[n] in f && forall s | s in f[..n] :: s in f;
    LiveGrows(f[..n], f[n]);
    HasKeySplits(k, f[n], key);
    AnyHasParts(k, f[..n], [f[n]], key);
    AnyHasParts(k, Live(f[..n]), if |f[n]| > 1 then [f[n][1..]] else [], key);
    if n > 0 {
      AdvancingKeepsKeys(k, f[..n], low, key);
    } else {
      assert f[..n] == [];
    }
  }

  lemma {:induction false} EmittedKeepsKey(k: Kind, h: seq<Stream>)
    requires h != []
    ensures KeyOf(k, Emitted(k, h)) == KeyOf(k, h[0][0])
  {
    var heads := HeadsOf(Minimal(k, h));
    MinimalShareKey(k, h);
    RoundWeighs(k, h);
    forall x | x in heads ensures KeyOf(k, x) == KeyOf(k, h[0][0]) {
      var j := HeadsComeFrom(Minimal(k, h), x);
    }
    assert heads[0] in heads;
    if |heads| > 1 {
      SpotOfKeepsKey(k, heads, KeyOf(k, h[0][0]));
    }
  }

  lemma {:induction false} RoundKeepsKeys(k: Kind, h: seq<Stream>, key: Key)
    requires h != []
    ensures AnyHas(k, h, key) <==> KeyOf(k, Emitted(k, h)) == key || AnyHas(k, NextHeap(k, h), key)
  {
    var (g, e) := EqUp(EqBy(k), h);
    EmittedKeepsKey(k, h);
    MinimalShareKey(k, h);
    EqUpPermutes(EqBy(k), h);
    AnyHasPermutes(k, h, g, key);
    SplitAt(g, e);
    AnyHasParts(k, g[..e], g[e..], key);
    AdvancingKeepsKeys(k, g[..e], KeyOf(k, h[0][0]), key);
    AnyHasParts(k, Live(g[..e]), g[e..], key);
    NextHeapKeepsStreams(k, h);
    AnyHasPermutes(k, NextHeap(k, h), Live(g[..e]) + g[e..], key);
  }

  lemma {:induction false} RunKeepsKeys(k: Kind, h: seq<Stream>, key: Key)
    ensures HasKey(k, RunHeap(k, h), key) <==> AnyHas(k, h, key)
    decreases WeightAll(h)
  {
    if h != [] {
      RoundWeighs(k, h);
      RunKeepsKeys(k, NextHeap(k, h), key);
      RoundKeepsKeys(k, h, key);
      var m := RunHeap(k, h);
      assert m[0] == Emitted(k, h) && m[1..] == RunHeap(k, NextHeap(k, h));
      HasKeySplits(k, m, key);
    }
  }

  /** A key is in the merge exactly when it is in some input: for any number of inputs, sorted or not, in any container. */
  lemma {:induction false} MergeKeepsKeys(k: Kind, inputs: seq<Doc>, key: Key)
    ensures HasKey(k, HeapMerged(k, inputs), key) <==> AnyHas(k, inputs, key)
  {
    var h := Heapized(k, inputs);
    HeapizedHolds(k, inputs);
    RunKeepsKeys(k, h, key);
    AnyHasPermutes(k, h, NonEmpty(inputs), key);
    if AnyHas(k, inputs, key) {
      var s :| s in inputs && HasKey(k, s, key);
      NonEmptyHas(inputs, s);
    }
    if AnyHas(k, NonEmpty(inputs), key) {
      var s :| s in NonEmpty(inputs) && HasKey(k, s, key);
      NonEmptyComesFrom(inputs, s);
    }
  }
}
