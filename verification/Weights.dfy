/** What a round of the merge takes from the streams; the number of elements, which every step makes less. */
module Weights {
  import opened Seqs
  import opened Elements
  import opened Contest
  import opened Heaps
  import opened Selection
  import opened Streams

  // ---- any measure that adds up

  ghost predicate Additive(m: Doc -> nat) { forall a, b :: m(a + b) == m(a) + m(b) }

  function Total(m: Doc -> nat, ss: seq<Doc>): nat { Sum<Doc>(m, ss) }

  lemma TotalGrows(m: Doc -> nat, ss: seq<Doc>, s: Doc)
    ensures Total(m, ss + [s]) == Total(m, ss) + m(s)
  {
    SumGrows<Doc>(m, ss, s);
  }

  lemma TotalOfParts(m: Doc -> nat, a: seq<Doc>, b: seq<Doc>)
    ensures Total(m, a + b) == Total(m, a) + Total(m, b)
  {
    SumConcat<Doc>(m, a, b);
  }

  lemma TotalPermutes(m: Doc -> nat, a: seq<Doc>, b: seq<Doc>)
    requires multiset(a) == multiset(b)
    ensures Total(m, a) == Total(m, b)
  {
    SumPermutes<Doc>(m, a, b);
  }

  lemma MeasureOfNothing(m: Doc -> nat)
    requires Additive(m)
    ensures m([]) == 0
  {
    var nothing: Doc := [];
    assert nothing + nothing == nothing;
    assert m(nothing + nothing) == m(nothing) + m(nothing);
  }

  lemma {:induction false} AdvancingSpends(m: Doc -> nat, f: seq<Stream>)
    requires Additive(m)
    ensures Total(m, Live(f)) + m(HeadsOf(f)) == Total(m, f)
    decreases |f|
  {
    if f == [] {
      MeasureOfNothing(m);
    } else {
      var n := |f| - 1;
      var s := f[n];
      SplitLast(f);
      AdvancingSpends(m, f[..n]);
      LiveGrows(f[..n], s);
      TotalGrows(m, f[..n], s);
      assert m(HeadsOf(f)) == m(HeadsOf(f[..n])) + m([s[0]]);
      MeasureOfNothing(m);
      assert s == [s[0]] + s[1..];
      if |s| > 1 {
        TotalGrows(m, Live(f[..n]), s[1..]);
      } else {
        assert Live(f) == Live(f[..n]);
      }
    }
  }

  /** A round takes the heads it merges, and nothing else. */
  lemma RoundSpends(m: Doc -> nat, k: Kind, h: seq<Stream>)
    requires Additive(m) && h != []
    ensures Total(m, NextHeap(k, h)) + m(HeadsOf(Minimal(k, h))) == Total(m, h)
  {
    var (g, e) := EqUp(EqBy(k), h);
    EqUpPermutes(EqBy(k), h);
    TotalPermutes(m, g, h);
    NextHeapKeepsStreams(k, h);
    TotalPermutes(m, NextHeap(k, h), Live(g[..e]) + g[e..]);
    TotalOfParts(m, Live(g[..e]), g[e..]);
    SplitAt(g, e);
    TotalOfParts(m, g[..e], g[e..]);
    AdvancingSpends(m, g[..e]);
  }

  // ---- the number of elements

  function Weight(e: Elem): nat
    decreases e
  {
    if e.Plex? then 1 + WeightOf(e.kids) else 1
  }

  function WeightOf(xs: Doc): nat
    decreases xs
  {
    if xs == [] then 0 else WeightOf(xs[..|xs| - 1]) + Weight(xs[|xs| - 1])
  }

  function WeightAll(ss: seq<Doc>): nat { Total(WeightOf, ss) }

  lemma {:induction false} WeightOfIsSum(xs: Doc)
    ensures WeightOf(xs) == Sum(Weight, xs)
    decreases |xs|
  {
    if xs != [] {
      WeightOfIsSum(xs[..|xs| - 1]);
    }
  }

  lemma {:induction false} WeightOfConcat(a: Doc, b: Doc)
    ensures WeightOf(a + b) == WeightOf(a) + WeightOf(b)
  {
    WeightOfIsSum(a);
    WeightOfIsSum(b);
    WeightOfIsSum(a + b);
    SumConcat(Weight, a, b);
  }

  lemma {:induction false} WeightOfPermutes(a: Doc, b: Doc)
    requires multiset(a) == multiset(b)
    ensures WeightOf(a) == WeightOf(b)
  {
    WeightOfIsSum(a);
    WeightOfIsSum(b);
    SumPermutes(Weight, a, b);
  }

  lemma {:induction false} HeadAndTail(s: Doc)
    requires s != []
    ensures WeightOf(s) == Weight(s[0]) + WeightOf(s[1..]) && Weight(s[0]) > 0
  {
    assert s == [s[0]] + s[1..];
    WeightOfConcat([s[0]], s[1..]);
    assert [s[0]][..0] == [];
  }

  lemma WeightIsAdditive()
    ensures Additive(WeightOf)
  {
    forall a: Doc, b: Doc ensures WeightOf(a + b) == WeightOf(a) + WeightOf(b) {
      WeightOfConcat(a, b);
    }
  }

  /** The winners are among the contenders. */
  lemma {:induction false} WinnersWeigh(es: seq<Elem>)
    requires es != []
    ensures WeightOf(Winners(es)) <= WeightOf(es) && |Winners(es)| <= |es|
  {
    var r := Select(JUDGE, es);
    SelectPermutes(JUDGE, es, |es|, 1, 1);
    WeightOfPermutes(r.heap, es);
    SplitAt(r.heap, r.eq);
    WeightOfConcat(r.heap[..r.eq], r.heap[r.eq..]);
  }

  /** The contents of containers are less than the containers. */
  lemma {:induction false} KidsWeigh(es: seq<Elem>)
    requires forall e | e in es :: e.Plex?
    ensures WeightAll(KidsOf(es)) + |es| == WeightOf(es)
    decreases |es|
  {
    if es != [] {
      var n := |es| - 1;
      assert es[n] in es && forall e | e in es[..n] :: e in es;
      KidsWeigh(es[..n]);
      TotalGrows(WeightOf, KidsOf(es[..n]), es[n].kids);
    }
  }

  lemma {:induction false} HeadsWeigh(f: seq<Stream>)
    ensures WeightOf(HeadsOf(f)) >= |HeadsOf(f)| == |f|
    decreases |f|
  {
    if f != [] {
      var n := |f| - 1;
      HeadsWeigh(f[..n]);
      WeightOfConcat(HeadsOf(f[..n]), [f[n][0]]);
      HeadAndTail([f[n][0]]);
    }
  }

  /** A round makes the streams lighter by the heads it merges, and there are some. */
  lemma RoundWeighs(k: Kind, h: seq<Stream>)
    requires h != []
    ensures HeadsOf(Minimal(k, h)) != [] && WeightOf(HeadsOf(Minimal(k, h))) <= WeightAll(h)
    ensures WeightAll(NextHeap(k, h)) < WeightAll(h)
  {
    WeightIsAdditive();
    RoundSpends(WeightOf, k, h);
    SomeMinimal(k, h);
    HeadsWeigh(Minimal(k, h));
  }

  lemma SomeMinimal(k: Kind, h: seq<Stream>)
    requires h != []
    ensures 0 < |Minimal(k, h)| <= |h|
  {
  }

  lemma {:induction false} NonEmptyWeighs(m: Doc -> nat, ss: seq<Doc>)
    requires m([]) == 0
    ensures Total(m, NonEmpty(ss)) == Total(m, ss)
    decreases |ss|
  {
    if ss != [] {
      var n := |ss| - 1;
      NonEmptyWeighs(m, ss[..n]);
      SplitLast(ss);
      TotalGrows(m, ss[..n], ss[n]);
      if ss[n] != [] {
        TotalGrows(m, NonEmpty(ss[..n]), ss[n]);
      } else {
        assert NonEmpty(ss) == NonEmpty(ss[..n]);
      }
    }
  }
}
