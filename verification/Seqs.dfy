/** Facts about sequences and multisets that the solver does not find by itself. */
module Seqs {
  lemma CancelOne<T>(m: multiset<T>, n: multiset<T>, x: T)
    requires m + multiset{x} == n + multiset{x}
    ensures m == n
  {
    assert m == (m + multiset{x}) - multiset{x};
    assert n == (n + multiset{x}) - multiset{x};
  }

  lemma CancelPrefix<T>(p: multiset<T>, m: multiset<T>, n: multiset<T>)
    requires p + m == p + n
    ensures m == n
  {
    assert m == (p + m) - p;
    assert n == (p + n) - p;
  }

  lemma SuffixPermutes<T>(r: seq<T>, g: seq<T>, i: nat)
    requires multiset(r) == multiset(g) && i <= |r| && i <= |g| && r[..i] == g[..i]
    ensures multiset(r[i..]) == multiset(g[i..])
  {
    assert r == r[..i] + r[i..] && g == g[..i] + g[i..];
    assert multiset(r) == multiset(r[..i]) + multiset(r[i..]);
    assert multiset(g) == multiset(g[..i]) + multiset(g[i..]);
    CancelPrefix(multiset(r[..i]), multiset(r[i..]), multiset(g[i..]));
  }

  lemma SplitLast<T>(f: seq<T>)
    requires f != []
    ensures f == f[..|f| - 1] + [f[|f| - 1]]
  {
  }

  lemma SplitAt<T>(g: seq<T>, e: nat)
    requires e <= |g|
    ensures g[..e] + g[e..] == g
  {
  }

  lemma TakeGrows<T>(h: seq<T>, i: nat)
    requires i < |h|
    ensures h[..i + 1] == h[..i] + [h[i]]
  {
  }

  lemma DropSplits<T>(h: seq<T>, i: nat)
    requires i < |h|
    ensures h[i..] == [h[i]] + h[i + 1..]
  {
  }

  lemma Associates<T>(a: seq<T>, b: seq<T>, c: seq<T>)
    ensures a + b + c == a + (b + c)
  {
  }

  lemma SliceGrows<T>(d: seq<T>, x: seq<T>, a: nat)
    requires a <= |d|
    ensures (d + x)[..a] == d[..a] && (d + x)[a..] == d[a..] + x
  {
  }

  lemma Regroups<T>(a: seq<T>, b: seq<T>, c: seq<T>, d: seq<T>)
    ensures a + b + c + d == a + (b + c + d)
  {
    Associates(a, b, c);
    Associates(a, b + c, d);
  }

  /** The parts of a sequence in three pieces. */
  lemma Pieces<T>(pre: seq<T>, head: seq<T>, body: seq<T>)
    requires head != []
    ensures var d := pre + head + body;
            && d[..|pre|] == pre && d[|pre|] == head[0] && d[..|pre| + 1] == pre + [head[0]]
            && d[|pre| + |head|..] == body
  {
  }

  lemma JoinedParts<T>(a: seq<T>, b: seq<T>)
    ensures (a + b)[..|a|] == a && (a + b)[|a|..] == b
  {
  }

  // ---- sums over a sequence

  function Sum<T>(f: T -> nat, xs: seq<T>): nat {
    if xs == [] then 0 else Sum(f, xs[..|xs| - 1]) + f(xs[|xs| - 1])
  }

  lemma {:induction false} SumGrows<T>(f: T -> nat, xs: seq<T>, x: T)
    ensures Sum(f, xs + [x]) == Sum(f, xs) + f(x)
  {
    assert (xs + [x])[..|xs|] == xs;
  }

  lemma {:induction false} SumConcat<T>(f: T -> nat, a: seq<T>, b: seq<T>)
    ensures Sum(f, a + b) == Sum(f, a) + Sum(f, b)
    decreases |b|
  {
    if b == [] {
      assert a + b == a;
    } else {
      var n := |b| - 1;
      SumConcat(f, a, b[..n]);
      assert (a + b)[..|a| + n] == a + b[..n];
    }
  }

  lemma {:induction false} SumPermutes<T>(f: T -> nat, a: seq<T>, b: seq<T>)
    requires multiset(a) == multiset(b)
    ensures Sum(f, a) == Sum(f, b)
    decreases |a|
  {
    assert |a| == |multiset(a)| == |multiset(b)| == |b|;
    if a != [] {
      var n := |a| - 1;
      SplitLast(a);
      assert a[n] in multiset(b);
      var i :| 0 <= i < |b| && b[i] == a[n];
      assert b == b[..i] + [b[i]] + b[i + 1..];
      CancelOne(multiset(a[..n]), multiset(b[..i] + b[i + 1..]), a[n]);
      SumPermutes(f, a[..n], b[..i] + b[i + 1..]);
      SumConcat(f, b[..i], b[i + 1..]);
      SumConcat(f, b[..i] + [b[i]], b[i + 1..]);
      SumGrows(f, b[..i], b[i]);
    }
  }
}
