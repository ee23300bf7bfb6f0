/** Merging copies of one input, any number of them, sorted or not: all heads stay in lockstep. */
module SelfMerge {
  import opened Elements
  import opened Merge
  import opened Seqs
  import opened Ids
  import opened Batch
  import opened Contest
  import opened Heaps
  import opened Selection
  import opened Streams
  import opened Engine

  function Copies<T>(x: T, n: nat): (r: seq<T>)
    ensures |r| == n && forall i | 0 <= i < n :: r[i] == x
  {
    if n == 0 then [] else Copies(x, n - 1) + [x]
  }

  lemma {:induction false} AllSame<T>(h: seq<T>, x: T)
    requires forall i | 0 <= i < |h| :: h[i] == x
    ensures h == Copies(x, |h|)
  {
  }

  /** All copies are gathered, and stay where they are. */
  lemma {:induction false} CopiesGather(k: Kind, s: Stream, n: nat)
    requires n > 0
    ensures EqUp(EqBy(k), Copies(s, n)) == (Copies(s, n), n)
  {
    var h := Copies(s, n);
    var (g, e) := EqUp(EqBy(k), h);
    StreamsAreOrdered(k);
    EqUpSplits(LessBy(k), EqBy(k), h);
    EqUpPermutes(EqBy(k), h);
    assert |g| == |multiset(g)| == |multiset(h)| == n;
    forall i | 0 <= i < |g| ensures g[i] == s {
      assert g[i] in multiset(h);
    }
    AllSame(g, s);
    NotBelowItself(k, s);
    WholeFront(LessBy(k), EqBy(k), g, e, n + e, s);
  }

  lemma WholeFront<T>(less: (T, T) -> bool, eq: (T, T) -> bool, g: seq<T>, e: nat, n: nat, x: T)
    requires Front(less, eq, g, e, n) && |g| <= n && !less(x, x) && forall i | 0 <= i < |g| :: g[i] == x
    ensures e == |g|
  {
    if e < |g| {
      BehindTheFront(less, eq, g, e, n);
      assert false;
    }
  }

  lemma BehindTheFront<T>(less: (T, T) -> bool, eq: (T, T) -> bool, g: seq<T>, e: nat, n: nat)
    requires Front(less, eq, g, e, n) && e < |g| <= n
    ensures less(g[0], g[e])
  {
  }

  lemma NotBelowItself(k: Kind, s: Stream)
    ensures !LessBy(k)(s, s)
  {
    StreamsAreOrdered(k);
  }

  /** The first i streams still stand on s, those behind them are one record further. */
  lemma {:induction false} CopiesAdvance(k: Kind, s: Stream, t: Stream, i: nat, n: nat, h: seq<Stream>)
    requires t == s[1..] && i <= n && h == Copies(s, i) + Copies(t, n - i)
    ensures NextK(k, h, i) == Copies(t, n)
    decreases i
  {
    if i == 0 {
      assert h == Copies(t, n);
    } else {
      var g := Copies(s, i - 1) + Copies(t, n - (i - 1));
      OneAdvances(k, s, t, i, n);
      NextKUnfolds(k, h, i - 1, g);
      CopiesAdvance(k, s, t, i - 1, n, g);
    }
  }

  lemma OneAdvances(k: Kind, s: Stream, t: Stream, i: nat, n: nat)
    requires t == s[1..] && 0 < i <= n
    ensures StepAt(k, Copies(s, i) + Copies(t, n - i), i - 1) == Copies(s, i - 1) + Copies(t, n - i + 1)
  {
    var h := Copies(s, i) + Copies(t, n - i);
    var g := h[i - 1 := t];
    NotBelowItself(k, t);
    assert Down(LessBy(k), g, i - 1) == g;
    assert g == Copies(s, i - 1) + Copies(t, n - i + 1);
  }

  lemma {:induction false} CopiesEnd(k: Kind, s: Stream, n: nat)
    requires |s| == 1
    ensures NextK(k, Copies(s, n), n) == []
  {
    if n > 0 {
      var h := Copies(s, n);
      assert Swap(h, n - 1, n - 1)[..n - 1] == Copies(s, n - 1);
      CopiesEnd(k, s, n - 1);
    }
  }

  /** Selecting among copies leaves them as they are, all winners. */
  lemma {:induction false} SelectCopies<T>(judge: (T, T) -> Ordering, x: T, n: nat, i: nat)
    requires judge(x, x) == Eq && 0 < i <= n
    ensures SelectFrom(judge, Copies(x, n), n, i, i) == Selected(Copies(x, n), n)
    decreases n - i
  {
    var h := Copies(x, n);
    if i < n {
      assert Swap(h, i, i) == h;
      SelectCopies(judge, x, n, i + 1);
    }
  }

  lemma JudgedAlike(e: Elem)
    ensures Judge(e, e) == Eq
  {
    ValueOrderIsKeyOrder(e, e);
    KeysAreTotallyOrdered(ValueKey(e), ValueKey(e));
  }

  lemma {:induction false} MixedCopies(s: Stream, n: nat)
    requires n > 0
    ensures Mixed(Copies(s, n), n) == Copies(s, n)
  {
    var h := Copies(s, n);
    JudgedAlike(s[0]);
    SelectCopies(JUDGE_HEADS, s, n, 1);
    assert h[..n] == h && h[n..] == [] && h + [] == h;
  }

  /** One round over n copies leaves n copies of the rest. */
  lemma {:induction false} CopiesStayInStep(k: Kind, s: Stream, n: nat)
    requires n > 0
    ensures |s| == 1 ==> NextHeap(k, Copies(s, n)) == []
    ensures |s| > 1 ==> var t: Stream := s[1..]; NextHeap(k, Copies(s, n)) == Copies(t, n)
    ensures Minimal(k, Copies(s, n)) == Copies(s, n)
  {
    CopiesGather(k, s, n);
    MixedCopies(s, n);
    assert Copies(s, n)[..n] == Copies(s, n);
    if |s| > 1 {
      var t: Stream := s[1..];
      assert Copies(s, n) + Copies(t, 0) == Copies(s, n);
      CopiesAdvance(k, s, t, n, n, Copies(s, n));
    } else {
      CopiesEnd(k, s, n);
    }
  }

  lemma {:induction false} HeadsOfCopies(s: Stream, n: nat)
    ensures HeadsOf(Copies(s, n)) == Copies(s[0], n)
  {
    if n > 0 {
      var c := Copies(s, n);
      assert c[..n - 1] == Copies(s, n - 1);
      HeadsOfCopies(s, n - 1);
    }
  }

  lemma CopiesSplit<T>(x: T, n: nat)
    requires n > 0
    ensures Copies(x, n)[..n - 1] == Copies(x, n - 1) && Copies(x, n)[n - 1] == x
  {
  }

  lemma {:induction false} MaxIDOfCopies(e: Elem, n: nat)
    requires n > 0
    ensures MaxIDs(Copies(e, n)) == e.id
  {
    CopiesSplit(e, n);
    if n > 1 {
      MaxIDOfCopies(e, n - 1);
    }
  }

  lemma {:induction false} LargestOfCopies(e: Elem, n: nat)
    requires n > 0 && e.First?
    ensures Largest(ValuesOf(Copies(e, n))) == e.val
  {
    CopiesSplit(e, n);
    if n > 1 {
      LargestOfCopies(e, n - 1);
      LargestGrows(ValuesOf(Copies(e, n - 1)), e.val);
    }
  }

  lemma {:induction false} KidsOfCopies(e: Elem, n: nat)
    requires e.Plex?
    ensures KidsOf(Copies(e, n)) == Copies(e.kids, n)
  {
    if n > 0 {
      CopiesSplit(e, n);
      KidsOfCopies(e, n - 1);
    }
  }

  /** A spot where all contenders are one element. */
  lemma {:induction false} SpotOfCopies(e: Elem, n: nat)
    requires n > 0
    ensures SpotOf(Copies(e, n)) == e
    decreases e, 0
  {
    var c := Copies(e, n);
    JudgedAlike(e);
    SelectCopies(JUDGE, e, n, 1);
    assert c[..n] == c && Winners(c) == c;
    MaxIDOfCopies(e, n);
    if e.First? {
      LargestOfCopies(e, n);
    } else {
      KidsOfCopies(e, n);
      SelfMerge(e.kind, e.kids, n);
    }
  }

  lemma {:induction false} HeapizedCopies(k: Kind, s: Stream, n: nat)
    ensures Heapized(k, Copies(s, n)) == Copies(s, n)
    decreases n
  {
    if n > 0 {
      HeapizedCopies(k, s, n - 1);
      HeapizedPushes(k, Copies(s, n - 1), s);
      NotBelowItself(k, s);
    }
  }

  lemma {:induction false} HeapizedNothing(k: Kind, n: nat)
    ensures Heapized(k, Copies([], n)) == []
    decreases n
  {
    if n > 0 {
      HeapizedNothing(k, n - 1);
      HeapizedSkips(k, Copies([], n - 1));
    }
  }

  lemma {:induction false} RunOfCopies(k: Kind, s: Stream, n: nat)
    requires n > 0
    ensures RunHeap(k, Copies(s, n)) == s
    decreases s, 1
  {
    CopiesStayInStep(k, s, n);
    HeadsOfCopies(s, n);
    SpotOfCopies(s[0], n);
    assert Emitted(k, Copies(s, n)) == s[0];
    assert s == [s[0]] + s[1..];
    if |s| > 1 {
      RunOfCopies(k, s[1..], n);
    }
  }

  /** Merging any number of copies of any list returns the list, at every level of nesting. */
  lemma {:induction false} SelfMerge(k: Kind, xs: Doc, n: nat)
    requires n > 0
    ensures HeapMerged(k, Copies(xs, n)) == xs
    decreases xs, 2
  {
    if xs == [] {
      HeapizedNothing(k, n);
    } else {
      var s: Stream := xs;
      assert Copies(xs, n) == Copies(s, n);
      HeapizedCopies(k, s, n);
      RunOfCopies(k, s, n);
    }
  }

  /** The two-way merges agree: folded over copies, they return the list. */
  lemma {:induction false} CopiesMerge(k: Kind, xs: Doc, n: nat)
    requires n > 0
    ensures FoldMerge(k, Copies(xs, n)) == xs
    decreases n
  {
    if n == 1 {
      assert Copies(xs, 1) == [] + [xs];
      FoldMergeGrows(k, [], xs);
    } else {
      CopiesMerge(k, xs, n - 1);
      FoldMergeGrows(k, Copies(xs, n - 1), xs);
      MergeListIdempotent(k, xs);
    }
  }
}
