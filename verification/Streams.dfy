/** The heap of record streams as itheap.go steps it, as functions on sequences. */
module Streams {
  import opened Seqs
  import opened Ids
  import opened Elements
  import opened Merge
  import opened Layouts
  import opened Worlds
  import opened Batch
  import opened Contest
  import opened Heaps
  import opened Selection

  /** A stream positioned on its first record; what has been read is gone. */
  type Stream = s: Doc | s != [] witness [First(ID0, Integer(0))]

  function LessBy(k: Kind): (Stream, Stream) -> bool {
    (a: Stream, b: Stream) => Compare(k, a[0], b[0]) == Less
  }

  function EqBy(k: Kind): (Stream, Stream) -> bool {
    (a: Stream, b: Stream) => Compare(k, a[0], b[0]) == Eq
  }

  lemma StreamsAreOrdered(k: Kind)
    ensures Orders(LessBy(k)) && Ties(LessBy(k), EqBy(k))
    ensures forall a, b :: LessBy(k)(a, b) <==> Below(KeyOf(k, a[0]), KeyOf(k, b[0]))
    ensures forall a, b :: EqBy(k)(a, b) <==> KeyOf(k, a[0]) == KeyOf(k, b[0])
  {
    forall a: Stream, b: Stream
      ensures Compare(k, a[0], b[0]) == CompareKey(KeyOf(k, a[0]), KeyOf(k, b[0]))
      ensures Compare(k, b[0], a[0]) == Compare(k, a[0], b[0]).Flip()
      ensures Compare(k, a[0], b[0]) == Eq <==> KeyOf(k, a[0]) == KeyOf(k, b[0])
    {
      CompareIsKeyOrder(k, a[0], b[0]);
      CompareIsKeyOrder(k, b[0], a[0]);
      KeysAreTotallyOrdered(KeyOf(k, a[0]), KeyOf(k, b[0]));
    }
    forall a: Stream, b: Stream, c: Stream | LessBy(k)(a, c)
      ensures LessBy(k)(a, b) || LessBy(k)(b, c)
    {
      if !LessBy(k)(a, b) && !EqBy(k)(a, b) {
        KeysTransitive(KeyOf(k, b[0]), KeyOf(k, a[0]), KeyOf(k, c[0]));
      }
    }
  }

  /** Drops the exhausted stream at i: the last one takes its place and sifts down. */
  function Remove(k: Kind, h: seq<Stream>, i: nat): (r: seq<Stream>)
    requires i < |h|
    ensures |r| == |h| - 1
  {
    var g := Swap(h, |h| - 1, i)[..|h| - 1];
    if i < |g| then Down(LessBy(k), g, i) else g
  }

  /** Advances the stream at i. */
  function StepAt(k: Kind, h: seq<Stream>, i: nat): (r: seq<Stream>)
    requires i < |h|
    ensures |h| - 1 <= |r| <= |h|
  {
    if |h[i]| > 1 then Down(LessBy(k), h[i := h[i][1..]], i) else Remove(k, h, i)
  }

  /** Advances the first n streams, the last of them first. */
  function NextK(k: Kind, h: seq<Stream>, n: nat): (r: seq<Stream>)
    requires n <= |h|
    ensures |r| <= |h|
    decreases n
  {
    if n == 0 then h else NextK(k, StepAt(k, h, n - 1), n - 1)
  }

  /** The selection loop at one spot compares heads and moves whole streams. */
  const JUDGE_HEADS: (Stream, Stream) -> Ordering := (a: Stream, b: Stream) => Judge(a[0], b[0])

  /** What the selection loop does to the first e streams. */
  function Mixed(g: seq<Stream>, e: nat): (r: seq<Stream>)
    requires 0 < e <= |g|
    ensures |r| == |g|
  {
    if e == 1 then g else Select(JUDGE_HEADS, g[..e]).heap + g[e..]
  }

  /** One round of the merge: gather the equal heads, select among them, advance them, sift up from there on. */
  function NextHeap(k: Kind, h: seq<Stream>): (r: seq<Stream>)
    requires h != []
    ensures |r| <= |h|
  {
    var (g, e) := EqUp(EqBy(k), h);
    var n := NextK(k, Mixed(g, e), e);
    if e > 1 then UpAll(LessBy(k), n, e) else n
  }

  // ---- what the streams hold after a round

  function HeadsOf(h: seq<Stream>): seq<Elem> {
    if h == [] then [] else HeadsOf(h[..|h| - 1]) + [h[|h| - 1][0]]
  }

  /** The streams advanced by one, without the exhausted ones. */
  function Live(h: seq<Stream>): seq<Stream> {
    if h == [] then []
    else
      var s := h[|h| - 1];
      Live(h[..|h| - 1]) + (if |s| > 1 then [s[1..]] else [])
  }

  lemma StepKeepsStreams(k: Kind, h: seq<Stream>, i: nat)
    requires i < |h|
    ensures multiset(StepAt(k, h, i)[i..])
         == (if |h[i]| > 1 then multiset{h[i][1..]} else multiset{}) + multiset(h[i + 1..])
    ensures StepAt(k, h, i)[..i] == h[..i]
  {
    var r := StepAt(k, h, i);
    if |h[i]| > 1 {
      var g := h[i := h[i][1..]];
      DownPermutes(LessBy(k), g, i);
      assert r[..i] == g[..i] == h[..i];
      assert g[i..] == [h[i][1..]] + h[i + 1..];
      SuffixPermutes(r, g, i);
    } else {
      LastMoved(h, i);
      var g := Swap(h, |h| - 1, i)[..|h| - 1];
      DownPermutes(LessBy(k), g, i);
      assert r[..i] == g[..i];
      SuffixPermutes(r, g, i);
    }
  }

  /** The streams at and after position |f|, after the one there was advanced. */
  lemma StepSplits(k: Kind, f: seq<Stream>, s: Stream, rest: seq<Stream>) returns (r: seq<Stream>)
    ensures StepAt(k, f + [s] + rest, |f|) == f + r
    ensures multiset(r) == (if |s| > 1 then multiset{s[1..]} else multiset{}) + multiset(rest)
  {
    var h := f + [s] + rest;
    StepKeepsStreams(k, h, |f|);
    var g := StepAt(k, h, |f|);
    r := g[|f|..];
    assert h[..|f|] == f && h[|f| + 1..] == rest && h[|f|] == s;
    assert g == g[..|f|] + r;
  }

  lemma NextKUnfolds(k: Kind, h: seq<Stream>, n: nat, g: seq<Stream>)
    requires n < |h| && StepAt(k, h, n) == g
    ensures n <= |g| && NextK(k, h, n + 1) == NextK(k, g, n)
  {
  }

  lemma {:induction false} NextKKeepsStreams(k: Kind, f: seq<Stream>, rest: seq<Stream>)
    ensures multiset(NextK(k, f + rest, |f|)) == multiset(Live(f)) + multiset(rest)
    decreases |f|
  {
    if f == [] {
      assert f + rest == rest;
    } else {
      var n := |f| - 1;
      SplitLast(f);
      var r := StepSplits(k, f[..n], f[n], rest);
      NextKKeepsStreams(k, f[..n], r);
      NextKUnfolds(k, f + rest, n, f[..n] + r);
      AddLive(multiset(NextK(k, f + rest, |f|)), f[..n], f[n], multiset(r), multiset(rest));
    }
  }

  lemma {:induction false} AddLive(all: multiset<Stream>, f: seq<Stream>, s: Stream, tail: multiset<Stream>, rest: multiset<Stream>)
    requires all == multiset(Live(f)) + tail
    requires tail == (if |s| > 1 then multiset{s[1..]} else multiset{}) + rest
    ensures all == multiset(Live(f + [s])) + rest
  {
    LiveGrows(f, s);
    assert Live(f) + [] == Live(f);
  }

  lemma {:induction false} LiveGrows(h: seq<Stream>, s: Stream)
    ensures Live(h + [s]) == Live(h) + (if |s| > 1 then [s[1..]] else [])
    ensures HeadsOf(h + [s]) == HeadsOf(h) + [s[0]]
  {
    assert (h + [s])[..|h + [s]| - 1] == h;
  }

  function NonEmpty(ss: seq<Doc>): seq<Stream> {
    if ss == [] then []
    else NonEmpty(ss[..|ss| - 1]) + (if ss[|ss| - 1] != [] then [ss[|ss| - 1]] else [])
  }

  /** Exhausted inputs do not change a merge. */
  lemma {:induction false} NonEmptyMerge(k: Kind, ss: seq<Doc>)
    ensures FoldMerge(k, NonEmpty(ss)) == FoldMerge(k, ss)
    decreases |ss|
  {
    if ss != [] {
      var n := |ss| - 1;
      assert ss == ss[..n] + [ss[n]];
      NonEmptyMerge(k, ss[..n]);
      FoldMergeGrows(k, ss[..n], ss[n]);
      FoldMergeGrows(k, NonEmpty(ss[..n]), ss[n]);
      assert MergeList(k, FoldMerge(k, ss[..n]), []) == FoldMerge(k, ss[..n]);
      assert NonEmpty(ss[..n]) + [] == NonEmpty(ss[..n]);
    }
  }

  /** A heap whose first e streams carry the least key. */
  ghost predicate Gathered(k: Kind, low: Key, g: seq<Stream>, e: nat) {
    && e <= |g|
    && (forall j | 0 <= j < e :: KeyOf(k, g[j][0]) == low)
    && (forall j | e <= j < |g| :: Below(low, KeyOf(k, g[j][0])))
  }

  lemma {:induction false} GatheringGrows(k: Kind, low: Key, f: seq<Stream>, s: Stream)
    ensures KeyOf(k, s[0]) == low ==>
      && Heads(k, low, f + [s]) == Heads(k, low, f) + [s[0]]
      && NonEmpty(Advance(k, low, f + [s])) == NonEmpty(Advance(k, low, f)) + (if |s| > 1 then [s[1..]] else [])
    ensures KeyOf(k, s[0]) != low ==>
      && Heads(k, low, f + [s]) == Heads(k, low, f)
      && NonEmpty(Advance(k, low, f + [s])) == NonEmpty(Advance(k, low, f)) + [s]
  {
    assert (f + [s])[..|f + [s]| - 1] == f;
    NonEmptyGrows(Advance(k, low, f), if KeyOf(k, s[0]) == low then s[1..] else s);
  }

  lemma {:induction false} AllGathered(k: Kind, low: Key, f: seq<Stream>)
    requires forall s | s in f :: KeyOf(k, s[0]) == low
    ensures Heads(k, low, f) == HeadsOf(f)
    ensures NonEmpty(Advance(k, low, f)) == Live(f)
    decreases |f|
  {
    if f != [] {
      var n := |f| - 1;
      assert f == f[..n] + [f[n]];
      AllGathered(k, low, f[..n]);
      GatheringGrows(k, low, f[..n], f[n]);
      LiveGrows(f[..n], f[n]);
    }
  }

  lemma {:induction false} NoneGathered(k: Kind, low: Key, f: seq<Stream>, rest: seq<Stream>)
    requires forall s | s in rest :: KeyOf(k, s[0]) != low
    ensures Heads(k, low, f + rest) == Heads(k, low, f)
    ensures NonEmpty(Advance(k, low, f + rest)) == NonEmpty(Advance(k, low, f)) + rest
    decreases |rest|
  {
    if rest == [] {
      assert f + rest == f;
    } else {
      var n := |rest| - 1;
      assert rest == rest[..n] + [rest[n]];
      assert f + rest == (f + rest[..n]) + [rest[n]];
      NoneGathered(k, low, f, rest[..n]);
      GatheringGrows(k, low, f + rest[..n], rest[n]);
    }
  }

  lemma {:induction false} GatheredHeads(k: Kind, low: Key, g: seq<Stream>, e: nat)
    requires Gathered(k, low, g, e)
    ensures Heads(k, low, g) == HeadsOf(g[..e])
    ensures NonEmpty(Advance(k, low, g)) == Live(g[..e]) + g[e..]
  {
    assert g == g[..e] + g[e..];
    KeysAreTotallyOrdered(low, low);
    AllGathered(k, low, g[..e]);
    NoneGathered(k, low, g[..e], g[e..]);
  }

  lemma {:induction false} NonEmptyGrows(ss: seq<Doc>, s: Doc)
    ensures NonEmpty(ss + [s]) == NonEmpty(ss) + (if s != [] then [s] else [])
  {
    assert (ss + [s])[..|ss + [s]| - 1] == ss;
  }

  // ---- the heap after a round

  function FirstN(n: nat): (r: set<nat>)
    ensures forall m: nat :: m in r <==> m < n
  {
    if n == 0 then {} else FirstN(n - 1) + {n - 1}
  }

  /** Nodes that hang from the top: wherever the repair is, it meets them first. */
  predicate Shallow(bad: set<nat>) { forall b | b in bad :: b > 0 && Parent(b) == 0 }

  lemma StepRepairs(k: Kind, h: seq<Stream>, i: nat, bad: set<nat>)
    requires i < |h| && HeapBut(LessBy(k), h, FirstN(i + 1) + bad) && Shallow(bad)
    ensures HeapBut(LessBy(k), StepAt(k, h, i), FirstN(i) + bad)
  {
    StreamsAreOrdered(k);
    var less, rest := LessBy(k), FirstN(i) + bad;
    var g := if |h[i]| > 1 then h[i := h[i][1..]] else Swap(h, |h| - 1, i)[..|h| - 1];
    forall c | 0 < c < |g| ensures Loose(rest + {i}, c) || Fine(less, g, c) {
      assert Loose(FirstN(i + 1) + bad, c) || Fine(less, h, c);
    }
    if i < |g| {
      DownRepairs(less, g, i, rest);
    }
  }

  lemma {:induction false} NextKRepairs(k: Kind, h: seq<Stream>, n: nat, bad: set<nat>)
    requires n <= |h| && HeapBut(LessBy(k), h, FirstN(n) + bad) && Shallow(bad)
    ensures HeapBut(LessBy(k), NextK(k, h, n), bad)
    decreases n
  {
    if n == 0 {
      NoneFirst(bad);
    } else {
      var g := StepAt(k, h, n - 1);
      StepRepairs(k, h, n - 1, bad);
      NextKUnfolds(k, h, n - 1, g);
      NextKRepairs(k, g, n - 1, bad);
    }
  }

  lemma NoneFirst(bad: set<nat>)
    ensures FirstN(0) + bad == bad
  {
  }

  /** The position that gathering two heads may put out of order with its children. */
  function Displaced(e: nat): set<nat> { if e == 2 then {2} else {} }

  lemma {:induction false} NearTheTop(e: nat, c: nat)
    requires e > 1 && 0 < c < 7
    ensures Loose(FirstN(e) + Displaced(e), c)
  {
    assert Parent(c) <= 2;
    assert 2 in FirstN(e) + Displaced(e);
  }

  lemma GatheringBends(k: Kind, h: seq<Stream>)
    requires 0 < |h| <= 7 && IsHeap(LessBy(k), h)
    ensures var (g, e) := EqUp(EqBy(k), h); HeapBut(LessBy(k), g, FirstN(e) + Displaced(e))
  {
    StreamsAreOrdered(k);
    EqUpSplits(LessBy(k), EqBy(k), h);
    var (g, e) := EqUp(EqBy(k), h);
    forall c | 0 < c < |g| ensures Loose(FirstN(e) + Displaced(e), c) || Fine(LessBy(k), g, c) {
      if e > 1 {
        NearTheTop(e, c);
      } else {
        assert Fine(LessBy(k), h, c);
      }
    }
  }

  /** A round over at most seven streams leaves a heap. */
  lemma RoundKeepsHeap(k: Kind, h: seq<Stream>)
    requires 0 < |h| <= 7 && IsHeap(LessBy(k), h)
    ensures IsHeap(LessBy(k), NextHeap(k, h))
  {
    StreamsAreOrdered(k);
    var (g, e) := EqUp(EqBy(k), h);
    EqUpSplits(LessBy(k), EqBy(k), h);
    GatheringBends(k, h);
    MixingBends(k, g, e, Displaced(e));
    NextKRepairs(k, Mixed(g, e), e, Displaced(e));
    SiftUpTheRest(k, NextK(k, Mixed(g, e), e), e);
  }

  /** Where all elements tie, every array is a heap. */
  lemma RoundRepairs(k: Kind, h: seq<Stream>)
    requires h != [] && (k == P || |h| <= 7) && IsHeap(LessBy(k), h)
    ensures IsHeap(LessBy(k), NextHeap(k, h))
  {
    if k != P {
      RoundKeepsHeap(k, h);
    }
  }

  /** Whatever order the selection leaves the first e streams in, only they can be out of place. */
  lemma {:induction false} MixingBends(k: Kind, g: seq<Stream>, e: nat, bad: set<nat>)
    requires 0 < e <= |g| && HeapBut(LessBy(k), g, FirstN(e) + bad)
    ensures HeapBut(LessBy(k), Mixed(g, e), FirstN(e) + bad)
  {
    var m := Mixed(g, e);
    forall c | 0 < c < |m| ensures Loose(FirstN(e) + bad, c) || Fine(LessBy(k), m, c) {
      assert Loose(FirstN(e) + bad, c) || Fine(LessBy(k), g, c);
      if c >= e && Parent(c) >= e {
        assert m[c] == g[c] && m[Parent(c)] == g[Parent(c)];
      }
    }
  }

  lemma MixingPermutes(g: seq<Stream>, e: nat)
    requires 0 < e <= |g|
    ensures multiset(Mixed(g, e)[..e]) == multiset(g[..e]) && Mixed(g, e)[e..] == g[e..]
  {
    if e > 1 {
      SelectPermutes(JUDGE_HEADS, g[..e], e, 1, 1);
    }
  }

  lemma {:induction false} LivePermutes(a: seq<Stream>, b: seq<Stream>)
    requires multiset(a) == multiset(b)
    ensures multiset(Live(a)) == multiset(Live(b))
    decreases |a|
  {
    assert |a| == |multiset(a)| == |multiset(b)| == |b|;
    if a != [] {
      var n := |a| - 1;
      SplitLast(a);
      assert a[n] in multiset(b);
      var i :| 0 <= i < |b| && b[i] == a[n];
      assert b == b[..i] + [b[i]] + b[i + 1..];
      CancelOne(multiset(a[..n]), multiset(b[..i] + b[i + 1..]), a[n]);
      LivePermutes(a[..n], b[..i] + b[i + 1..]);
      LiveGrows(a[..n], a[n]);
      LiveOfParts(b[..i], b[i], b[i + 1..]);
    }
  }

  lemma {:induction false} LiveConcat(a: seq<Stream>, b: seq<Stream>)
    ensures Live(a + b) == Live(a) + Live(b)
    decreases |b|
  {
    if b == [] {
      assert a + b == a;
    } else {
      var n := |b| - 1;
      var last := if |b[n]| > 1 then [b[n][1..]] else [];
      LiveConcat(a, b[..n]);
      SplitLast(b);
      Associates(a, b[..n], [b[n]]);
      LiveGrows(a + b[..n], b[n]);
      Associates(Live(a), Live(b[..n]), last);
    }
  }

  lemma {:induction false} LiveOfParts(a: seq<Stream>, s: Stream, b: seq<Stream>)
    ensures multiset(Live(a + [s] + b)) == multiset(Live(a + b)) + multiset(Live([s]))
  {
    LiveConcat(a, [s]);
    LiveConcat(a + [s], b);
    LiveConcat(a, b);
  }

  lemma {:induction false} SiftUpTheRest(k: Kind, n: seq<Stream>, e: nat)
    requires e > 0 && HeapBut(LessBy(k), n, Displaced(e))
    ensures IsHeap(LessBy(k), if e > 1 then UpAll(LessBy(k), n, e) else n)
  {
    StreamsAreOrdered(k);
    assert forall c | 0 < c < |n| :: Loose(Displaced(e), c) || Fine(LessBy(k), n, c);
    if e > 1 {
      UpAllMakesHeap(LessBy(k), n, e);
    }
  }

  /** The heads that merge in a round. */
  function Minimal(k: Kind, h: seq<Stream>): seq<Stream>
    requires h != []
  {
    var (g, e) := EqUp(EqBy(k), h); g[..e]
  }

  /** After a round the heap holds the advanced streams and the others. */
  lemma NextHeapKeepsStreams(k: Kind, h: seq<Stream>)
    requires h != []
    ensures var (g, e) := EqUp(EqBy(k), h); multiset(NextHeap(k, h)) == multiset(Live(g[..e]) + g[e..])
  {
    var (g, e) := EqUp(EqBy(k), h);
    var m := Mixed(g, e);
    MixingPermutes(g, e);
    NextKKeepsStreams(k, m[..e], m[e..]);
    SplitAt(m, e);
    LivePermutes(m[..e], g[..e]);
    UpAllPermutes(LessBy(k), NextK(k, m, e), e);
  }

  /** The same, with the gathered streams and the others given apart. */
  lemma RoundKeepsParts(k: Kind, h: seq<Stream>, front: seq<Stream>, rest: seq<Stream>)
    requires h != [] && EqUp(EqBy(k), h) == (front + rest, |front|)
    ensures multiset(NextHeap(k, h)) == multiset(Live(front)) + multiset(rest) && Minimal(k, h) == front
  {
    NextHeapKeepsStreams(k, h);
    JoinedParts(front, rest);
  }

  ghost predicate AllLaid(w: World, c: Path, k: Kind, q: Cursor, h: seq<Doc>) {
    forall x | x in h :: Laid(w, c, k, q, x)
  }

  lemma AllLaidInOpened(w: World, c: Path, k: Kind, q: Cursor, h: seq<Doc>)
    requires AllLaid(w, c, k, q, h)
    ensures AllLaid(Opened(w), c, k, q, h)
  {
    forall x | x in h ensures Laid(Opened(w), c, k, q, x) { LaidInOpened(w, c, k, q, x); }
  }

  lemma AllLaidPermutes(w: World, c: Path, k: Kind, q: Cursor, h: seq<Doc>, g: seq<Doc>)
    requires AllLaid(w, c, k, q, h) && multiset(g) == multiset(h)
    ensures AllLaid(w, c, k, q, g)
  {
    forall x | x in g ensures Laid(w, c, k, q, x) { assert x in multiset(h); }
  }

  /** One round splits off the merge of the minimal heads and leaves the merge of the rest. */
  lemma RoundIsAFoldStep(w: World, c: Path, k: Kind, q: Cursor, h: seq<Stream>)
    returns (s: Slot)
    requires CalmWorld(Opened(w)) && h != [] && IsHeap(LessBy(k), h) && AllLaid(w, c, k, q, h)
    ensures HeadsOf(Minimal(k, h)) != []
    ensures FoldMerge(k, h) == [FoldSpot(HeadsOf(Minimal(k, h)))] + FoldMerge(k, NextHeap(k, h))
    ensures AllLaid(w, c, k, After(s), NextHeap(k, h))
    ensures forall e | e in HeadsOf(Minimal(k, h)) :: Belongs(w, c + [At(s)], e)
  {
    var (g, e) := EqUp(EqBy(k), h);
    GatherLow(k, h);
    EqUpPermutes(EqBy(k), h);
    AllLaidPermutes(w, c, k, q, h, g);
    assert g[0] in g;
    s := SlotOf(LayoutAt(w, c, k), q, KeyOf(k, g[0][0]));
    AllLaidInOpened(w, c, k, q, h);
    FoldMergePermutes(Opened(w), c, k, q, h, g);
    var rest := Live(g[..e]) + g[e..];
    GatheredFoldStep(k, g, e);
    NextHeapKeepsStreams(k, h);
    RestIsLaid(w, c, k, q, g, e);
    AllLaidInOpened(w, c, k, After(s), rest);
    FoldMergePermutes(Opened(w), c, k, After(s), rest, NextHeap(k, h));
    AllLaidPermutes(w, c, k, After(s), rest, NextHeap(k, h));
  }

  lemma GatheredFoldStep(k: Kind, g: seq<Stream>, e: nat)
    requires 0 < e && g != [] && Gathered(k, KeyOf(k, g[0][0]), g, e) && AtOrAbove(k, KeyOf(k, g[0][0]), g)
    ensures HeadsOf(g[..e]) != [] && KeyOf(k, FoldSpot(HeadsOf(g[..e]))) == KeyOf(k, g[0][0])
    ensures FoldMerge(k, g) == [FoldSpot(HeadsOf(g[..e]))] + FoldMerge(k, Live(g[..e]) + g[e..])
  {
    var low := KeyOf(k, g[0][0]);
    HeadsAreThere(g[..e]);
    GatheredHeads(k, low, g, e);
    FoldStep(k, low, g);
    NonEmptyMerge(k, Advance(k, low, g));
  }

  lemma {:induction false} HeadsAreThere(f: seq<Stream>)
    requires f != []
    ensures HeadsOf(f) != []
  {
  }

  lemma {:induction false} RestIsLaid(w: World, c: Path, k: Kind, q: Cursor, g: seq<Stream>, e: nat)
    requires 0 < e && g != [] && Gathered(k, KeyOf(k, g[0][0]), g, e) && AllLaid(w, c, k, q, g)
    ensures HasSlot(LayoutAt(w, c, k), q, KeyOf(k, g[0][0]))
    ensures AllLaid(w, c, k, After(SlotOf(LayoutAt(w, c, k), q, KeyOf(k, g[0][0]))), Live(g[..e]) + g[e..])
    ensures forall x | x in HeadsOf(g[..e]) ::
              Belongs(w, c + [At(SlotOf(LayoutAt(w, c, k), q, KeyOf(k, g[0][0])))], x)
  {
    assert g[0] in g;
    forall x | x in Live(g[..e]) + g[e..]
      ensures Laid(w, c, k, After(SlotOf(LayoutAt(w, c, k), q, KeyOf(k, g[0][0]))), x)
    {
      AdvancedIsLaid(w, c, k, q, g, e, x);
    }
    forall x | x in HeadsOf(g[..e])
      ensures Belongs(w, c + [At(SlotOf(LayoutAt(w, c, k), q, KeyOf(k, g[0][0])))], x)
    {
      var j := HeadsComeFrom(g[..e], x);
      assert g[j] in g;
    }
  }

  lemma GatherLow(k: Kind, h: seq<Stream>)
    requires h != [] && IsHeap(LessBy(k), h)
    ensures var (g, e) := EqUp(EqBy(k), h);
            var low := KeyOf(k, g[0][0]);
            e > 0 && Gathered(k, low, g, e) && AtOrAbove(k, low, g)
  {
    StreamsAreOrdered(k);
    EqUpSplits(LessBy(k), EqBy(k), h);
    var (g, e) := EqUp(EqBy(k), h);
    var low := KeyOf(k, g[0][0]);
    forall j | 0 <= j < |g| ensures !Below(KeyOf(k, g[j][0]), low) {
      KeysAreTotallyOrdered(KeyOf(k, g[j][0]), low);
    }
  }

  lemma {:induction false} HeadsComeFrom(f: seq<Stream>, x: Elem) returns (j: nat)
    requires x in HeadsOf(f)
    ensures j < |f| && f[j][0] == x
    decreases |f|
  {
    var n := |f| - 1;
    if f[n][0] == x {
      j := n;
    } else {
      j := HeadsComeFrom(f[..n], x);
    }
  }

  lemma {:induction false} LiveComesFrom(f: seq<Stream>, x: Stream) returns (j: nat)
    requires x in Live(f)
    ensures j < |f| && f[j][1..] == x
    decreases |f|
  {
    var n := |f| - 1;
    if f[n][1..] == x {
      j := n;
    } else {
      j := LiveComesFrom(f[..n], x);
    }
  }

  lemma {:induction false} AdvancedIsLaid(w: World, c: Path, k: Kind, q: Cursor, g: seq<Stream>, e: nat, x: Stream)
    requires e > 0 && g != [] && Gathered(k, KeyOf(k, g[0][0]), g, e)
    requires forall y | y in g :: Laid(w, c, k, q, y)
    requires x in Live(g[..e]) + g[e..]
    ensures HasSlot(LayoutAt(w, c, k), q, KeyOf(k, g[0][0]))
    ensures Laid(w, c, k, After(SlotOf(LayoutAt(w, c, k), q, KeyOf(k, g[0][0]))), x)
  {
    assert g[0] in g;
    if x in Live(g[..e]) {
      var j := LiveComesFrom(g[..e], x);
      assert g[j] in g;
    } else {
      var low := KeyOf(k, g[0][0]);
      LaidAfter(w, c, k, q, x, low);
    }
  }

  /** Reading past a lower slot leaves a laid list laid. */
  lemma {:induction false} LaidAfter(w: World, c: Path, k: Kind, q: Cursor, xs: Doc, low: Key)
    requires Laid(w, c, k, q, xs) && HasSlot(LayoutAt(w, c, k), q, low)
    requires xs != [] ==> Below(low, KeyOf(k, xs[0]))
    ensures Laid(w, c, k, After(SlotOf(LayoutAt(w, c, k), q, low)), xs)
  {
    if xs != [] {
      var lay := LayoutAt(w, c, k);
      var t, u := SlotOf(lay, q, low), SlotOf(lay, q, KeyOf(k, xs[0]));
      LowerKeyComesFirst(lay, q, low, t, KeyOf(k, xs[0]), u);
      SlotIsUnique(lay, After(t), KeyOf(k, xs[0]), u, SlotOf(lay, After(t), KeyOf(k, xs[0])));
    }
  }
}
