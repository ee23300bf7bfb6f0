/**
 The repair loop at the end of a merge round sifts up only the positions after the equal heads.
 That is enough for up to seven streams and for no larger number.
 */
module RepairLimit {
  import opened Seqs
  import opened Ids
  import opened Elements
  import opened Layouts
  import opened Worlds
  import opened Batch
  import opened Contest
  import opened Heaps
  import opened Selection
  import opened Streams
  import opened Weights
  import opened Engine
  import opened SelfMerge
  import opened Normal
  import opened EngineNormal
  import opened EngineKeys
  import opened KeyLists

  /** An unstamped number with a source: in arrays, sets and multiplexed containers alike v is its key. */
  function Rec(v: nat): Elem
    requires v <= 900
  {
    First(ID(v, 0), Integer(v))
  }

  /** A stream that runs on to key 900: whatever comes next starts no higher, and so starts a new run. */
  function One(v: nat): Stream
    requires v <= 900
  {
    [Rec(v), Rec(900)]
  }

  function KeyNum(s: Stream): int { s[0].id.src }

  predicate OnRec(s: Stream) { KeyNum(s) <= 900 && s[0] == Rec(KeyNum(s)) }

  function SourceKey(k: Kind, v: nat): Key
    requires v <= 900
  {
    KeyOf(k, Rec(v))
  }

  lemma RecordOrder(k: Kind, v: nat, w: nat)
    requires k != P && v <= 900 && w <= 900
    ensures Compare(k, Rec(v), Rec(w)) == CompareInt(v, w) == CompareKey(SourceKey(k, v), SourceKey(k, w))
    ensures SourceKey(k, v) == SourceKey(k, w) <==> v == w
  {
    CompareIsKeyOrder(k, Rec(v), Rec(w));
    KeysAreTotallyOrdered(SourceKey(k, v), SourceKey(k, w));
  }

  lemma SourceOrder(k: Kind)
    requires k != P
    ensures forall a: Stream, b: Stream | OnRec(a) && OnRec(b) :: LessBy(k)(a, b) <==> KeyNum(a) < KeyNum(b)
    ensures forall a: Stream, b: Stream | OnRec(a) && OnRec(b) :: EqBy(k)(a, b) <==> KeyNum(a) == KeyNum(b)
  {
    forall a: Stream, b: Stream | OnRec(a) && OnRec(b)
      ensures Compare(k, a[0], b[0]) == CompareInt(KeyNum(a), KeyNum(b))
    {
      RecordOrder(k, KeyNum(a), KeyNum(b));
    }
  }

  const LATE: Stream := [Rec(900)]

  /** Eight streams, and as many late ones as it takes to have n. */
  function Board(p: seq<Stream>, n: nat): (r: seq<Stream>)
    requires |p| == 8 <= n
    ensures |r| == n
    ensures forall i | 0 <= i < 8 :: r[i] == p[i]
    ensures forall i | 8 <= i < n :: r[i] == LATE
  {
    seq(n, i requires 0 <= i < n => if i < 8 then p[i] else LATE)
  }

  lemma LateKey()
    ensures KeyNum(LATE) == 900 && OnRec(LATE)
  {
    assert LATE[0] == Rec(900);
  }

  ghost predicate Early(p: seq<Stream>) { forall i | 0 <= i < |p| :: OnRec(p[i]) && KeyNum(p[i]) < 900 }

  lemma SwapBoard(p: seq<Stream>, n: nat, i: nat, j: nat)
    requires |p| == 8 <= n && i < 8 && j < 8
    ensures Swap(Board(p, n), i, j) == Board(Swap(p, i, j), n)
  {
  }

  /** Late streams never move up past early ones. */
  lemma {:induction false} DownBoard(k: Kind, p: seq<Stream>, n: nat, i: nat)
    requires k != P
    requires |p| == 8 <= n && i < 8 && Early(p)
    ensures Down(LessBy(k), Board(p, n), i) == Board(Down(LessBy(k), p, i), n)
    ensures Early(Down(LessBy(k), p, i))
    decreases 8 - i
  {
    var b := Board(p, n);
    SourceOrder(k);
    LateKey();
    if 2 * i + 1 < 8 {
      var j := SmallerChild(LessBy(k), p, i);
      assert SmallerChild(LessBy(k), b, i) == j;
      if LessBy(k)(p[j], p[i]) {
        SwapBoard(p, n, i, j);
        DownBoard(k, Swap(p, i, j), n, j);
      }
    } else if 2 * i + 1 < n {
      assert KeyNum(p[i]) < 900;
      assert !LessBy(k)(b[SmallerChild(LessBy(k), b, i)], b[i]);
    }
  }

  lemma {:induction false} AdvanceBoard(k: Kind, p: seq<Stream>, n: nat, i: nat)
    requires k != P
    requires |p| == 8 <= n && i < 8 && Early(p) && |p[i]| > 1 && OnRec(p[i][1..]) && KeyNum(p[i][1..]) < 900
    ensures StepAt(k, Board(p, n), i) == Board(Down(LessBy(k), p[i := p[i][1..]], i), n)
    ensures Early(Down(LessBy(k), p[i := p[i][1..]], i))
  {
    assert Board(p, n)[i := p[i][1..]] == Board(p[i := p[i][1..]], n);
    DownBoard(k, p[i := p[i][1..]], n, i);
  }

  const ZERO: Stream := [Rec(0), Rec(100)]

  const START: seq<Stream> := [ZERO, ZERO, One(9), ZERO, One(20), One(10), One(11), One(5)]

  lemma StartPairs(c: nat)
    requires 0 < c < 8
    ensures KeyNum(START[Parent(c)]) <= KeyNum(START[c])
  {
    assert Parent(1) == Parent(2) == 0 && Parent(3) == Parent(4) == 1 && Parent(5) == Parent(6) == 2 && Parent(7) == 3;
  }

  lemma StartIsEarly(i: nat)
    requires i < 8
    ensures OnRec(START[i]) && KeyNum(START[i]) <= 20
  {
    assert i in {0, 1, 2, 3, 4, 5, 6, 7};
  }

  lemma StartIsHeap(k: Kind, n: nat)
    requires k != P && n >= 8
    ensures IsHeap(LessBy(k), Board(START, n))
  {
    var b := Board(START, n);
    SourceOrder(k);
    LateKey();
    forall c | 0 < c < n ensures KeyNum(b[Parent(c)]) <= KeyNum(b[c]) {
      if c < 8 {
        StartPairs(c);
      } else if Parent(c) < 8 {
        StartIsEarly(Parent(c));
      }
    }
  }

  const GATHERED: seq<Stream> := [ZERO, ZERO, ZERO, One(9), One(20), One(10), One(11), One(5)]

  lemma SearchTail(k: Kind, n: nat)
    requires k != P && n >= 8
    ensures EqUpFrom(EqBy(k), Board(GATHERED, n), [4, 7, 8], 3) == (Board(GATHERED, n), 3)
  {
    SourceOrder(k);
    LateKey();
    var g, eq := Board(GATHERED, n), EqBy(k);
    assert KeyNum(g[0]) == 0 && KeyNum(g[4]) == 20 && KeyNum(g[7]) == 5;
    GatherStep(eq, g, [4, 7, 8], 3);
    assert [4, 7, 8][1..] == [7, 8];
    GatherStep(eq, g, [7, 8], 3);
    assert [7, 8][1..] == [8];
    if n > 8 {
      assert KeyNum(g[8]) == 900;
      GatherStep(eq, g, [8], 3);
    }
  }

  lemma SearchMiddle(k: Kind, n: nat)
    requires k != P && n >= 8
    ensures EqUpFrom(EqBy(k), Board(START, n), [2, 3, 4], 2) == EqUpFrom(EqBy(k), Board(GATHERED, n), [4, 7, 8], 3)
  {
    var h, eq := Board(START, n), EqBy(k);
    assert KeyNum(h[0]) == 0 && KeyNum(h[2]) == 9 && KeyNum(h[3]) == 0;
    assert !eq(h[0], h[2]) && eq(h[0], h[3]) by { SourceOrder(k); }
    assert [2, 3, 4][1..] == [3, 4];
    assert EqUpFrom(eq, h, [2, 3, 4], 2) == EqUpFrom(eq, h, [3, 4], 2) by { GatherStep(eq, h, [2, 3, 4], 2); }
    SwapBoard(START, n, 2, 3);
    assert Swap(START, 2, 3) == GATHERED && ([3, 4] + [7, 8])[1..] == [4, 7, 8];
    GatherStep(eq, h, [3, 4], 2);
  }

  /** Gathering moves the 9 between the fourth zero and its child, the 5. */
  lemma GatherStart(k: Kind, n: nat)
    requires k != P && n >= 8
    ensures EqUp(EqBy(k), Board(START, n)) == (Board(GATHERED, n), 3)
  {
    SourceOrder(k);
    var h, eq := Board(START, n), EqBy(k);
    assert KeyNum(h[0]) == 0 && KeyNum(h[1]) == 0;
    GatherStep(eq, h, [1, 2], 1);
    assert Swap(h, 1, 1) == h && ([1, 2] + [3, 4])[1..] == [2, 3, 4];
    SearchMiddle(k, n);
    SearchTail(k, n);
  }

  const HUNDRED: Stream := [Rec(100)]

  lemma AdvanceGathered(k: Kind, n: nat)
    requires k != P && n >= 8
    ensures NextK(k, Board(GATHERED, n), 3)
         == Board([One(9), One(5), One(10), HUNDRED, One(20), HUNDRED, One(11), HUNDRED], n)
  {
    var less := LessBy(k);
    assert ZERO[1..] == HUNDRED;
    var p2 := [ZERO, ZERO, One(10), One(9), One(20), HUNDRED, One(11), One(5)];
    AdvanceBoard(k, GATHERED, n, 2);
    SiftFrom2(k);
    NextKUnfolds(k, Board(GATHERED, n), 2, Board(p2, n));
    AdvanceBoard(k, p2, n, 1);
    SiftFrom1(k);
    var p1 := [ZERO, One(9), One(10), One(5), One(20), HUNDRED, One(11), HUNDRED];
    NextKUnfolds(k, Board(p2, n), 1, Board(p1, n));
    AdvanceBoard(k, p1, n, 0);
    SiftFrom0(k);
    NextKUnfolds(k, Board(p1, n), 0, StepAt(k, Board(p1, n), 0));
  }

  lemma SiftFrom2(k: Kind)
    requires k != P
    ensures Down(LessBy(k), GATHERED[2 := HUNDRED], 2) == [ZERO, ZERO, One(10), One(9), One(20), HUNDRED, One(11), One(5)]
  {
    SourceOrder(k);
    var p := GATHERED[2 := HUNDRED];
    assert SmallerChild(LessBy(k), p, 2) == 5;
    assert Swap(p, 2, 5) == [ZERO, ZERO, One(10), One(9), One(20), HUNDRED, One(11), One(5)];
  }

  lemma SiftFrom1(k: Kind)
    requires k != P
    ensures Down(LessBy(k), [ZERO, HUNDRED, One(10), One(9), One(20), HUNDRED, One(11), One(5)], 1)
         == [ZERO, One(9), One(10), One(5), One(20), HUNDRED, One(11), HUNDRED]
    ensures [ZERO, ZERO, One(10), One(9), One(20), HUNDRED, One(11), One(5)][1 := HUNDRED]
         == [ZERO, HUNDRED, One(10), One(9), One(20), HUNDRED, One(11), One(5)]
  {
    SourceOrder(k);
    var p := [ZERO, HUNDRED, One(10), One(9), One(20), HUNDRED, One(11), One(5)];
    assert SmallerChild(LessBy(k), p, 1) == 3;
    var r := [ZERO, One(9), One(10), HUNDRED, One(20), HUNDRED, One(11), One(5)];
    assert Swap(p, 1, 3) == r;
    assert SmallerChild(LessBy(k), r, 3) == 7;
    assert Swap(p, 1, 3) == r && Down(LessBy(k), p, 1) == Down(LessBy(k), r, 3);
    assert Swap(r, 3, 7) == [ZERO, One(9), One(10), One(5), One(20), HUNDRED, One(11), HUNDRED];
  }

  lemma SiftFrom0(k: Kind)
    requires k != P
    ensures Down(LessBy(k), [HUNDRED, One(9), One(10), One(5), One(20), HUNDRED, One(11), HUNDRED], 0)
         == [One(9), One(5), One(10), HUNDRED, One(20), HUNDRED, One(11), HUNDRED]
    ensures [ZERO, One(9), One(10), One(5), One(20), HUNDRED, One(11), HUNDRED][0 := HUNDRED]
         == [HUNDRED, One(9), One(10), One(5), One(20), HUNDRED, One(11), HUNDRED]
  {
    SourceOrder(k);
    var p := [HUNDRED, One(9), One(10), One(5), One(20), HUNDRED, One(11), HUNDRED];
    assert SmallerChild(LessBy(k), p, 0) == 1;
    var r := [One(9), HUNDRED, One(10), One(5), One(20), HUNDRED, One(11), HUNDRED];
    assert Swap(p, 0, 1) == r;
    assert SmallerChild(LessBy(k), r, 1) == 3;
    var t := [One(9), One(5), One(10), HUNDRED, One(20), HUNDRED, One(11), HUNDRED];
    assert Swap(r, 1, 3) == t;
    assert Down(LessBy(k), p, 0) == Down(LessBy(k), r, 1) == Down(LessBy(k), t, 3);
    assert !LessBy(k)(t[7], t[3]);
  }

  /** Sifting up positions that are in order already does nothing. */
  lemma {:induction false} UpAllIdle<T>(less: (T, T) -> bool, h: seq<T>, i: nat)
    requires forall c | i <= c < |h| :: Fine(less, h, c)
    ensures UpAll(less, h, i) == h
    decreases |h| - i
  {
    if i < |h| {
      assert Fine(less, h, i);
      UpAllIdle(less, h, i + 1);
    }
  }

  /** The three gathered streams are alike, and the selection leaves them as they are. */
  lemma MixGathered(n: nat)
    requires n >= 8
    ensures Mixed(Board(GATHERED, n), 3) == Board(GATHERED, n)
  {
    var g := Board(GATHERED, n);
    assert g[..3] == Copies(ZERO, 3);
    JudgedAlike(ZERO[0]);
    SelectCopies(JUDGE_HEADS, ZERO, 3, 1);
    SplitAt(g, 3);
  }

  const BROKEN: seq<Stream> := [One(9), One(5), One(10), HUNDRED, One(20), HUNDRED, One(11), HUNDRED]

  lemma RoundFromStart(k: Kind, n: nat)
    requires k != P && n >= 8
    ensures NextHeap(k, Board(START, n)) == Board(BROKEN, n)
  {
    GatherStart(k, n);
    MixGathered(n);
    AdvanceGathered(k, n);
    var h := Board(BROKEN, n);
    SourceOrder(k);
    LateKey();
    forall c | 3 <= c < n ensures Fine(LessBy(k), h, c) {
      assert Parent(c) < 8 ==> Parent(c) in {1, 2, 3, 4, 5, 6, 7};
      assert c < 8 ==> c in {3, 4, 5, 6, 7};
    }
    UpAllIdle(LessBy(k), h, 3);
  }

  /** The 5 ends up under the 9. */
  lemma LaterHeapsBreak(k: Kind, n: nat)
    requires k != P && n >= 8
    ensures IsHeap(LessBy(k), Board(START, n)) && !IsHeap(LessBy(k), NextHeap(k, Board(START, n)))
  {
    StartIsHeap(k, n);
    RoundFromStart(k, n);
    SourceOrder(k);
    assert !Fine(LessBy(k), Board(BROKEN, n), 1);
  }

  /** Where all elements tie every array is a heap; in all other containers a round keeps every heap of n streams exactly when n is at most seven. */
  lemma RepairIff(k: Kind, n: nat)
    requires n > 0
    ensures k == P || n <= 7 <==> forall h: seq<Stream> | |h| == n && IsHeap(LessBy(k), h) :: IsHeap(LessBy(k), NextHeap(k, h))
  {
    if k == P || n <= 7 {
      forall h: seq<Stream> | |h| == n && IsHeap(LessBy(k), h) ensures IsHeap(LessBy(k), NextHeap(k, h)) {
        RoundRepairs(k, h);
      }
    } else {
      LaterHeapsBreak(k, n);
    }
  }

  // ---- what that does to a merge

  lemma LoneMinimum(k: Kind, n: nat)
    requires k != P && n >= 8
    ensures Minimal(k, Board(BROKEN, n)) == [One(9)]
  {
    SourceOrder(k);
    var h, eq := Board(BROKEN, n), EqBy(k);
    assert KeyNum(h[0]) == 9 && KeyNum(h[1]) == 5 && KeyNum(h[2]) == 10;
    GatherStep(eq, h, [1, 2], 1);
    assert [1, 2][1..] == [2];
    GatherStep(eq, h, [2], 1);
    assert [2][1..] == [];
    assert h[..1] == [One(9)];
  }

  /** The merge writes the 9 right behind the zeroes. */
  lemma NineComesSecond(k: Kind, n: nat)
    requires k != P && n >= 8
    ensures var m := HeapMerged(k, Board(START, n)); |m| > 1 && m[1] == Rec(9)
  {
    var h := Board(START, n);
    StartIsHeap(k, n);
    HeapizedIdle(k, h, n);
    assert h[..n] == h;
    RoundFromStart(k, n);
    NineIsWritten(k, n);
    assert RunHeap(k, h)[1..] == RunHeap(k, Board(BROKEN, n));
  }

  lemma NineIsWritten(k: Kind, n: nat)
    requires k != P && n >= 8
    ensures var m := RunHeap(k, Board(BROKEN, n)); m != [] && m[0] == Rec(9)
  {
    var g := Board(BROKEN, n);
    LoneMinimum(k, n);
    assert HeadsOf([One(9)]) == [Rec(9)] by { assert [One(9)][..0] == []; }
    assert Emitted(k, g) == Rec(9);
  }

  lemma {:induction false} HeadIsThere(k: Kind, low: Key, ss: seq<Doc>, i: nat)
    requires i < |ss| && ss[i] != [] && KeyOf(k, ss[i][0]) == low
    ensures Heads(k, low, ss) != []
    decreases |ss|
  {
    if i < |ss| - 1 {
      HeadIsThere(k, low, ss[..|ss| - 1], i);
    }
  }

  lemma {:induction false} AdvanceAt(k: Kind, low: Key, ss: seq<Doc>)
    ensures |Advance(k, low, ss)| == |ss|
    ensures forall i | 0 <= i < |ss| ::
              Advance(k, low, ss)[i] == if ss[i] != [] && KeyOf(k, ss[i][0]) == low then ss[i][1..] else ss[i]
    decreases |ss|
  {
    if ss != [] {
      AdvanceAt(k, low, ss[..|ss| - 1]);
    }
  }

  lemma BoardOnRecs(n: nat, i: nat)
    requires i < n && n >= 8
    ensures OnRec(Board(START, n)[i])
  {
    LateKey();
    if i < 8 {
      StartIsEarly(i);
    }
  }

  /** No record is below the 0. */
  lemma ZeroIsLowest(k: Kind, n: nat)
    requires k != P && n >= 8
    ensures AtOrAbove(k, SourceKey(k, 0), Board(START, n))
  {
    forall s | s in Board(START, n) && s != [] ensures !Below(KeyOf(k, s[0]), SourceKey(k, 0)) {
      var i :| 0 <= i < n && Board(START, n)[i] == s;
      BoardOnRecs(n, i);
      RecordOrder(k, KeyNum(s), 0);
    }
  }

  /** The folded two-way merge has the 5 there. */
  lemma FiveComesSecond(k: Kind, n: nat)
    requires k != P && n >= 8
    ensures var m := FoldMerge(k, Board(START, n)); |m| > 1 && KeyOf(k, m[1]) == SourceKey(k, 5)
  {
    var h := Board(START, n);
    ZeroIsLowest(k, n);
    FoldStep(k, SourceKey(k, 0), h);
    HeadIsThere(k, SourceKey(k, 0), h, 0);
    var g := Advance(k, SourceKey(k, 0), h);
    AfterTheZeroes(k, n, g);
    FoldStep(k, SourceKey(k, 5), g);
    HeadIsThere(k, SourceKey(k, 5), g, 7);
  }

  lemma AfterTheZeroes(k: Kind, n: nat, g: seq<Doc>)
    requires k != P && n >= 8 && g == Advance(k, SourceKey(k, 0), Board(START, n))
    ensures |g| == n && g[7] == One(5) && AtOrAbove(k, SourceKey(k, 5), g)
  {
    var h := Board(START, n);
    AdvanceAt(k, SourceKey(k, 0), h);
    RecordOrder(k, 5, 0);
    assert ZERO[1..] == HUNDRED;
    forall s | s in g && s != [] ensures !Below(KeyOf(k, s[0]), SourceKey(k, 5)) {
      var i :| 0 <= i < |g| && g[i] == s;
      BoardOnRecs(n, i);
      RecordOrder(k, KeyNum(h[i]), 0);
      assert i < 8 ==> i in {0, 1, 2, 3, 4, 5, 6, 7};
      RecordOrder(k, KeyNum(s), 5);
    }
  }

  /** With eight inputs or more the merge may not be the fold of the two-way merge, nor have its keys in the same order. */
  lemma LaterMergesBreak(k: Kind, n: nat)
    requires k != P && n >= 8
    ensures HeapMerged(k, Board(START, n)) != FoldMerge(k, Board(START, n))
    ensures KeyList(k, HeapMerged(k, Board(START, n))) != KeyList(k, FoldMerge(k, Board(START, n)))
  {
    NineComesSecond(k, n);
    FiveComesSecond(k, n);
    NineIsNotFive(k, HeapMerged(k, Board(START, n)), FoldMerge(k, Board(START, n)));
  }

  lemma NineIsNotFive(k: Kind, m: Doc, f: Doc)
    requires k != P && |m| > 1 && m[1] == Rec(9) && |f| > 1 && KeyOf(k, f[1]) == SourceKey(k, 5)
    ensures m != f && KeyList(k, m) != KeyList(k, f)
  {
    KeyListAt(k, m, 1);
    KeyListAt(k, f, 1);
    RecordOrder(k, 9, 5);
  }

  /** A world of integers: no containers, so nothing to disturb. */
  const INTEGERS: World :=
    World((p: Path) => (s: Shell) => s.lit == 'I' as int, (p: Path) => Sorted, (p: Path) => (e: Elem) => true)

  lemma IntegersFit()
    ensures CalmWorld(Opened(INTEGERS)) && Untrapped(INTEGERS)
  {
    forall p: Path ensures Calm(Opened(INTEGERS).shells(p)) {
      assert forall s :: Opened(INTEGERS).shells(p)(s) <==> s.lit == 'I' as int;
    }
  }

  lemma {:induction false} RecordsLaid(k: Kind, q: Cursor, s: seq<Elem>)
    requires k != P && Ascending(k, s) && forall e | e in s :: e.First? && e.val.Integer?
    requires q.After? ==> q.slot.AtKey? && (s != [] ==> Below(q.slot.key, KeyOf(k, s[0])))
    ensures Laid(INTEGERS, [], k, q, s)
    decreases |s|
  {
    if s != [] {
      var key := KeyOf(k, s[0]);
      assert Fits(Sorted, q, key, AtKey(key));
      assert s[0] in s;
      AscendingTail(k, s);
      RecordsLaid(k, After(AtKey(key)), s[1..]);
    }
  }

  /** One record or two, the second with the higher number. */
  predicate IsShort(s: Doc) {
    && 0 < |s| <= 2 && (forall e | e in s :: e.id.src <= 900 && e == Rec(e.id.src))
    && (|s| == 2 ==> s[0].id.src < s[1].id.src)
  }

  lemma BoardIsShort(n: nat, s: Doc)
    requires n >= 8 && s in Board(START, n)
    ensures IsShort(s)
  {
    var i :| 0 <= i < n && Board(START, n)[i] == s;
    assert i < 8 ==> i in {0, 1, 2, 3, 4, 5, 6, 7};
  }

  lemma ShortAscends(k: Kind, s: Doc)
    requires k != P && IsShort(s)
    ensures Ascending(k, s)
  {
    if |s| == 2 {
      assert s[0] in s && s[1] in s;
      RecordOrder(k, s[0].id.src, s[1].id.src);
    }
  }

  lemma BoardFits(k: Kind, n: nat)
    requires k != P && n >= 8
    ensures Fitting(INTEGERS, [], k, Start, Board(START, n))
  {
    IntegersFit();
    forall s | s in Board(START, n) ensures Laid(INTEGERS, [], k, Start, s) {
      BoardIsShort(n, s);
      ShortAscends(k, s);
      RecordsLaid(k, Start, s);
    }
  }

  /** Merging n inputs that fit one world is always the fold of the two-way merge exactly when n is at most seven. */
  lemma MergeIff(n: nat)
    ensures n <= 7 <==> forall w, c, k, q, inputs | |inputs| == n && Fitting(w, c, k, q, inputs) ::
                          HeapMerged(k, inputs) == FoldMerge(k, inputs)
  {
    if n <= 7 {
      forall w, c, k, q, inputs | |inputs| == n && Fitting(w, c, k, q, inputs)
        ensures HeapMerged(k, inputs) == FoldMerge(k, inputs)
      {
        assert Mergeable(w, c, k, q, inputs);
        MergedIsFold(w, c, k, q, inputs);
      }
    } else {
      var h: seq<Doc> := Board(START, n);
      BoardFits(X, n);
      LaterMergesBreak(X, n);
      assert |h| == n && Fitting(INTEGERS, [], X, Start, h);
    }
  }

  // ---- nor is the result in order

  lemma FiveIsThere(k: Kind, n: nat) returns (j: nat)
    requires k != P && n >= 8
    ensures var m := HeapMerged(k, Board(START, n)); j < |m| && KeyOf(k, m[j]) == SourceKey(k, 5)
  {
    var h, m := Board(START, n), HeapMerged(k, Board(START, n));
    assert h[7] in h && Rec(5) in h[7];
    assert HasKey(k, h[7], SourceKey(k, 5));
    MergeKeepsKeys(k, h, SourceKey(k, 5));
    var y :| y in m && KeyOf(k, y) == SourceKey(k, 5);
    j :| 0 <= j < |m| && m[j] == y;
  }

  /** The 5 is still to come when the 9 has been written. */
  lemma OutputDescends(k: Kind, n: nat)
    requires k != P && n >= 8
    ensures !Ascending(k, HeapMerged(k, Board(START, n)))
  {
    NineComesSecond(k, n);
    TopComesFirst(k, n);
    var j := FiveIsThere(k, n);
    FiveAfterNine(k, HeapMerged(k, Board(START, n)), j);
  }

  lemma FiveAfterNine(k: Kind, m: Doc, j: nat)
    requires k != P && j < |m| && |m| > 1
    requires KeyOf(k, m[0]) == SourceKey(k, 0) && m[1] == Rec(9) && KeyOf(k, m[j]) == SourceKey(k, 5)
    ensures !Ascending(k, m)
  {
    RecordOrder(k, 0, 5);
    RecordOrder(k, 9, 5);
    if Ascending(k, m) && j > 1 {
      LaterIsAbove(k, m, 1, j);
    }
  }

  lemma TopComesFirst(k: Kind, n: nat)
    requires k != P && n >= 8
    ensures var m := HeapMerged(k, Board(START, n)); m != [] && KeyOf(k, m[0]) == SourceKey(k, 0)
  {
    var h := Board(START, n);
    StartIsHeap(k, n);
    HeapizedIdle(k, h, n);
    assert h[..n] == h;
    EmittedKeepsKey(k, h);
  }

  lemma BoardIsNormal(k: Kind, n: nat)
    requires k != P && n >= 8
    ensures AllNormal(k, Board(START, n))
  {
    forall s | s in Board(START, n) ensures NormalKids(k, s) {
      BoardIsShort(n, s);
      ShortAscends(k, s);
    }
  }

  /** Merging n lists in normal form always gives a list in normal form exactly when n is at most seven. */
  lemma NormalIff(n: nat)
    ensures n <= 7 <==> forall k, inputs | |inputs| == n && AllNormal(k, inputs) :: NormalKids(k, HeapMerged(k, inputs))
  {
    if n <= 7 {
      forall k, inputs | |inputs| == n && AllNormal(k, inputs) ensures NormalKids(k, HeapMerged(k, inputs)) {
        EngineKeepsNormal(k, inputs);
      }
    } else {
      var h: seq<Doc> := Board(START, n);
      BoardIsNormal(X, n);
      OutputDescends(X, n);
      assert |h| == n && AllNormal(X, h) && !NormalKids(X, HeapMerged(X, h));
    }
  }
}
