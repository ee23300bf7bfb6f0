/**
 The merge engine of itheap.go and rdx.go: a heap of record iterators merged round by round, each
 round selecting the winners among the equal heads in place and writing one record under a mark.
 */
module IterHeap {
  import opened Seqs
  import opened Ids
  import opened Elements
  import opened Merge
  import opened Layouts
  import opened Worlds
  import opened Batch
  import opened Contest
  import opened Heaps
  import opened Selection
  import opened Streams
  import opened Weights
  import opened Engine
  import opened Orders
  import opened EngineSize
  import opened Zip
  import opened Tlv
  import opened Wire
  import Marks

  class IterHeap {
    const k: Kind
    var ih: seq<Stream>

    constructor (k: Kind)
      ensures this.k == k && ih == []
    {
      this.k := k;
      ih := [];
    }

    method SwapAt(i: nat, j: nat)
      requires i < |ih| && j < |ih|
      modifies this`ih
      ensures ih == Swap(old(ih), i, j)
    {
      ih := ih[i := ih[j]][j := ih[i]];
    }

    method SiftUp(a0: nat)
      requires a0 < |ih|
      modifies this`ih
      ensures ih == Up(LessBy(k), old(ih), a0)
    {
      var a: nat := a0;
      while true
        invariant a < |ih| && Up(LessBy(k), ih, a) == Up(LessBy(k), old(ih), a0)
        decreases a
      {
        var b: nat := if a == 0 then 0 else (a - 1) / 2;
        if b == a || !LessBy(k)(ih[a], ih[b]) {
          break;
        }
        SwapAt(b, a);
        a := b;
      }
    }

    /** Adds a stream. */
    method Push(s: Stream)
      modifies this`ih
      ensures ih == Up(LessBy(k), old(ih) + [s], |old(ih)|)
    {
      ih := ih + [s];
      SiftUp(|ih| - 1);
    }

    method SiftDown(i0: nat)
      modifies this`ih
      ensures ih == Down(LessBy(k), old(ih), i0)
    {
      var n := |ih|;
      var i: nat := i0;
      while true
        invariant |ih| == n && Down(LessBy(k), ih, i) == Down(LessBy(k), old(ih), i0)
        decreases n - i
      {
        var j1 := 2 * i + 1;
        if j1 >= n {
          break;
        }
        var j := j1;
        var j2 := j1 + 1;
        if j2 < n && LessBy(k)(ih[j2], ih[j1]) {
          j := j2;
        }
        assert j == SmallerChild(LessBy(k), ih, i);
        if !LessBy(k)(ih[j], ih[i]) {
          break;
        }
        SwapAt(i, j);
        i := j;
      }
    }

    /** Brings the heads equal to the least one to the front; how many there are. */
    method GatherEqual() returns (eqs: nat)
      modifies this`ih
      ensures (ih, eqs) == EqUp(EqBy(k), old(ih))
    {
      if |ih| < 2 {
        return |ih|;
      }
      var q: seq<nat> := [1, 2];
      eqs := 1;
      while |q| > 0 && q[0] < |ih|
        invariant Gathers(k, old(ih), ih, q, eqs)
        decreases if q == [] || q[0] >= |ih| then 0 else |ih| - q[0]
      {
        var n := q[0];
        GathersStep(k, old(ih), ih, q, eqs);
        if EqBy(k)(ih[0], ih[n]) {
          var j1 := 2 * n + 1;
          q := (q + [j1, j1 + 1])[1..];
          SwapAt(eqs, n);
          eqs := eqs + 1;
        } else {
          q := q[1..];
        }
      }
    }

    method RemoveAt(i: nat)
      requires i < |ih|
      modifies this`ih
      ensures ih == Remove(k, old(ih), i)
    {
      var l := |ih| - 1;
      SwapAt(l, i);
      ih := ih[..l];
      if i < |ih| {
        SiftDown(i);
      }
    }

    /** Advances the first n iterators, the last of them first. */
    method Advance(n: nat)
      requires n <= |ih|
      modifies this`ih
      ensures ih == NextK(k, old(ih), n)
    {
      var i := n - 1;
      while i >= 0
        invariant -1 <= i < |ih|
        invariant NextK(k, ih, i + 1) == NextK(k, old(ih), n)
      {
        ghost var h := ih;
        if |ih[i]| > 1 {
          ih := ih[i := ih[i][1..]];
          SiftDown(i);
        } else {
          RemoveAt(i);
        }
        assert ih == StepAt(k, h, i);
        NextKUnfolds(k, h, i, ih);
        i := i - 1;
      }
    }

    /** The selection loop: the winners among the first e heads move to the front; their largest id. */
    method SelectWinners(e: nat) returns (eq: nat, id: ID)
      requires 0 < e <= |ih|
      modifies this`ih
      ensures eq <= |ih| && ih == Select(JUDGE_HEADS, old(ih)[..e]).heap + old(ih)[e..]
      ensures HeadsOf(old(ih)[..e]) != [] && HeadsOf(ih[..eq]) == Winners(HeadsOf(old(ih)[..e]))
      ensures id == MaxIDs(Winners(HeadsOf(old(ih)[..e])))
    {
      ghost var start := ih;
      var n: nat := e;
      eq, id := 1, ih[0][0].id;
      OneHead(ih);
      SplitAt(ih, e);
      var i: nat := 1;
      ghost var goal, rest := Select(JUDGE_HEADS, ih[..e]), ih[e..];
      while i < n
        invariant i <= n && Choosing(goal, rest, ih, e, n, eq, i) && FrontId(ih, eq, id)
        decreases n - i
      {
        TurnChooses(goal, rest, ih, e, n, eq, i);
        TurnKeepsId(ih, n, eq, i, id);
        eq, n, i, id := SelectNext(n, eq, i, id);
      }
      SelectedHeads(start, ih, e, eq, i);
    }

    /** One turn: the head at i takes over, drops out behind n, or joins the first eq. */
    method SelectNext(n: nat, eq: nat, i: nat, id: ID) returns (eq': nat, n': nat, i': nat, id': ID)
      requires 0 < eq <= i < n <= |ih|
      modifies this`ih
      ensures Turn(ih, n', eq', i') == Turned(JUDGE_HEADS, old(ih), n, eq, i) && id' == TurnedId(old(ih), eq, i, id)
    {
      var z := Judge(ih[0][0], ih[i][0]);
      eq', n', i', id' := eq, n, i, id;
      if z == Less {
        SwapAt(0, i);
        id' := ih[0][0].id;
        eq', i' := 1, i + 1;
      } else if z == Grtr {
        n' := n - 1;
        SwapAt(n', i);
      } else {
        SwapAt(eq, i);
        if id.LessThan(ih[eq][0].id) {
          id' := ih[eq][0].id;
        }
        eq', i' := eq + 1, i + 1;
      }
    }

    /** Moves the winners among the first e heads to the front and appends the record they merge to. */
    method MergeSameSpot(data: bytes, e: nat) returns (ret: bytes)
      requires 0 < e <= |ih|
      modifies this`ih
      ensures ih == Select(JUDGE_HEADS, old(ih)[..e]).heap + old(ih)[e..]
      ensures HeadsOf(old(ih)[..e]) != [] && ret == data + EncodeElem(SpotOf(HeadsOf(old(ih)[..e])))
      decreases WeightOf(HeadsOf(ih[..e])), 1
    {
      ghost var heads := HeadsOf(ih[..e]);
      var eq, id := SelectWinners(e);
      var eqs := FrontHeads(eq);
      WinnersAgree(heads);
      WinnersWeigh(heads);
      ret := WriteSpot(data, eqs, id);
    }

    method FrontHeads(n: nat) returns (heads: seq<Elem>)
      requires n <= |ih|
      ensures heads == HeadsOf(ih[..n])
    {
      heads := [];
      var j := 0;
      while j < n
        invariant 0 <= j <= n && heads == HeadsOf(ih[..j])
      {
        LiveGrows(ih[..j], ih[j]);
        TakeGrows(ih, j);
        heads := heads + [ih[j][0]];
        j := j + 1;
      }
    }

    /** Appends the merge of the minimal heads, advances exactly them, repairs the heap. */
    method MergeNext(data: bytes) returns (res: bytes)
      requires ih != []
      modifies this`ih
      ensures ih == NextHeap(k, old(ih))
      ensures res == data + EncodeElem(Emitted(k, old(ih)))
      ensures IsHeap(LessBy(k), old(ih)) && |old(ih)| <= 7 ==> IsHeap(LessBy(k), ih)
      decreases WeightAll(ih), 2
    {
      ghost var h := ih;
      if IsHeap(LessBy(k), h) && |h| <= 7 {
        RoundKeepsHeap(k, h);
      }
      RoundWeighs(k, h);
      var eqlen := GatherEqual();
      ghost var g := ih;
      HeadsWeigh(g[..eqlen]);
      assert Minimal(k, h) == g[..eqlen];
      if eqlen == 1 {
        OneHead(g);
        res := data + EncodeElem(ih[0][0]);
      } else {
        res := MergeSameSpot(data, eqlen);
      }
      assert ih == Mixed(g, eqlen);
      Advance(eqlen);
      if eqlen > 1 {
        SiftUpFrom(eqlen);
      }
    }

    method SiftUpFrom(n: nat)
      modifies this`ih
      ensures ih == UpAll(LessBy(k), old(ih), n)
    {
      var i: nat := n;
      while i < |ih|
        invariant UpAll(LessBy(k), ih, i) == UpAll(LessBy(k), old(ih), n)
      {
        SiftUp(i);
        i := i + 1;
      }
    }
  }

  /** The rest of the search from here gathers what the whole search gathers. */
  ghost predicate Gathers(k: Kind, orig: seq<Stream>, h: seq<Stream>, q: seq<nat>, eqs: nat) {
    && 0 < eqs <= |h| && IsQueue(q) && (q != [] ==> eqs <= q[0])
    && EqUpFrom(EqBy(k), h, q, eqs) == EqUp(EqBy(k), orig)
  }

  lemma GathersStep(k: Kind, orig: seq<Stream>, h: seq<Stream>, q: seq<nat>, eqs: nat)
    requires Gathers(k, orig, h, q, eqs) && q != [] && q[0] < |h|
    ensures var n := q[0];
            var q' := if EqBy(k)(h[0], h[n]) then (q + [2 * n + 1, 2 * n + 2])[1..] else q[1..];
            && (q' != [] ==> q'[0] > n)
            && if EqBy(k)(h[0], h[n]) then Gathers(k, orig, Swap(h, eqs, n), q', eqs + 1)
               else Gathers(k, orig, h, q', eqs)
  {
    GatherStep(EqBy(k), h, q, eqs);
  }

  lemma {:induction false} OneHead(h: seq<Stream>)
    requires h != []
    ensures HeadsOf(h[..1]) == [h[0][0]] && MaxIDs(HeadsOf(h[..1])) == h[0][0].id
  {
    assert HeadsOf(h[..1][..0]) == [];
  }

  // ---- the selection loop in the front of the heap

  /** The loop run on from here ends at the goal; what stands behind e stays. */
  ghost predicate Choosing(goal: Selected<Stream>, rest: seq<Stream>, h: seq<Stream>, e: nat, n: nat, eq: nat, i: nat) {
    0 < eq <= i <= n <= e <= |h| && h[e..] == rest && SelectFrom(JUDGE_HEADS, h[..e], n, eq, i) == goal
  }

  /** The largest id among the first eq heads. */
  ghost predicate FrontId(h: seq<Stream>, eq: nat, id: ID) {
    0 < eq <= |h| && HeadsOf(h[..eq]) != [] && id == MaxIDs(HeadsOf(h[..eq]))
  }

  lemma SwapKeepsFront<T>(h: seq<T>, a: nat, i: nat, eq: nat)
    requires eq <= a < |h| && eq <= i < |h|
    ensures Swap(h, a, i)[..eq] == h[..eq]
  {
  }

  lemma SwapInFront<T>(h: seq<T>, e: nat, i: nat, j: nat)
    requires i < e <= |h| && j < e
    ensures Swap(h, i, j)[..e] == Swap(h[..e], i, j) && Swap(h, i, j)[e..] == h[e..]
  {
  }

  /** The largest id after one turn. */
  function TurnedId(h: seq<Stream>, eq: nat, i: nat, id: ID): ID
    requires 0 < eq <= i < |h|
  {
    match Judge(h[0][0], h[i][0])
    case Less => h[i][0].id
    case Grtr => id
    case Eq => MaxID(id, h[i][0].id)
  }

  /** A turn in the front of the heap is a turn of the front. */
  lemma TurnInFront(h: seq<Stream>, e: nat, n: nat, eq: nat, i: nat)
    requires 0 < eq <= i < n <= e <= |h|
    ensures var t, f := Turned(JUDGE_HEADS, h, n, eq, i), Turned(JUDGE_HEADS, h[..e], n, eq, i);
            t.heap[..e] == f.heap && t.heap[e..] == h[e..] && t.n == f.n && t.eq == f.eq && t.i == f.i
  {
    assert h[..e][0] == h[0] && h[..e][i] == h[i];
    SwapInFront(h, e, match Judge(h[0][0], h[i][0]) { case Less => 0 case Grtr => n - 1 case Eq => eq }, i);
  }

  lemma TurnChooses(goal: Selected<Stream>, rest: seq<Stream>, h: seq<Stream>, e: nat, n: nat, eq: nat, i: nat)
    requires Choosing(goal, rest, h, e, n, eq, i) && i < n
    ensures var t := Turned(JUDGE_HEADS, h, n, eq, i); Choosing(goal, rest, t.heap, e, t.n, t.eq, t.i)
  {
    TurnInFront(h, e, n, eq, i);
  }

  lemma TurnKeepsId(h: seq<Stream>, n: nat, eq: nat, i: nat, id: ID)
    requires 0 < eq <= i < n <= |h| && FrontId(h, eq, id)
    ensures var t := Turned(JUDGE_HEADS, h, n, eq, i); FrontId(t.heap, t.eq, TurnedId(h, eq, i, id))
  {
    var t := Turned(JUDGE_HEADS, h, n, eq, i);
    match Judge(h[0][0], h[i][0])
    case Less => OneHead(t.heap);
    case Grtr => FrontIdStays(h, n - 1, i, eq, id);
    case Eq => FrontIdGrows(h, i, eq, id);
  }

  lemma FrontIdStays(h: seq<Stream>, n: nat, i: nat, eq: nat, id: ID)
    requires FrontId(h, eq, id) && eq <= i < |h| && eq <= n < |h|
    ensures FrontId(Swap(h, n, i), eq, id)
  {
    SwapKeepsFront(h, n, i, eq);
  }

  lemma FrontIdGrows(h: seq<Stream>, i: nat, eq: nat, id: ID)
    requires FrontId(h, eq, id) && eq <= i < |h|
    ensures FrontId(Swap(h, eq, i), eq + 1, MaxID(id, h[i][0].id))
  {
    SwapKeepsFront(h, eq, i, eq);
    FrontGrows(h, Swap(h, eq, i), eq);
  }

  lemma FrontGrows(h: seq<Stream>, g: seq<Stream>, eq: nat)
    requires 0 < eq < |h| && |g| == |h| && g[..eq] == h[..eq]
    ensures HeadsOf(g[..eq]) != [] && HeadsOf(g[..eq + 1]) == HeadsOf(g[..eq]) + [g[eq][0]]
    ensures HeadsOf(h[..eq]) != [] && MaxIDs(HeadsOf(g[..eq + 1])) == MaxID(MaxIDs(HeadsOf(h[..eq])), g[eq][0].id)
  {
    HeadsWeigh(g[..eq]);
    TakeGrows(g, eq);
    LiveGrows(g[..eq], g[eq]);
    var heads := HeadsOf(g[..eq]);
    assert (heads + [g[eq][0]])[..|heads|] == heads;
  }

  /** Selecting among streams is selecting among their heads. */
  lemma {:induction false} SelectHeads(h: seq<Stream>, hs: seq<Elem>, n: nat, eq: nat, i: nat)
    requires 0 < eq <= i <= n <= |h| && AreHeads(h, hs)
    ensures AreHeads(SelectFrom(JUDGE_HEADS, h, n, eq, i).heap, SelectFrom(JUDGE, hs, n, eq, i).heap)
    ensures SelectFrom(JUDGE_HEADS, h, n, eq, i).eq == SelectFrom(JUDGE, hs, n, eq, i).eq
    decreases n - i
  {
    if i < n {
      var t, u := Turned(JUDGE_HEADS, h, n, eq, i), Turned(JUDGE, hs, n, eq, i);
      TurnHeads(h, hs, n, eq, i);
      SelectHeads(t.heap, u.heap, t.n, t.eq, t.i);
    }
  }

  lemma TurnHeads(h: seq<Stream>, hs: seq<Elem>, n: nat, eq: nat, i: nat)
    requires 0 < eq <= i < n <= |h| && AreHeads(h, hs)
    ensures var t, u := Turned(JUDGE_HEADS, h, n, eq, i), Turned(JUDGE, hs, n, eq, i);
            AreHeads(t.heap, u.heap) && t.n == u.n && t.eq == u.eq && t.i == u.i
  {
    SwapHeads(h, hs, match Judge(h[0][0], h[i][0]) { case Less => 0 case Grtr => n - 1 case Eq => eq }, i);
  }

  lemma SwapHeads(h: seq<Stream>, hs: seq<Elem>, i: nat, j: nat)
    requires AreHeads(h, hs) && i < |h| && j < |h|
    ensures AreHeads(Swap(h, i, j), Swap(hs, i, j))
  {
  }

  predicate AreHeads(h: seq<Stream>, hs: seq<Elem>) { |hs| == |h| && forall i | 0 <= i < |h| :: hs[i] == h[i][0] }

  lemma {:induction false} HeadsAreHeads(h: seq<Stream>, hs: seq<Elem>)
    ensures AreHeads(h, hs) <==> HeadsOf(h) == hs
    decreases |h|
  {
    if h != [] {
      var n := |h| - 1;
      HeadsAreHeads(h[..n], HeadsOf(h[..n]));
      assert AreHeads(h, HeadsOf(h));
      if AreHeads(h, hs) {
        assert hs == HeadsOf(h);
      }
    }
  }

  lemma FrontOfFront<T>(h: seq<T>, e: nat, eq: nat)
    requires eq <= e <= |h|
    ensures h[..e][..eq] == h[..eq]
  {
  }

  lemma SelectedHeads(start: seq<Stream>, h: seq<Stream>, e: nat, eq: nat, i: nat)
    requires 0 < e <= |start| && |h| == |start| && Choosing(Select(JUDGE_HEADS, start[..e]), start[e..], h, e, i, eq, i)
    ensures h == Select(JUDGE_HEADS, start[..e]).heap + start[e..]
    ensures HeadsOf(start[..e]) != [] && Winners(HeadsOf(start[..e])) == HeadsOf(h[..eq])
  {
    var f := start[..e];
    SplitAt(h, e);
    FrontOfFront(h, e, eq);
    FrontWins(f, h[..eq]);
  }

  lemma {:induction false} FrontWins(f: seq<Stream>, front: seq<Stream>)
    requires f != [] && var r := Select(JUDGE_HEADS, f); front == r.heap[..r.eq]
    ensures HeadsOf(f) != [] && Winners(HeadsOf(f)) == HeadsOf(front)
  {
    var hs := HeadsOf(f);
    HeadsWeigh(f);
    HeadsAreHeads(f, hs);
    SelectHeads(f, hs, |f|, 1, 1);
    HeadsAreHeads(front, Winners(hs));
  }

  // ---- one record from the winners

  predicate SameType(vals: seq<Prim>) { forall v, u | v in vals && u in vals :: PrimLit(v) == PrimLit(u) }

  /** No value is above it, and all values before it are below it. */
  ghost predicate IsFirstMaximum(vals: seq<Prim>, j: nat)
    requires j < |vals|
  {
    forall i | 0 <= i < |vals| :: if i < j then IsBelow(vals[i], vals[j]) else !IsBelow(vals[j], vals[i])
  }

  predicate ComparesFirst(vals: seq<Prim>, j: nat)
    requires j < |vals|
  {
    forall i | 0 <= i < |vals| ::
      if i < j then ComparePrim(vals[i], vals[j]) == Less else ComparePrim(vals[j], vals[i]) != Less
  }

  lemma ComparesFirstIsMaximum(vals: seq<Prim>, j: nat)
    requires SameType(vals) && j < |vals| && ComparesFirst(vals, j)
    ensures IsFirstMaximum(vals, j)
  {
    forall i | 0 <= i < |vals| ensures if i < j then IsBelow(vals[i], vals[j]) else !IsBelow(vals[j], vals[i]) {
      assert vals[i] in vals && vals[j] in vals;
      ComparePrimIff(vals[i], vals[j]);
      ComparePrimIff(vals[j], vals[i]);
    }
  }

  /** The largest of the values, the first one on a tie. */
  method MergeValuesOf(vals: seq<Prim>) returns (win: Prim)
    requires vals != []
    ensures win == Largest(vals)
    ensures SameType(vals) ==> exists j :: 0 <= j < |vals| && IsFirstMaximum(vals, j) && win == vals[j]
  {
    win := vals[0];
    var i := 0;
    while i < |vals|
      invariant 0 <= i <= |vals|
      invariant if i == 0 then win == vals[0] else win == Largest(vals[..i])
    {
      var n := vals[i];
      if i > 0 {
        LargestGrows(vals[..i], n);
      }
      TakeGrows(vals, i);
      if i == 0 || ComparePrim(win, n) == Less {
        win := n;
      }
      i := i + 1;
    }
    assert vals[..i] == vals;
    if SameType(vals) {
      var j := LargestIsFirst(vals);
      ComparesFirstIsMaximum(vals, j);
    }
  }

  lemma {:induction false} LargestIsFirst(vals: seq<Prim>) returns (j: nat)
    requires vals != [] && SameType(vals)
    ensures j < |vals| && Largest(vals) == vals[j] && ComparesFirst(vals, j)
    decreases |vals|
  {
    var n := |vals| - 1;
    PrimsTransitive(vals[0], vals[0], vals[0]);
    if n == 0 {
      j := 0;
    } else {
      var front, last := vals[..n], vals[n];
      assert forall v | v in front :: v in vals;
      var i := LargestIsFirst(front);
      j := if ComparePrim(vals[i], last) == Less then n else i;
      SplitLast(vals);
      forall m | 0 <= m < |vals|
        ensures if m < j then ComparePrim(vals[m], vals[j]) == Less else ComparePrim(vals[j], vals[m]) != Less
      {
        assert vals[m] in vals && vals[i] in vals && last in vals;
        PrimsTransitive(vals[m], vals[i], last);
        ComparePrimFlips(vals[m], vals[i]);
        if m < n {
          assert front[m] == vals[m] && front[i] == vals[i];
        }
      }
    }
  }

  /** Not below is transitive among values of one type. */
  lemma PrimsTransitive(v: Prim, u: Prim, t: Prim)
    requires PrimLit(v) == PrimLit(u) == PrimLit(t)
    ensures ComparePrim(u, v) != Less && ComparePrim(u, t) == Less ==> ComparePrim(v, t) == Less && ComparePrim(t, v) != Less
    ensures ComparePrim(t, t) == Eq
  {
    var a, b, c := First(ID0, v), First(ID0, u), First(ID0, t);
    ValueOrderIsKeyOrder(a, b);
    ValueOrderIsKeyOrder(b, a);
    ValueOrderIsKeyOrder(b, c);
    ValueOrderIsKeyOrder(c, a);
    ValueOrderIsKeyOrder(c, c);
    KeysAreTotallyOrdered(ValueKey(b), ValueKey(a));
    KeysAreTotallyOrdered(ValueKey(c), ValueKey(c));
    ComparePrimFlips(v, t);
    ValueOrderIsKeyOrder(a, c);
    if Below(ValueKey(a), ValueKey(b)) && Below(ValueKey(b), ValueKey(c)) {
      KeysTransitive(ValueKey(a), ValueKey(b), ValueKey(c));
    }
  }

  /** Appends one record under a mark: header, largest id, largest value or merged contents. */
  method WriteSpot(data: bytes, eqs: seq<Elem>, id: ID) returns (ret: bytes)
    requires OneType(eqs) && id == MaxIDs(eqs)
    ensures ret == data + EncodeElem(ClassMerged(eqs))
    decreases WeightOf(eqs), 0
  {
    var lit := Lit(eqs[0]);
    var buf := new Marks.TlvBuffer();
    buf.data := data;
    buf.OpenTLV(lit);
    var key := ZipID(id);
    buf.data := buf.data + [|key| as byte] + key;
    ghost var head := buf.data;
    var full := WriteValue(buf.data, eqs);
    buf.data := full;
    ClassKeepsType(eqs);
    SpotCloses(data, ClassMerged(eqs), head, full, buf.stack[|buf.stack| - 1]);
    var ok := buf.CloseTLV(lit);
    ret := buf.data;
  }

  lemma {:induction false} ClassKeepsType(es: seq<Elem>)
    requires OneType(es)
    ensures Lit(ClassMerged(es)) == Lit(es[0]) && ClassMerged(es).id == MaxIDs(es)
  {
    if es[0].First? {
      forall v | v in ValuesOf(es) ensures PrimLit(v) == Lit(es[0]) { ValuesComeFrom(es, v); }
      var j := LargestIsFirst(ValuesOf(es));
    }
  }

  lemma {:induction false} ValuesComeFrom(es: seq<Elem>, v: Prim)
    requires (forall e | e in es :: e.First?) && v in ValuesOf(es)
    ensures exists e | e in es :: e.val == v
    decreases |es|
  {
    var n := |es| - 1;
    if es[n].val != v {
      ValuesComeFrom(es[..n], v);
    }
  }

  lemma {:induction false} SpotCloses(data: bytes, e: Elem, head: bytes, full: bytes, mark: Marks.Mark)
    requires mark == Marks.OpenMark(data, Lit(e), false)
    requires head == data + Marks.OpenHeader(Lit(e), false) + [|ZipID(e.id)| as byte] + ZipID(e.id)
    requires full == head + Payload(e)
    ensures Marks.Closed(full, mark, Lit(e)) == Marks.Ok(data + EncodeElem(e))
  {
    var body := Body(ZipID(e.id), Payload(e));
    assert full == data + Marks.OpenHeader(Lit(e), false) + body;
    Marks.CloseMakesRecord(data, Lit(e), false, body, mark);
    ElemIsTLV(e);
  }

  /** The payload: values compete, contents merge. */
  method WriteValue(data: bytes, eqs: seq<Elem>) returns (ret: bytes)
    requires OneType(eqs)
    ensures ret == data + Payload(ClassMerged(eqs))
    decreases WeightOf(eqs), 0, 0
  {
    if eqs[0].First? {
      var vals: seq<Prim> := [];
      var j := 0;
      while j < |eqs|
        invariant 0 <= j <= |eqs| && vals == ValuesOf(eqs[..j])
      {
        TakeGrows(eqs, j);
        assert (eqs[..j] + [eqs[j]])[..j] == eqs[..j];
        vals := vals + [eqs[j].val];
        j := j + 1;
      }
      assert eqs[..j] == eqs;
      var v := MergeValuesOf(vals);
      ret := data + PrimBytes(v);
    } else {
      var vals: seq<Doc> := [];
      var j := 0;
      while j < |eqs|
        invariant 0 <= j <= |eqs| && vals == KidsOf(eqs[..j])
      {
        TakeGrows(eqs, j);
        assert (eqs[..j] + [eqs[j]])[..j] == eqs[..j];
        vals := vals + [eqs[j].kids];
        j := j + 1;
      }
      assert eqs[..j] == eqs;
      KidsWeigh(eqs);
      ret := HeapMerge(data, eqs[0].kind, vals);
    }
  }

  /** A heap over the nonempty inputs. */
  method Heapize(k: Kind, inputs: seq<Doc>) returns (heap: IterHeap)
    ensures fresh(heap) && heap.k == k && heap.ih == Heapized(k, inputs)
    ensures IsHeap(LessBy(k), heap.ih) && multiset(heap.ih) == multiset(NonEmpty(inputs))
  {
    heap := new IterHeap(k);
    var i := 0;
    while i < |inputs|
      invariant 0 <= i <= |inputs| && heap.k == k && heap.ih == Heapized(k, inputs[..i])
    {
      if inputs[i] != [] {
        var s: Stream := inputs[i];
        InputPushed(k, inputs, i, s);
        heap.Push(s);
      } else {
        InputSkipped(k, inputs, i);
      }
      i := i + 1;
    }
    assert inputs[..i] == inputs;
    HeapizedHolds(k, inputs);
  }

  lemma {:induction false} InputPushed(k: Kind, inputs: seq<Doc>, i: nat, s: Stream)
    requires i < |inputs| && inputs[i] == s
    ensures var h := Heapized(k, inputs[..i]); Heapized(k, inputs[..i + 1]) == Up(LessBy(k), h + [s], |h|)
  {
    TakeGrows(inputs, i);
    HeapizedPushes(k, inputs[..i], s);
  }

  lemma {:induction false} InputSkipped(k: Kind, inputs: seq<Doc>, i: nat)
    requires i < |inputs| && inputs[i] == []
    ensures Heapized(k, inputs[..i + 1]) == Heapized(k, inputs[..i])
  {
    TakeGrows(inputs, i);
    HeapizedSkips(k, inputs[..i]);
  }

  /** Appends the merge of any inputs; of up to seven that belong together, it is the folded two-way merge. */
  method HeapMerge(data: bytes, k: Kind, inputs: seq<Doc>) returns (res: bytes)
    ensures res == data + EncodeDoc(HeapMerged(k, inputs))
    ensures forall w, c, q :: Mergeable(w, c, k, q, inputs) ==> HeapMerged(k, inputs) == FoldMerge(k, inputs)
    decreases WeightAll(inputs), 3
  {
    var heap := Heapize(k, inputs);
    res := data;
    HeapizedWeighs(k, inputs);
    while |heap.ih| > 0
      invariant heap.k == k && WeightAll(heap.ih) <= WeightAll(inputs)
      invariant res + EncodeDoc(RunHeap(k, heap.ih)) == data + EncodeDoc(HeapMerged(k, inputs))
      decreases WeightAll(heap.ih)
    {
      RoundWeighs(k, heap.ih);
      RoundWrites(k, heap.ih, res);
      res := heap.MergeNext(res);
    }
    assert res + [] == res;
    forall w, c, q | Mergeable(w, c, k, q, inputs) ensures HeapMerged(k, inputs) == FoldMerge(k, inputs) {
      MergedIsFold(w, c, k, q, inputs);
    }
  }

  lemma {:induction false} RoundWrites(k: Kind, h: seq<Stream>, res: bytes)
    requires h != []
    ensures res + EncodeDoc(RunHeap(k, h)) == res + EncodeElem(Emitted(k, h)) + EncodeDoc(RunHeap(k, NextHeap(k, h)))
  {
    RunWrites(k, h);
    Associates(res, EncodeElem(Emitted(k, h)), EncodeDoc(RunHeap(k, NextHeap(k, h))));
  }
}
