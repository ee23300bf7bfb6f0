/** Binary heaps stored in sequences: sifting up and down, and gathering the minimal elements. */
module Heaps {
  import opened Seqs

  /** A strict weak order. */
  ghost predicate Orders<T(!new)>(less: (T, T) -> bool) {
    && (forall x, y | less(x, y) :: !less(y, x))
    && (forall x, y, z | less(x, z) :: less(x, y) || less(y, z))
  }

  function Parent(c: nat): nat
    requires c > 0
  {
    (c - 1) / 2
  }

  function Swap<T>(h: seq<T>, i: nat, j: nat): (r: seq<T>)
    requires i < |h| && j < |h|
    ensures |r| == |h|
  {
    h[i := h[j]][j := h[i]]
  }

  lemma SwapPermutes<T>(h: seq<T>, i: nat, j: nat)
    requires i < |h| && j < |h|
    ensures multiset(Swap(h, i, j)) == multiset(h)
  {
  }

  /** Sift up from position a. */
  function Up<T>(less: (T, T) -> bool, h: seq<T>, a: nat): (r: seq<T>)
    requires a < |h|
    ensures |r| == |h|
    decreases a
  {
    if a == 0 || !less(h[a], h[Parent(a)]) then h
    else Up(less, Swap(h, Parent(a), a), Parent(a))
  }

  /** The smaller child of i, the left one on a tie. */
  function SmallerChild<T>(less: (T, T) -> bool, h: seq<T>, i: nat): nat
    requires 2 * i + 1 < |h|
  {
    if 2 * i + 2 < |h| && less(h[2 * i + 2], h[2 * i + 1]) then 2 * i + 2 else 2 * i + 1
  }

  /** Sift down from position i. */
  function Down<T>(less: (T, T) -> bool, h: seq<T>, i: nat): (r: seq<T>)
    ensures |r| == |h|
    decreases |h| - i
  {
    if 2 * i + 1 >= |h| then h
    else
      var j := SmallerChild(less, h, i);
      if !less(h[j], h[i]) then h else Down(less, Swap(h, i, j), j)
  }

  // ---- sifting only permutes

  lemma LastMoved<T>(h: seq<T>, i: nat)
    requires i < |h|
    ensures var g := Swap(h, |h| - 1, i)[..|h| - 1];
            g[..i] == h[..i] && multiset(g[i..]) == multiset(h[i + 1..])
  {
    var l := |h| - 1;
    var g := Swap(h, l, i)[..l];
    if i < l {
      assert g[i..] == [h[l]] + h[i + 1..l];
      assert h[i + 1..] == h[i + 1..l] + [h[l]];
    } else {
      assert g[i..] == [] && h[i + 1..] == [];
    }
  }

  lemma {:induction false} UpPermutes<T>(less: (T, T) -> bool, h: seq<T>, a: nat)
    requires a < |h|
    ensures multiset(Up(less, h, a)) == multiset(h)
    decreases a
  {
    if a > 0 && less(h[a], h[Parent(a)]) {
      UpPermutes(less, Swap(h, Parent(a), a), Parent(a));
    }
  }

  lemma {:induction false} UpAllPermutes<T>(less: (T, T) -> bool, h: seq<T>, i: nat)
    ensures multiset(UpAll(less, h, i)) == multiset(h)
    decreases |h| - i
  {
    if i < |h| {
      UpPermutes(less, h, i);
      UpAllPermutes(less, Up(less, h, i), i + 1);
    }
  }

  /** Sifting down from i stays at or after i. */
  lemma {:induction false} DownPermutes<T>(less: (T, T) -> bool, h: seq<T>, i: nat)
    ensures multiset(Down(less, h, i)) == multiset(h)
    ensures forall j | 0 <= j < i < |h| :: Down(less, h, i)[j] == h[j]
    decreases |h| - i
  {
    if 2 * i + 1 < |h| {
      var j := SmallerChild(less, h, i);
      if less(h[j], h[i]) {
        DownPermutes(less, Swap(h, i, j), j);
      }
    }
  }

  lemma {:induction false} EqUpFromPermutes<T>(eq: (T, T) -> bool, h: seq<T>, q: seq<nat>, eqs: nat)
    requires 0 < eqs <= |h| && (q != [] ==> eqs <= q[0]) && IsQueue(q)
    ensures multiset(EqUpFrom(eq, h, q, eqs).0) == multiset(h)
    decreases if q == [] || q[0] >= |h| then 0 else |h| - q[0]
  {
    if q != [] && q[0] < |h| {
      var n := q[0];
      assert forall i | 0 < i < |q[1..]| :: q[1..][i - 1] < q[1..][i];
      if eq(h[0], h[n]) {
        var q' := q[1..] + [2 * n + 1, 2 * n + 2];
        assert q' != [] && q'[0] > n && q'[|q'| - 1] <= 2 * q'[0];
        SwapPermutes(h, eqs, n);
        EqUpFromPermutes(eq, Swap(h, eqs, n), q', eqs + 1);
      } else {
        EqUpFromPermutes(eq, h, q[1..], eqs);
      }
    }
  }

  lemma EqUpPermutes<T>(eq: (T, T) -> bool, h: seq<T>)
    ensures multiset(EqUp(eq, h).0) == multiset(h)
  {
    if |h| >= 2 {
      EqUpFromPermutes(eq, h, [1, 2], 1);
    }
  }

  predicate Fine<T>(less: (T, T) -> bool, h: seq<T>, c: nat)
    requires c < |h|
  {
    c == 0 || !less(h[c], h[Parent(c)])
  }

  /** The first n positions form a heap. */
  ghost predicate HeapTo<T>(less: (T, T) -> bool, h: seq<T>, n: nat)
    requires n <= |h|
  {
    forall c | 0 <= c < n :: Fine(less, h, c)
  }

  ghost predicate IsHeap<T>(less: (T, T) -> bool, h: seq<T>) { HeapTo(less, h, |h|) }

  /** A heap but for the nodes in `bad`: they may be out of order with parent and children. */
  ghost predicate HeapBut<T>(less: (T, T) -> bool, h: seq<T>, bad: set<nat>) {
    forall c | 0 < c < |h| :: Loose(bad, c) || Fine(less, h, c)
  }

  ghost predicate Loose(bad: set<nat>, c: nat)
    requires c > 0
  {
    c in bad || Parent(c) in bad
  }

  lemma {:induction false} MinOfHeap<T(!new)>(less: (T, T) -> bool, h: seq<T>, c: nat)
    requires Orders(less) && IsHeap(less, h) && c < |h|
    ensures !less(h[c], h[0])
  {
    if c > 0 {
      assert Fine(less, h, c);
      MinOfHeap(less, h, Parent(c));
    }
  }

  // ---- sifting up

  /** Sifting up position a repairs a heap whose only flaw is a against its parent. */
  lemma {:induction false} UpRepairs<T(!new)>(less: (T, T) -> bool, h: seq<T>, a: nat, n: nat)
    requires Orders(less) && a < n <= |h|
    requires forall c | 0 <= c < n && c != a :: Fine(less, h, c)
    requires a > 0 ==> forall c | 0 < c < n && Parent(c) == a :: !less(h[c], h[Parent(a)])
    ensures HeapTo(less, Up(less, h, a), n)
    ensures forall j | n <= j < |h| :: Up(less, h, a)[j] == h[j]
    decreases a
  {
    if a > 0 && less(h[a], h[Parent(a)]) {
      var b := Parent(a);
      var g := Swap(h, b, a);
      forall c | 0 <= c < n && c != b ensures Fine(less, g, c) {
        assert Fine(less, h, c) || c == a;
      }
      if b > 0 {
        assert Fine(less, h, b);
        forall c | 0 < c < n && Parent(c) == b ensures !less(g[c], g[Parent(b)]) {
          assert c != a ==> Fine(less, h, c);
        }
      }
      UpRepairs(less, g, b, n);
    }
  }

  /** Sifting up every position from i on. */
  function UpAll<T>(less: (T, T) -> bool, h: seq<T>, i: nat): (r: seq<T>)
    ensures |r| == |h|
    decreases |h| - i
  {
    if i >= |h| then h else UpAll(less, Up(less, h, i), i + 1)
  }

  lemma {:induction false} UpAllMakesHeap<T(!new)>(less: (T, T) -> bool, h: seq<T>, i: nat)
    requires Orders(less) && (i <= |h| ==> HeapTo(less, h, i)) && (i > |h| ==> IsHeap(less, h))
    ensures IsHeap(less, UpAll(less, h, i))
    decreases |h| - i
  {
    if i < |h| {
      UpRepairs(less, h, i, i + 1);
      UpAllMakesHeap(less, Up(less, h, i), i + 1);
    }
  }

  // ---- sifting down

  ghost predicate FineBelow<T>(less: (T, T) -> bool, h: seq<T>, i: nat, bad: set<nat>) {
    forall c | 0 < c < |h| :: Loose(bad, c) || Parent(c) == i || Fine(less, h, c)
  }

  /** The parent of i is not above the children of i. */
  ghost predicate Gap<T>(less: (T, T) -> bool, h: seq<T>, i: nat, bad: set<nat>)
    requires i < |h|
  {
    i > 0 && !Loose(bad, i) ==>
      forall c | 0 < c < |h| && Parent(c) == i && c !in bad :: !less(h[c], h[Parent(i)])
  }

  /** Bad nodes hang from bad nodes, or from above i, or from i itself when that cannot hurt. */
  ghost predicate Hangs(bad: set<nat>, i: nat) {
    forall b | b in bad && b > 0 ::
      Parent(b) in bad || Parent(b) < i || (Parent(b) == i && (i == 0 || Loose(bad, i)))
  }

  lemma {:induction false} DownRepairsFrom<T(!new)>(less: (T, T) -> bool, h: seq<T>, i: nat, bad: set<nat>)
    requires Orders(less) && i < |h|
    requires FineBelow(less, h, i, bad) && Gap(less, h, i, bad) && Hangs(bad, i)
    ensures HeapBut(less, Down(less, h, i), bad)
    decreases |h| - i
  {
    if 2 * i + 1 < |h| {
      var j := SmallerChild(less, h, i);
      if less(h[j], h[i]) {
        var g := Swap(h, i, j);
        forall c | 0 < c < |h| ensures Loose(bad, c) || Parent(c) == j || Fine(less, g, c) {
          assert Loose(bad, c) || Parent(c) == i || Fine(less, h, c);
        }
        assert Gap(less, g, j, bad) by {
          if j !in bad && i !in bad {
            forall c | 0 < c < |h| && Parent(c) == j && c !in bad ensures !less(g[c], g[i]) {
              assert Fine(less, h, c);
            }
          }
        }
        DownRepairsFrom(less, g, j, bad);
      }
    }
  }

  /** Sifting down position i repairs a heap that is flawed at i and in `bad` only. */
  lemma {:induction false} DownRepairs<T(!new)>(less: (T, T) -> bool, h: seq<T>, i: nat, bad: set<nat>)
    requires Orders(less) && HeapBut(less, h, bad + {i})
    requires i == 0 || Parent(i) in bad
    requires Hangs(bad, i)
    ensures HeapBut(less, Down(less, h, i), bad)
  {
    if i < |h| {
      DownRepairsFrom(less, h, i, bad);
    } else {
      assert Down(less, h, i) == h;
    }
  }

  // ---- gathering the minimal elements

  /** The breadth-first queue: positions yet to visit, children of minimal positions. */
  predicate IsQueue(q: seq<nat>) {
    q != [] ==> q[0] > 0 && q[|q| - 1] <= 2 * q[0] && forall i | 0 < i < |q| :: q[i - 1] < q[i]
  }

  function EqUpFrom<T>(eq: (T, T) -> bool, h: seq<T>, q: seq<nat>, eqs: nat): (r: (seq<T>, nat))
    requires 0 < eqs <= |h| && (q != [] ==> eqs <= q[0]) && IsQueue(q)
    ensures |r.0| == |h| && eqs <= r.1 <= |h|
    decreases if q == [] || q[0] >= |h| then 0 else |h| - q[0]
  {
    if q == [] || q[0] >= |h| then (h, eqs)
    else
      var n := q[0];
      if eq(h[0], h[n]) then
        var q' := q[1..] + [2 * n + 1, 2 * n + 2];
        assert forall i | 0 < i < |q[1..]| :: q[1..][i - 1] < q[1..][i];
        assert q' != [] && q'[0] > n && q'[|q'| - 1] <= 2 * q'[0];
        EqUpFrom(eq, Swap(h, eqs, n), q', eqs + 1)
      else
        assert forall i | 0 < i < |q[1..]| :: q[1..][i - 1] < q[1..][i];
        EqUpFrom(eq, h, q[1..], eqs)
  }

  /** One visit of the breadth-first search. */
  lemma GatherStep<T>(eq: (T, T) -> bool, h: seq<T>, q: seq<nat>, eqs: nat)
    requires 0 < eqs <= |h| && IsQueue(q) && q != [] && eqs <= q[0] < |h|
    ensures
      var n := q[0];
      var q' := if eq(h[0], h[n]) then (q + [2 * n + 1, 2 * n + 2])[1..] else q[1..];
      var e' := if eq(h[0], h[n]) then eqs + 1 else eqs;
      && IsQueue(q') && e' <= |h| && (q' != [] ==> e' <= q'[0] && q'[0] > n)
      && EqUpFrom(eq, h, q, eqs) == EqUpFrom(eq, if eq(h[0], h[n]) then Swap(h, eqs, n) else h, q', e')
  {
    var n := q[0];
    assert forall i | 0 < i < |q[1..]| :: q[1..][i - 1] < q[1..][i];
    assert (q + [2 * n + 1, 2 * n + 2])[1..] == q[1..] + [2 * n + 1, 2 * n + 2];
  }

  /** Moves the elements equal to the top to the front; how many there are. */
  function EqUp<T>(eq: (T, T) -> bool, h: seq<T>): (r: (seq<T>, nat))
    ensures |r.0| == |h| && r.1 <= |h| && (h != [] ==> r.1 > 0)
  {
    if |h| < 2 then (h, |h|) else EqUpFrom(eq, h, [1, 2], 1)
  }

  /** `eq` is the equivalence that comes with the order. */
  ghost predicate Ties<T(!new)>(less: (T, T) -> bool, eq: (T, T) -> bool) {
    forall x, y :: eq(x, y) <==> !less(x, y) && !less(y, x)
  }

  ghost predicate Front<T>(less: (T, T) -> bool, eq: (T, T) -> bool, h: seq<T>, e: nat, n: nat) {
    && 0 < e <= n && e <= |h|
    && (forall j | 0 <= j < e :: eq(h[0], h[j]))
    && (forall j | e <= j < n && j < |h| :: less(h[0], h[j]))
  }

  /** Every minimal position from cur on is queued or hangs from a position from cur on. */
  ghost predicate Covered<T>(eq: (T, T) -> bool, orig: seq<T>, q: seq<nat>, cur: nat) {
    forall p | 0 < p < |orig| && p >= cur && eq(orig[0], orig[p]) :: p in q || Parent(p) >= cur
  }

  lemma {:induction false} NothingSkipped<T(!new)>(less: (T, T) -> bool, eq: (T, T) -> bool, orig: seq<T>, q: seq<nat>, cur: nat, p: nat)
    requires Orders(less) && Ties(less, eq) && IsHeap(less, orig) && Covered(eq, orig, q, cur)
    requires 0 < cur <= p < |orig| && forall i | 0 <= i < |q| :: p < q[i]
    ensures less(orig[0], orig[p])
  {
    MinOfHeap(less, orig, p);
    assert Fine(less, orig, p);
    if eq(orig[0], orig[p]) {
      assert p !in q;
      assert Parent(p) >= cur;
      NothingSkipped(less, eq, orig, q, cur, Parent(p));
    }
  }

  lemma {:induction false} QueueIsSorted(q: seq<nat>, i: nat)
    requires IsQueue(q) && i < |q|
    ensures q[0] <= q[i] && (i > 0 ==> q[0] < q[i])
  {
    if i > 0 {
      QueueIsSorted(q, i - 1);
    }
  }

  /** What holds between two visits: the front is gathered, the rest is as it was. */
  ghost predicate Gathering<T(!new)>(less: (T, T) -> bool, eq: (T, T) -> bool, orig: seq<T>, h: seq<T>, q: seq<nat>, eqs: nat, cur: nat) {
    && |h| == |orig| > 0 && IsQueue(q) && (q != [] ==> cur <= q[0]) && Covered(eq, orig, q, cur)
    && Front(less, eq, h, eqs, cur) && h[0] == orig[0]
    && forall j | cur <= j < |h| :: h[j] == orig[j]
  }

  lemma {:induction false} EqUpSplitsFrom<T(!new)>(less: (T, T) -> bool, eq: (T, T) -> bool, orig: seq<T>, h: seq<T>, q: seq<nat>, eqs: nat, cur: nat)
    requires Orders(less) && Ties(less, eq) && IsHeap(less, orig)
    requires Gathering(less, eq, orig, h, q, eqs, cur)
    ensures var (h', e) := EqUpFrom(eq, h, q, eqs); Front(less, eq, h', e, |h| + e) && h'[0] == h[0]
    decreases if q == [] || q[0] >= |h| then 0 else |h| - q[0]
  {
    forall p | cur <= p < |h| && (q != [] ==> p < q[0]) ensures less(h[0], h[p]) {
      forall i | 0 <= i < |q| ensures p < q[i] { QueueIsSorted(q, i); }
      NothingSkipped(less, eq, orig, q, cur, p);
    }
    if q != [] && q[0] < |h| {
      if eq(h[0], h[q[0]]) {
        VisitEqual(less, eq, orig, h, q, eqs, cur);
        EqUpSplitsFrom(less, eq, orig, Swap(h, eqs, q[0]), q[1..] + [2 * q[0] + 1, 2 * q[0] + 2], eqs + 1, q[0] + 1);
      } else {
        VisitOther(less, eq, orig, h, q, eqs, cur);
        EqUpSplitsFrom(less, eq, orig, h, q[1..], eqs, q[0] + 1);
      }
    }
  }

  lemma VisitEqual<T(!new)>(less: (T, T) -> bool, eq: (T, T) -> bool, orig: seq<T>, h: seq<T>, q: seq<nat>, eqs: nat, cur: nat)
    requires Orders(less) && Ties(less, eq) && IsHeap(less, orig)
    requires Gathering(less, eq, orig, h, q, eqs, cur) && q != [] && q[0] < |h| && eq(h[0], h[q[0]])
    requires forall p | cur <= p < q[0] :: less(h[0], h[p])
    ensures Gathering(less, eq, orig, Swap(h, eqs, q[0]), q[1..] + [2 * q[0] + 1, 2 * q[0] + 2], eqs + 1, q[0] + 1)
  {
    var n := q[0];
    assert forall i | 0 < i < |q[1..]| :: q[1..][i - 1] < q[1..][i];
    var q' := q[1..] + [2 * n + 1, 2 * n + 2];
    forall p | 0 < p < |orig| && p >= n + 1 && eq(orig[0], orig[p]) ensures p in q' || Parent(p) >= n + 1 {
      CoverNext(less, eq, orig, q, cur, p);
      assert p in q[1..] ==> p in q';
      assert q'[|q'| - 2] == 2 * n + 1 && q'[|q'| - 1] == 2 * n + 2;
    }
  }

  lemma VisitOther<T(!new)>(less: (T, T) -> bool, eq: (T, T) -> bool, orig: seq<T>, h: seq<T>, q: seq<nat>, eqs: nat, cur: nat)
    requires Orders(less) && Ties(less, eq) && IsHeap(less, orig)
    requires Gathering(less, eq, orig, h, q, eqs, cur) && q != [] && q[0] < |h| && !eq(h[0], h[q[0]])
    requires forall p | cur <= p < q[0] :: less(h[0], h[p])
    ensures Gathering(less, eq, orig, h, q[1..], eqs, q[0] + 1)
  {
    var n := q[0];
    assert forall i | 0 < i < |q[1..]| :: q[1..][i - 1] < q[1..][i];
    MinOfHeap(less, orig, n);
    forall p | 0 < p < |orig| && p >= n + 1 && eq(orig[0], orig[p]) ensures p in q[1..] || Parent(p) >= n + 1 {
      CoverNext(less, eq, orig, q, cur, p);
      assert Fine(less, orig, p);
    }
  }

  lemma CoverNext<T(!new)>(less: (T, T) -> bool, eq: (T, T) -> bool, orig: seq<T>, q: seq<nat>, cur: nat, p: nat)
    requires Orders(less) && Ties(less, eq) && IsHeap(less, orig) && Covered(eq, orig, q, cur) && 0 < cur
    requires IsQueue(q) && q != [] && cur <= q[0] < p < |orig| && eq(orig[0], orig[p])
    ensures p in q[1..] || Parent(p) >= q[0]
  {
    assert Fine(less, orig, p);
    if p in q {
      assert q == [q[0]] + q[1..];
    } else if Parent(p) < q[0] {
      var m := Parent(p);
      forall i | 0 <= i < |q| ensures m < q[i] { QueueIsSorted(q, i); }
      NothingSkipped(less, eq, orig, q, cur, m);
    }
  }

  /** On a heap, EqUp brings exactly the minimal elements to the front. */
  lemma EqUpSplits<T(!new)>(less: (T, T) -> bool, eq: (T, T) -> bool, h: seq<T>)
    requires Orders(less) && Ties(less, eq) && IsHeap(less, h) && h != []
    ensures var (h', e) := EqUp(eq, h); Front(less, eq, h', e, |h| + e) && h'[0] == h[0] && (e == 1 ==> h' == h)
  {
    assert eq(h[0], h[0]);
    if |h| >= 2 {
      EqUpSplitsFrom(less, eq, h, h, [1, 2], 1, 1);
      NoneMoved(eq, h, [1, 2], 1);
    }
  }

  lemma {:induction false} NoneMoved<T>(eq: (T, T) -> bool, h: seq<T>, q: seq<nat>, eqs: nat)
    requires 0 < eqs <= |h| && (q != [] ==> eqs <= q[0]) && IsQueue(q)
    ensures EqUpFrom(eq, h, q, eqs).1 == eqs ==> EqUpFrom(eq, h, q, eqs).0 == h
    decreases if q == [] || q[0] >= |h| then 0 else |h| - q[0]
  {
    if q != [] && q[0] < |h| && !eq(h[0], h[q[0]]) {
      assert forall i | 0 < i < |q[1..]| :: q[1..][i - 1] < q[1..][i];
      NoneMoved(eq, h, q[1..], eqs);
    }
  }
}
