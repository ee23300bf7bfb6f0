/** The second heap of itheap.go: any number of inputs, a caller-supplied order and merge function. */
module Heap2 {
  import opened Seqs
  import opened Elements
  import opened Heaps

  /** Exhausted streams order last; the code never compares them. */
  function Lift(lt: (Elem, Elem) -> bool): (Doc, Doc) -> bool {
    (a: Doc, b: Doc) => a != [] && (b == [] || lt(a[0], b[0]))
  }

  lemma LiftOrders(lt: (Elem, Elem) -> bool)
    requires Orders(lt)
    ensures Orders(Lift(lt))
  {
  }

  ghost predicate Live(h: seq<Doc>) { forall i | 0 <= i < |h| :: h[i] != [] }

  /** Increasing positions inside h. */
  ghost predicate Positions(h: seq<Doc>, ps: seq<nat>) {
    && (forall i | 0 <= i < |ps| :: ps[i] < |h|)
    && (forall i, j | 0 <= i < j < |ps| :: ps[i] < ps[j])
  }

  /** ps lists exactly the positions whose head is not above the top of the heap. */
  ghost predicate IsMinimal(lt: (Elem, Elem) -> bool, h: seq<Doc>, ps: seq<nat>) {
    && Positions(h, ps) && h != []
    && forall p | 0 <= p < |h| :: p in ps <==> !Lift(lt)(h[0], h[p])
  }

  function Pick(h: seq<Doc>, ps: seq<nat>): seq<Doc>
    requires forall i | 0 <= i < |ps| :: ps[i] < |h|
  {
    seq(|ps|, i requires 0 <= i < |ps| => h[ps[i]])
  }

  /** The streams at positions ps advanced by one record. */
  function Advanced(h: seq<Doc>, ps: seq<nat>): seq<Doc> {
    seq(|h|, i requires 0 <= i < |h| => if i in ps && h[i] != [] then h[i][1..] else h[i])
  }

  class Heap2 {
    var inputs: seq<Doc>
    var out: Doc
    var oldlen: nat
    const z: (Elem, Elem) -> bool
    const y: (seq<Doc>, Doc) -> Doc

    ghost predicate Valid()
      reads this
    {
      Orders(z) && Live(inputs) && IsHeap(Lift(z), inputs)
    }

    constructor (y: (seq<Doc>, Doc) -> Doc, z: (Elem, Elem) -> bool)
      requires Orders(z)
      ensures Valid() && inputs == [] && out == [] && this.y == y && this.z == z
    {
      this.y := y;
      this.z := z;
      inputs := [];
      out := [];
      oldlen := 0;
    }

    method SiftUp()
      requires inputs != [] && Live(inputs)
      modifies this`inputs
      ensures inputs == Up(Lift(z), old(inputs), |old(inputs)| - 1)
    {
      var a: nat := |inputs| - 1;
      while true
        invariant a < |inputs| && Up(Lift(z), inputs, a) == Up(Lift(z), old(inputs), |old(inputs)| - 1)
        decreases a
      {
        var b: nat := if a == 0 then 0 else (a - 1) / 2;
        if b == a || !Lift(z)(inputs[a], inputs[b]) {
          break;
        }
        inputs := Swap(inputs, b, a);
        a := b;
      }
    }

    method SiftDown(i0: nat)
      modifies this`inputs
      ensures inputs == Down(Lift(z), old(inputs), i0)
    {
      var n := |inputs|;
      var i: nat := i0;
      while true
        invariant |inputs| == n && Down(Lift(z), inputs, i) == Down(Lift(z), old(inputs), i0)
        decreases n - i
      {
        var j1 := 2 * i + 1;
        if j1 >= n {
          break;
        }
        var j := j1;
        var j2 := j1 + 1;
        if j2 < n && Lift(z)(inputs[j2], inputs[j1]) {
          j := j2;
        }
        assert j == SmallerChild(Lift(z), inputs, i);
        if !Lift(z)(inputs[j], inputs[i]) {
          break;
        }
        inputs := Swap(inputs, i, j);
        i := j;
      }
    }

    method AddIter(it: Doc)
      requires Valid() && it != []
      modifies this`inputs
      ensures Valid() && multiset(inputs) == multiset(old(inputs)) + multiset{it}
    {
      ghost var h := inputs;
      LiftOrders(z);
      inputs := inputs + [it];
      forall c | 0 <= c < |inputs| && c != |h| ensures Fine(Lift(z), inputs, c) {
        assert Fine(Lift(z), h, c);
      }
      UpRepairs(Lift(z), inputs, |h|, |inputs|);
      UpPermutes(Lift(z), inputs, |h|);
      SiftUp();
      LiveMultiset(inputs, h + [it]);
    }

    /** Adds the minimal children of k to the list. */
    method VisitChildren(k: nat, eqs0: seq<nat>) returns (eqs: seq<nat>)
      requires inputs != []
      ensures eqs == eqs0 + NewMinimal(z, inputs, k)
    {
      eqs := eqs0;
      var kl := k * 2 + 1;
      if kl < |inputs| {
        if !Lift(z)(inputs[0], inputs[kl]) {
          eqs := eqs + [kl];
        }
        var kr := kl + 1;
        if kr < |inputs| && !Lift(z)(inputs[0], inputs[kr]) {
          eqs := eqs + [kr];
        }
      }
    }

    /** Breadth-first from the top: the positions of all minimal heads. */
    method FindMinimal() returns (eqs: seq<nat>)
      requires Valid() && inputs != []
      ensures IsMinimal(z, inputs, eqs) && eqs != [] && eqs[0] == 0
    {
      eqs := [0];
      var i := 0;
      LiftOrders(z);
      while i < |eqs|
        invariant Searched(z, inputs, eqs, i)
        decreases if i < |eqs| then |inputs| - eqs[i] else 0
      {
        var k := eqs[i];
        SearchStep(z, inputs, eqs, i);
        eqs := VisitChildren(k, eqs);
        i := i + 1;
      }
      SearchEnds(z, inputs, eqs);
    }

    /** The minimal heads, as the merge function gets them. */
    method Holders(eqs: seq<nat>) returns (merge: seq<Doc>)
      requires Positions(inputs, eqs) && eqs != []
      ensures merge == Pick(inputs, eqs)
    {
      if eqs[|eqs| - 1] == |eqs| - 1 {
        merge := inputs[..|eqs|];
        forall j | 0 <= j < |eqs| ensures eqs[j] == j { Contiguous(eqs, j); }
      } else {
        merge := [];
        var i := 0;
        while i < |eqs|
          invariant 0 <= i <= |eqs| && |merge| == i && forall j | 0 <= j < i :: merge[j] == inputs[eqs[j]]
        {
          merge := merge + [inputs[eqs[i]]];
          i := i + 1;
        }
      }
    }

    method AdvanceAll(eqs: seq<nat>)
      requires Positions(inputs, eqs) && Live(inputs)
      modifies this`inputs
      ensures inputs == Advanced(old(inputs), eqs)
    {
      var i := |eqs|;
      while i > 0
        invariant 0 <= i <= |eqs| && |inputs| == |old(inputs)|
        invariant forall p | 0 <= p < |inputs| :: inputs[p] == if p in eqs[i..] then old(inputs)[p][1..] else old(inputs)[p]
      {
        i := i - 1;
        var k := eqs[i];
        assert eqs[i..] == [k] + eqs[i + 1..];
        assert k !in eqs[i + 1..];
        inputs := inputs[k := inputs[k][1..]];
      }
      assert eqs[0..] == eqs;
    }

    /** Drops the exhausted streams and sifts down, from the last position to the first. */
    method Settle(eqs: seq<nat>, ghost h: seq<Doc>)
      requires Orders(z) && inputs == Advanced(h, eqs) && Live(h) && IsHeap(Lift(z), h)
      requires Positions(h, eqs) && Closed(eqs)
      modifies this`inputs
      ensures Valid() && SameStreams(inputs, Advanced(h, eqs))
    {
      var i := |eqs|;
      SettleStarts(z, h, eqs);
      while i > 0
        invariant 0 <= i <= |eqs| && Settling(z, Advanced(h, eqs), inputs, eqs, i)
      {
        i := i - 1;
        var k := eqs[i];
        SettleStep(z, Advanced(h, eqs), inputs, eqs, i);
        if inputs[k] == [] {
          inputs := inputs[k := inputs[|inputs| - 1]][..|inputs| - 1];
        }
        SiftDown(k);
      }
      SettleEnds(z, Advanced(h, eqs), inputs, eqs);
    }

    /** Merges the minimal heads, advances exactly them, restores the heap. */
    method Read() returns (ok: bool)
      requires Valid()
      modifies this`inputs, this`out, this`oldlen
      ensures Valid() && ok == (old(inputs) != [])
      ensures !ok ==> inputs == [] && out == old(out)
      ensures ok ==> oldlen == |old(out)| && Advances(z, y, old(inputs), old(out), inputs, out)
    {
      if |inputs| == 0 {
        return false;
      }
      ghost var h := inputs;
      var eqs := FindMinimal();
      var merge := Holders(eqs);
      oldlen := |out|;
      out := y(merge, out);
      MinimalIsClosed(z, inputs, eqs);
      AdvanceAll(eqs);
      Settle(eqs, h);
      return true;
    }
  }

  /** One read: the holders of the least head were merged, they and only they moved on. */
  ghost predicate Advances(lt: (Elem, Elem) -> bool, y: (seq<Doc>, Doc) -> Doc, h: seq<Doc>, out: Doc, h': seq<Doc>, out': Doc) {
    exists ps: seq<nat> :: IsMinimal(lt, h, ps) && out' == y(Pick(h, ps), out) && SameStreams(h', Advanced(h, ps))
  }

  /** The same streams, exhausted ones aside. */
  ghost predicate SameStreams(a: seq<Doc>, b: seq<Doc>) {
    forall s: Doc | s != [] :: multiset(a)[s] == multiset(b)[s]
  }

  lemma LiveMultiset(a: seq<Doc>, b: seq<Doc>)
    requires multiset(a) == multiset(b) && Live(b)
    ensures Live(a)
  {
    forall i | 0 <= i < |a| ensures a[i] != [] { assert a[i] in multiset(b); }
  }

  lemma {:induction false} Contiguous(eqs: seq<nat>, j: nat)
    requires j < |eqs| && eqs[|eqs| - 1] == |eqs| - 1 && forall i, j | 0 <= i < j < |eqs| :: eqs[i] < eqs[j]
    ensures eqs[j] == j
  {
    AtLeast(eqs, j);
    AtMost(eqs, j);
  }

  lemma {:induction false} AtLeast(eqs: seq<nat>, j: nat)
    requires j < |eqs| && forall i, j | 0 <= i < j < |eqs| :: eqs[i] < eqs[j]
    ensures eqs[j] >= j
  {
    if j > 0 {
      AtLeast(eqs, j - 1);
    }
  }

  lemma {:induction false} AtMost(eqs: seq<nat>, j: nat)
    requires j < |eqs| && eqs[|eqs| - 1] == |eqs| - 1 && forall i, j | 0 <= i < j < |eqs| :: eqs[i] < eqs[j]
    ensures eqs[j] <= j
    decreases |eqs| - j
  {
    if j < |eqs| - 1 {
      AtMost(eqs, j + 1);
    }
  }

  // ---- the search

  /** The minimal children of k. */
  function NewMinimal(lt: (Elem, Elem) -> bool, h: seq<Doc>, k: nat): seq<nat>
    requires h != []
  {
    (if 2 * k + 1 < |h| && !Lift(lt)(h[0], h[2 * k + 1]) then [2 * k + 1] else [])
    + (if 2 * k + 2 < |h| && !Lift(lt)(h[0], h[2 * k + 2]) then [2 * k + 2] else [])
  }

  ghost predicate Searched(lt: (Elem, Elem) -> bool, h: seq<Doc>, eqs: seq<nat>, i: nat) {
    && h != [] && Positions(h, eqs) && eqs != [] && eqs[0] == 0 && i <= |eqs|
    && (i < |eqs| ==> eqs[|eqs| - 1] <= 2 * eqs[i])
    && (forall j | 0 <= j < |eqs| :: !Lift(lt)(h[0], h[eqs[j]]))
    && (forall p | 0 < p < |h| && !Lift(lt)(h[0], h[p]) && Parent(p) in eqs[..i] :: p in eqs)
  }

  lemma SearchStep(lt: (Elem, Elem) -> bool, h: seq<Doc>, eqs: seq<nat>, i: nat)
    requires Searched(lt, h, eqs, i) && i < |eqs|
    ensures var r := eqs + NewMinimal(lt, h, eqs[i]);
            Searched(lt, h, r, i + 1) && r[i] == eqs[i] && (i + 1 < |r| ==> r[i + 1] > eqs[i])
  {
    var r := eqs + NewMinimal(lt, h, eqs[i]);
    SearchGrows(lt, h, eqs, i);
    forall p | 0 < p < |h| && !Lift(lt)(h[0], h[p]) && Parent(p) in r[..i + 1] ensures p in r {
      SearchCovers(lt, h, eqs, i, p);
    }
  }

  lemma SearchGrows(lt: (Elem, Elem) -> bool, h: seq<Doc>, eqs: seq<nat>, i: nat)
    requires Searched(lt, h, eqs, i) && i < |eqs|
    ensures var r := eqs + NewMinimal(lt, h, eqs[i]);
            && Positions(h, r) && r[i] == eqs[i] && (i + 1 < |r| ==> r[i + 1] > eqs[i] && r[|r| - 1] <= 2 * r[i + 1])
            && forall j | 0 <= j < |r| :: !Lift(lt)(h[0], h[r[j]])
  {
    var k := eqs[i];
    var found := NewMinimal(lt, h, k);
    var r := eqs + found;
    assert forall j | 0 <= j < |eqs| :: eqs[j] <= 2 * k;
    assert forall j | 0 <= j < |found| :: 2 * k < found[j] <= 2 * k + 2 && found[j] < |h|;
    forall j | |eqs| <= j < |r| ensures r[j] == found[j - |eqs|] {}
  }

  lemma SearchCovers(lt: (Elem, Elem) -> bool, h: seq<Doc>, eqs: seq<nat>, i: nat, p: nat)
    requires Searched(lt, h, eqs, i) && i < |eqs|
    requires 0 < p < |h| && !Lift(lt)(h[0], h[p])
    requires Parent(p) in (eqs + NewMinimal(lt, h, eqs[i]))[..i + 1]
    ensures p in eqs + NewMinimal(lt, h, eqs[i])
  {
    var k := eqs[i];
    var found := NewMinimal(lt, h, k);
    assert (eqs + found)[..i + 1] == eqs[..i] + [k];
    if Parent(p) == k {
      assert p == 2 * k + 1 || p == 2 * k + 2;
      assert p in found;
    } else {
      assert Parent(p) in eqs[..i];
      assert p in eqs;
    }
  }

  lemma SearchEnds(lt: (Elem, Elem) -> bool, h: seq<Doc>, eqs: seq<nat>)
    requires Orders(lt) && IsHeap(Lift(lt), h) && Searched(lt, h, eqs, |eqs|)
    ensures IsMinimal(lt, h, eqs)
  {
    forall p | 0 <= p < |h| && !Lift(lt)(h[0], h[p]) ensures p in eqs {
      MinimalIsFound(lt, h, eqs, p);
    }
  }

  lemma {:induction false} MinimalIsFound(lt: (Elem, Elem) -> bool, h: seq<Doc>, eqs: seq<nat>, p: nat)
    requires Orders(lt) && IsHeap(Lift(lt), h) && Searched(lt, h, eqs, |eqs|)
    requires p < |h| && !Lift(lt)(h[0], h[p])
    ensures p in eqs
  {
    if p > 0 {
      LiftOrders(lt);
      assert Fine(Lift(lt), h, p);
      MinimalIsFound(lt, h, eqs, Parent(p));
      assert eqs[..|eqs|] == eqs;
    }
  }

  // ---- the repair

  predicate Closed(eqs: seq<nat>) { forall e | e in eqs && e > 0 :: Parent(e) in eqs }

  lemma MinimalIsClosed(lt: (Elem, Elem) -> bool, h: seq<Doc>, eqs: seq<nat>)
    requires Orders(lt) && IsHeap(Lift(lt), h) && IsMinimal(lt, h, eqs)
    ensures Closed(eqs)
  {
    LiftOrders(lt);
    forall e | e in eqs && e > 0 ensures Parent(e) in eqs {
      assert Fine(Lift(lt), h, e);
    }
  }

  function SetOf(eqs: seq<nat>): set<nat> { set e | e in eqs }

  /** The positions not yet settled start below this one. */
  function Frontier(h: seq<Doc>, eqs: seq<nat>, n: nat): nat
    requires n <= |eqs|
  {
    if n < |eqs| then eqs[n] else |h|
  }

  /** The first n positions of eqs wait; above them all streams are live. */
  ghost predicate Settling(lt: (Elem, Elem) -> bool, adv: seq<Doc>, g: seq<Doc>, eqs: seq<nat>, n: nat) {
    && n <= |eqs| && Orders(lt) && Positions(adv, eqs) && Closed(eqs)
    && Frontier(adv, eqs, n) <= |g| && HeapBut(Lift(lt), g, SetOf(eqs[..n])) && SameStreams(g, adv)
    && (forall p | 0 <= p < Frontier(adv, eqs, n) && p < |adv| :: g[p] == adv[p])
    && (forall p | 0 <= p < |g| && p !in eqs[..n] :: g[p] != [])
  }

  lemma SettleStarts(lt: (Elem, Elem) -> bool, h: seq<Doc>, eqs: seq<nat>)
    requires Orders(lt) && Live(h) && IsHeap(Lift(lt), h) && Positions(h, eqs) && Closed(eqs)
    ensures Settling(lt, Advanced(h, eqs), Advanced(h, eqs), eqs, |eqs|)
  {
    var g := Advanced(h, eqs);
    assert eqs[..|eqs|] == eqs;
    forall c | 0 < c < |g| ensures Loose(SetOf(eqs), c) || Fine(Lift(lt), g, c) {
      assert Fine(Lift(lt), h, c);
    }
  }

  lemma SettleEnds(lt: (Elem, Elem) -> bool, adv: seq<Doc>, g: seq<Doc>, eqs: seq<nat>)
    requires Settling(lt, adv, g, eqs, 0)
    ensures Live(g) && IsHeap(Lift(lt), g)
  {
    assert forall c | 0 < c < |g| :: Loose(SetOf([]), c) || Fine(Lift(lt), g, c);
  }

  function Filled(g: seq<Doc>, k: nat): seq<Doc>
    requires k < |g|
  {
    if g[k] == [] then g[k := g[|g| - 1]][..|g| - 1] else g
  }

  lemma FilledKeeps(g: seq<Doc>, k: nat)
    requires k < |g|
    ensures SameStreams(Filled(g, k), g)
    ensures |g| - 1 <= |Filled(g, k)| <= |g|
  {
    if g[k] == [] {
      var l := |g| - 1;
      var f := g[k := g[l]];
      SplitLast(f);
      assert multiset(f[..l] + [f[l]]) == multiset(f[..l]) + multiset{f[l]};
      assert multiset(f) == multiset(g) - multiset{[]} + multiset{g[l]};
      CancelOne(multiset(f[..l]), multiset(g) - multiset{[]}, g[l]);
    }
  }

  lemma SettleStep(lt: (Elem, Elem) -> bool, adv: seq<Doc>, g: seq<Doc>, eqs: seq<nat>, i: nat)
    requires i < |eqs| && Settling(lt, adv, g, eqs, i + 1)
    ensures eqs[i] < |g| && Settling(lt, adv, Down(Lift(lt), Filled(g, eqs[i]), eqs[i]), eqs, i)
  {
    var k := eqs[i];
    var f := Filled(g, k);
    var bad := SetOf(eqs[..i]);
    var r := Down(Lift(lt), f, k);
    LiftOrders(lt);
    FilledKeeps(g, k);
    assert eqs[..i + 1] == eqs[..i] + [k];
    forall c | 0 < c < |f| ensures Loose(bad + {k}, c) || Fine(Lift(lt), f, c) {
      assert Loose(SetOf(eqs[..i + 1]), c) || Fine(Lift(lt), g, c);
    }
    ClosedPrefix(eqs, i);
    DownRepairs(Lift(lt), f, k, bad);
    DownPermutes(Lift(lt), f, k);
    SettledIsLive(f, r, k, eqs[..i]);
  }

  lemma ClosedPrefix(eqs: seq<nat>, i: nat)
    requires i < |eqs| && Closed(eqs) && forall a, b | 0 <= a < b < |eqs| :: eqs[a] < eqs[b]
    ensures eqs[i] == 0 || Parent(eqs[i]) in SetOf(eqs[..i])
    ensures Hangs(SetOf(eqs[..i]), eqs[i])
  {
    forall j | 0 <= j <= i && eqs[j] > 0 ensures Parent(eqs[j]) in SetOf(eqs[..i]) {
      assert eqs[j] in eqs;
      var m :| 0 <= m < |eqs| && eqs[m] == Parent(eqs[j]);
      assert m < j;
      assert eqs[..i][m] == eqs[m];
    }
  }

  lemma SettledIsLive(f: seq<Doc>, r: seq<Doc>, k: nat, waiting: seq<nat>)
    requires |r| == |f| && multiset(r) == multiset(f) && k <= |f| && forall p | 0 <= p < k :: r[p] == f[p]
    requires forall p | 0 <= p < |f| && p !in waiting :: f[p] != []
    requires forall p | p in waiting :: p < k
    ensures forall p | 0 <= p < |r| && p !in waiting :: r[p] != []
  {
    assert r[..k] == f[..k];
    SuffixPermutes(r, f, k);
    forall p | k <= p < |r| ensures r[p] != [] {
      assert r[p] == r[k..][p - k] && r[p] in multiset(f[k..]);
    }
  }

  // ---- whole runs

  /** Each record of a stream is below the next. */
  ghost predicate Ascends(lt: (Elem, Elem) -> bool, s: Doc) {
    forall i | 0 < i < |s| :: lt(s[i - 1], s[i])
  }

  /** On ascending streams a read takes one key from every stream that has it: all that is left is above. */
  lemma ReadsAscend(lt: (Elem, Elem) -> bool, h: seq<Doc>, ps: seq<nat>, h': seq<Doc>)
    requires Orders(lt) && Live(h) && IsHeap(Lift(lt), h) && IsMinimal(lt, h, ps)
    requires Live(h') && SameStreams(h', Advanced(h, ps))
    requires forall s | s in h :: Ascends(lt, s)
    ensures forall s | s in h' :: Ascends(lt, s) && lt(h[0][0], s[0])
    ensures forall i | 0 <= i < |ps| :: !lt(h[0][0], h[ps[i]][0]) && !lt(h[ps[i]][0], h[0][0])
  {
    LiftOrders(lt);
    forall s | s in h' ensures Ascends(lt, s) && lt(h[0][0], s[0]) {
      assert multiset(h')[s] > 0;
      assert s in multiset(Advanced(h, ps));
      var p :| 0 <= p < |h| && Advanced(h, ps)[p] == s;
      assert h[p] in h;
      MinOfHeap(Lift(lt), h, p);
    }
    forall i | 0 <= i < |ps| ensures !lt(h[0][0], h[ps[i]][0]) && !lt(h[ps[i]][0], h[0][0]) {
      assert ps[i] in ps;
      MinOfHeap(Lift(lt), h, ps[i]);
    }
  }
}
