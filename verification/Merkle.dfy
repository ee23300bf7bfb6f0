/** Peak hashes of a growing Merkle tree, kept as a binary counter (section 5.6.1 of RFC 7574). */
module Merkle {
  import opened Digits
  import opened Ids
  import opened Seqs

  datatype Hash = Hash(sha: bytes)

  const ZERO: Hash := Hash(Zeroes(32))

  /** The hash of two hashes; a real one is never all zeroes. */
  type Hasher = (Hash, Hash) -> Hash

  ghost predicate NeverZero(h: Hasher) { forall a, b :: h(a, b) != ZERO }

  datatype Tree = Leaf(hash: Hash) | Node(left: Tree, right: Tree)

  function Root(h: Hasher, t: Tree): Hash {
    match t
    case Leaf(x) => x
    case Node(l, r) => h(Root(h, l), Root(h, r))
  }

  function LeavesOf(t: Tree): seq<Hash> {
    match t
    case Leaf(x) => [x]
    case Node(l, r) => LeavesOf(l) + LeavesOf(r)
  }

  predicate Perfect(t: Tree, height: nat) {
    match t
    case Leaf(_) => height == 0
    case Node(l, r) => height > 0 && Perfect(l, height - 1) && Perfect(r, height - 1)
  }

  /** A row of trees side by side. */
  datatype Trees = NoTrees | Row(older: Trees, newest: Tree)

  function Count(ts: Trees): nat {
    match ts
    case NoTrees => 0
    case Row(older, _) => Count(older) + 1
  }

  predicate IsOdd(ts: Trees) { Count(ts) % 2 == 1 }

  function AllLeaves(ts: Trees): seq<Hash> {
    match ts
    case NoTrees => []
    case Row(older, newest) => AllLeaves(older) + LeavesOf(newest)
  }

  predicate AllPerfect(ts: Trees, height: nat) {
    match ts
    case NoTrees => true
    case Row(older, newest) => AllPerfect(older, height) && Perfect(newest, height)
  }

  /** Neighbours joined two by two; an odd one at the end is left out. */
  function Paired(ts: Trees): (r: Trees)
    ensures Count(r) == Count(ts) / 2
  {
    match ts
    case NoTrees => NoTrees
    case Row(older, newest) =>
      if IsOdd(ts) then Paired(older) else Row(Paired(older.older), Node(older.newest, newest))
  }

  /** The line over a row of trees: the odd one out in the lowest slot, the joined pairs above. */
  function LineOf(h: Hasher, ts: Trees, k: nat): (r: seq<Hash>)
    ensures |r| == k
    decreases k
  {
    if k == 0 then []
    else [if IsOdd(ts) then Root(h, ts.newest) else ZERO] + LineOf(h, Paired(ts), k - 1)
  }

  function Planted(leaves: seq<Hash>): (r: Trees)
    ensures Count(r) == |leaves|
  {
    if leaves == [] then NoTrees else Row(Planted(leaves[..|leaves| - 1]), Leaf(leaves[|leaves| - 1]))
  }

  /** The line holds the peaks over these leaves. */
  ghost predicate Holds(h: Hasher, line: seq<Hash>, leaves: seq<Hash>) {
    line == LineOf(h, Planted(leaves), |line|) && forall x | x in leaves :: x != ZERO
  }

  // ---- appending

  /** No tree of nonzero leaves hashes to zero. */
  lemma {:induction false} RootIsNotZero(h: Hasher, t: Tree)
    requires NeverZero(h) && forall x | x in LeavesOf(t) :: x != ZERO
    ensures Root(h, t) != ZERO
  {
    if t.Leaf? {
      assert t.hash in LeavesOf(t);
    }
  }

  ghost predicate Solid(ts: Trees) { forall x | x in AllLeaves(ts) :: x != ZERO }

  /** Joining neighbours keeps the leaves and their order. */
  lemma {:induction false} PairedKeepsLeaves(ts: Trees)
    ensures AllLeaves(ts) == AllLeaves(Paired(ts)) + (if IsOdd(ts) then LeavesOf(ts.newest) else [])
    decreases ts
  {
    if ts.Row? {
      if IsOdd(ts) {
        PairedKeepsLeaves(ts.older);
      } else {
        assert Count(ts) == Count(ts.older) + 1;
        PairedKeepsLeaves(ts.older.older);
        Associates(AllLeaves(ts.older.older), LeavesOf(ts.older.newest), LeavesOf(ts.newest));
      }
    }
  }

  lemma {:induction false} PlantedLeaves(leaves: seq<Hash>)
    ensures AllLeaves(Planted(leaves)) == leaves && AllPerfect(Planted(leaves), 0)
    decreases |leaves|
  {
    if leaves != [] {
      PlantedLeaves(leaves[..|leaves| - 1]);
      SplitLast(leaves);
    }
  }

  /** One append: the carry runs up the line to the first empty slot. */
  method Append(line: array<Hash>, next: Hash, h: Hasher, ghost leaves: seq<Hash>)
    requires NeverZero(h) && next != ZERO && Holds(h, line[..], leaves)
    requires exists j :: 0 <= j < line.Length && line[j] == ZERO
    modifies line
    ensures Holds(h, line[..], leaves + [next])
  {
    var p := next;
    var i := 0;
    ghost var ts, t := Planted(leaves), Leaf(next);
    ghost var goal := LineOf(h, Row(ts, t), line.Length);
    CarryStarts(h, line[..], leaves, next);
    while line[i] != ZERO
      invariant 0 <= i < line.Length && exists j :: i <= j < line.Length && line[j] == ZERO
      invariant Carrying(h, line[..], goal, i, ts, t) && p == Root(h, t)
      decreases line.Length - i
    {
      CarryMeets(h, line[..], goal, i, ts, t);
      CarryOn(h, line[..], goal, i, ts, t);
      ghost var was := line[..];
      p := h(line[i], p);
      line[i] := ZERO;
      assert line[..] == was[i := ZERO];
      ts, t := Paired(ts), Node(ts.newest, t);
      i := i + 1;
    }
    CarryEnds(h, line[..], goal, i, ts, t);
    ghost var was := line[..];
    line[i] := p;
    assert line[..] == was[i := p];
    assert (leaves + [next])[..|leaves|] == leaves;
  }

  /** Below slot i the carry has left zeroes; from i on the line is still the old one, with t to be added. */
  ghost predicate Carrying(h: Hasher, line: seq<Hash>, goal: seq<Hash>, i: nat, ts: Trees, t: Tree) {
    && i < |line| && Solid(ts)
    && line[i..] == LineOf(h, ts, |line| - i)
    && goal == line[..i] + LineOf(h, Row(ts, t), |line| - i)
  }

  lemma {:induction false} CarryStarts(h: Hasher, line: seq<Hash>, leaves: seq<Hash>, next: Hash)
    requires line != [] && Holds(h, line, leaves)
    ensures Carrying(h, line, LineOf(h, Row(Planted(leaves), Leaf(next)), |line|), 0, Planted(leaves), Leaf(next))
  {
    PlantedLeaves(leaves);
    var goal := LineOf(h, Row(Planted(leaves), Leaf(next)), |line|);
    assert line[0..] == line && line[..0] + goal == goal;
  }

  lemma {:induction false} PartsAreSolid(ts: Trees)
    requires Solid(ts)
    ensures Solid(Paired(ts)) && (ts.Row? ==> forall x | x in LeavesOf(ts.newest) :: x != ZERO)
  {
    PairedKeepsLeaves(ts);
    forall x | x in AllLeaves(Paired(ts)) ensures x != ZERO {
      assert x in AllLeaves(ts);
    }
    if ts.Row? {
      forall x | x in LeavesOf(ts.newest) ensures x != ZERO {
        assert x in AllLeaves(ts);
      }
    }
  }

  lemma {:induction false} CarryMeets(h: Hasher, line: seq<Hash>, goal: seq<Hash>, i: nat, ts: Trees, t: Tree)
    requires Carrying(h, line, goal, i, ts, t) && line[i] != ZERO
    requires exists j :: i <= j < |line| && line[j] == ZERO
    ensures IsOdd(ts) && i + 1 < |line| && line[i] == Root(h, ts.newest)
    ensures line[i + 1..] == LineOf(h, Paired(ts), |line| - i - 1)
  {
    LineSplits(h, ts, |line| - i);
    DropSplits(line, i);
  }

  lemma {:induction false} CarryOn(h: Hasher, line: seq<Hash>, goal: seq<Hash>, i: nat, ts: Trees, t: Tree)
    requires Carrying(h, line, goal, i, ts, t) && IsOdd(ts) && i + 1 < |line|
    requires line[i + 1..] == LineOf(h, Paired(ts), |line| - i - 1)
    ensures Carrying(h, line[i := ZERO], goal, i + 1, Paired(ts), Node(ts.newest, t))
  {
    PartsAreSolid(ts);
    Replaced(line, i, ZERO);
    GoalMoves(h, line, goal, i, ts, t);
  }

  lemma GoalMoves(h: Hasher, line: seq<Hash>, goal: seq<Hash>, i: nat, ts: Trees, t: Tree)
    requires Carrying(h, line, goal, i, ts, t) && IsOdd(ts)
    ensures goal == line[..i] + [ZERO] + LineOf(h, Row(Paired(ts), Node(ts.newest, t)), |line| - i - 1)
  {
    var rest := LineOf(h, Row(Paired(ts), Node(ts.newest, t)), |line| - i - 1);
    LineStep(h, ts, t, |line| - i);
    Associates(line[..i], [ZERO], rest);
  }

  /** Adding a tree to a row: it stays the odd one out, or joins the one there is. */
  lemma {:induction false} PairedStep(ts: Trees, t: Tree)
    ensures IsOdd(Row(ts, t)) == !IsOdd(ts)
    ensures Paired(Row(ts, t)) == if IsOdd(ts) then Row(Paired(ts), Node(ts.newest, t)) else Paired(ts)
  {
  }

  lemma LineSplits(h: Hasher, ts: Trees, k: nat)
    requires k > 0
    ensures LineOf(h, ts, k)[0] == if IsOdd(ts) then Root(h, ts.newest) else ZERO
    ensures LineOf(h, ts, k)[1..] == LineOf(h, Paired(ts), k - 1)
  {
  }

  lemma LineStep(h: Hasher, ts: Trees, t: Tree, k: nat)
    requires k > 0
    ensures LineOf(h, Row(ts, t), k)
         == if IsOdd(ts) then [ZERO] + LineOf(h, Row(Paired(ts), Node(ts.newest, t)), k - 1)
            else [Root(h, t)] + LineOf(h, Paired(ts), k - 1)
  {
    PairedStep(ts, t);
  }

  lemma Replaced<T>(s: seq<T>, i: nat, x: T)
    requires i < |s|
    ensures s[i := x][..i + 1] == s[..i] + [x] && s[i := x][i + 1..] == s[i + 1..]
    ensures s[i := x] == s[..i] + ([x] + s[i + 1..])
  {
  }

  lemma {:induction false} CarryEnds(h: Hasher, line: seq<Hash>, goal: seq<Hash>, i: nat, ts: Trees, t: Tree)
    requires NeverZero(h) && Carrying(h, line, goal, i, ts, t) && line[i] == ZERO
    ensures goal == line[i := Root(h, t)]
  {
    LineStep(h, ts, t, |line| - i);
    LineSplits(h, ts, |line| - i);
    DropSplits(line, i);
    PartsAreSolid(ts);
    if IsOdd(ts) {
      RootIsNotZero(h, ts.newest);
    }
    Replaced(line, i, Root(h, t));
  }

  // ---- what the line says

  function BitOf(n: nat, i: nat): nat {
    if i == 0 then n % 2 else BitOf(n / 2, i - 1)
  }

  /** The row of trees that slot i looks at. */
  function Level(ts: Trees, i: nat): Trees
    decreases i
  {
    if i == 0 then ts else Level(Paired(ts), i - 1)
  }

  lemma {:induction false} SlotAt(h: Hasher, ts: Trees, k: nat, i: nat)
    requires i < k
    ensures var lev := Level(ts, i);
            LineOf(h, ts, k)[i] == (if IsOdd(lev) then Root(h, lev.newest) else ZERO)
    ensures IsOdd(Level(ts, i)) <==> BitOf(Count(ts), i) == 1
    decreases k
  {
    if i > 0 {
      SlotAt(h, Paired(ts), k - 1, i - 1);
    }
  }

  lemma {:induction false} LevelIsPerfect(ts: Trees, height: nat, i: nat)
    requires Solid(ts) && AllPerfect(ts, height)
    ensures Solid(Level(ts, i)) && AllPerfect(Level(ts, i), height + i)
    decreases i
  {
    if i > 0 {
      PartsAreSolid(ts);
      PairedIsPerfect(ts, height);
      LevelIsPerfect(Paired(ts), height + 1, i - 1);
    }
  }

  lemma {:induction false} PairedIsPerfect(ts: Trees, height: nat)
    requires AllPerfect(ts, height)
    ensures AllPerfect(Paired(ts), height + 1)
    decreases ts
  {
    if ts.Row? {
      if IsOdd(ts) {
        PairedIsPerfect(ts.older, height);
      } else {
        assert Count(ts) == Count(ts.older) + 1;
        PairedIsPerfect(ts.older.older, height);
      }
    }
  }

  lemma {:induction false} PerfectSize(t: Tree, height: nat)
    requires Perfect(t, height)
    ensures |LeavesOf(t)| == Pow(Bit, height)
  {
    if t.Node? {
      PerfectSize(t.left, height - 1);
      PerfectSize(t.right, height - 1);
    }
  }

  /** Slot i is taken exactly when bit i of the number of leaves is set; it is then a perfect tree over 2^i of them. */
  lemma {:induction false} SlotIsAPeak(h: Hasher, line: seq<Hash>, leaves: seq<Hash>, i: nat)
    requires NeverZero(h) && Holds(h, line, leaves) && i < |line|
    ensures line[i] != ZERO <==> BitOf(|leaves|, i) == 1
    ensures BitOf(|leaves|, i) == 1 ==>
              && IsOdd(Level(Planted(leaves), i))
              && var t := Level(Planted(leaves), i).newest;
                 line[i] == Root(h, t) && Perfect(t, i) && |LeavesOf(t)| == Pow(Bit, i)
  {
    var ts := Planted(leaves);
    PlantedLeaves(leaves);
    SlotAt(h, ts, |line|, i);
    LevelIsPerfect(ts, 0, i);
    if IsOdd(Level(ts, i)) {
      var t := Level(ts, i).newest;
      PartsAreSolid(Level(ts, i));
      RootIsNotZero(h, t);
      PerfectSize(t, i);
    }
  }

  /** The leaves under the slots below k, the highest slot first. */
  function Covered(ts: Trees, k: nat): seq<Hash>
    decreases k
  {
    if k == 0 then [] else Covered(Paired(ts), k - 1) + (if IsOdd(ts) then LeavesOf(ts.newest) else [])
  }

  /** Read from the highest slot down, the peaks cover all leaves in the order they were appended. */
  lemma {:induction false} PeaksCoverLeaves(ts: Trees, k: nat)
    requires Count(ts) < Pow(Bit, k)
    ensures Covered(ts, k) == AllLeaves(ts)
    decreases k
  {
    if k > 0 {
      PairedKeepsLeaves(ts);
      PeaksCoverLeaves(Paired(ts), k - 1);
    }
  }

  lemma {:induction false} AllOnes(k: nat, i: nat)
    requires i < k
    ensures BitOf(Pow(Bit, k) - 1, i) == 1
    decreases k
  {
    assert Pow(Bit, k) - 1 == 2 * (Pow(Bit, k - 1) - 1) + 1;
    if i > 0 {
      AllOnes(k - 1, i - 1);
    }
  }

  lemma {:induction false} OnlyAllOnes(n: nat, k: nat)
    requires n < Pow(Bit, k) && forall i | 0 <= i < k :: BitOf(n, i) == 1
    ensures n == Pow(Bit, k) - 1
    decreases k
  {
    if k > 0 {
      assert BitOf(n, 0) == n % 2;
      forall i | 0 <= i < k - 1 ensures BitOf(n / 2, i) == 1 {
        assert BitOf(n, i + 1) == BitOf(n / 2, i);
      }
      OnlyAllOnes(n / 2, k - 1);
    }
  }

  lemma {:induction false} SlotIsTaken(h: Hasher, line: seq<Hash>, leaves: seq<Hash>, i: nat)
    requires NeverZero(h) && Holds(h, line, leaves) && i < |line|
    ensures line[i] != ZERO <==> BitOf(|leaves|, i) == 1
  {
    SlotIsAPeak(h, line, leaves, i);
  }

  /** There is room for another leaf unless all slots are taken, at one less than a power of two. */
  lemma {:induction false} RoomIff(h: Hasher, line: seq<Hash>, leaves: seq<Hash>)
    requires NeverZero(h) && Holds(h, line, leaves) && |leaves| < Pow(Bit, |line|)
    ensures (exists i :: 0 <= i < |line| && line[i] == ZERO) <==> |leaves| < Pow(Bit, |line|) - 1
  {
    forall i | 0 <= i < |line| ensures line[i] != ZERO <==> BitOf(|leaves|, i) == 1 {
      SlotIsTaken(h, line, leaves, i);
    }
    if |leaves| == Pow(Bit, |line|) - 1 {
      forall i | 0 <= i < |line| ensures line[i] != ZERO {
        AllOnes(|line|, i);
      }
    } else if forall i | 0 <= i < |line| :: line[i] != ZERO {
      OnlyAllOnes(|leaves|, |line|);
    }
  }
}
