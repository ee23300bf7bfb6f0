/** Whole runs of appends, and what the line of peaks says about the leaves. */
module MerkleRun {
  import opened Digits
  import opened Seqs
  import opened Merkle

  lemma {:induction false} NoTreesNoPeaks(h: Hasher, k: nat)
    ensures forall i | 0 <= i < k :: LineOf(h, NoTrees, k)[i] == ZERO
    decreases k
  {
    if k > 0 {
      NoTreesNoPeaks(h, k - 1);
    }
  }

  /** The empty line holds no leaves. */
  lemma EmptyLineHoldsNothing(h: Hasher, line: seq<Hash>)
    requires forall i | 0 <= i < |line| :: line[i] == ZERO
    ensures Holds(h, line, [])
  {
    NoTreesNoPeaks(h, |line|);
    assert line == LineOf(h, NoTrees, |line|);
  }

  /** Appending any leaves, fewer than the line has room for, to an empty line. */
  method AppendAll(line: array<Hash>, leaves: seq<Hash>, h: Hasher)
    requires NeverZero(h) && (forall x | x in leaves :: x != ZERO) && |leaves| < Pow(Bit, line.Length)
    requires forall i | 0 <= i < line.Length :: line[i] == ZERO
    modifies line
    ensures Holds(h, line[..], leaves)
  {
    EmptyLineHoldsNothing(h, line[..]);
    var n := 0;
    while n < |leaves|
      invariant 0 <= n <= |leaves| && Holds(h, line[..], leaves[..n])
    {
      RoomIff(h, line[..], leaves[..n]);
      ghost var j :| 0 <= j < line.Length && line[..][j] == ZERO;
      assert line[j] == ZERO && leaves[n] in leaves;
      Append(line, leaves[n], h, leaves[..n]);
      TakeGrows(leaves, n);
      n := n + 1;
    }
    assert leaves[..n] == leaves;
  }

  // ---- the peaks

  /** A taken slot and the tree whose root hash it holds. */
  datatype Peak = Peak(slot: nat, tree: Tree)

  /** The highest slot first. */
  function Peaks(ts: Trees, k: nat, low: nat): seq<Peak>
    decreases k
  {
    if k == 0 then [] else Peaks(Paired(ts), k - 1, low + 1) + (if IsOdd(ts) then [Peak(low, ts.newest)] else [])
  }

  lemma PeaksSplit(ts: Trees, k: nat, low: nat)
    requires k > 0
    ensures Peaks(ts, k, low) == Peaks(Paired(ts), k - 1, low + 1) + (if IsOdd(ts) then [Peak(low, ts.newest)] else [])
  {
  }

  function PeakLeaves(ps: seq<Peak>): seq<Hash> {
    if ps == [] then [] else PeakLeaves(ps[..|ps| - 1]) + LeavesOf(ps[|ps| - 1].tree)
  }

  /** The tree is perfect and as high as its slot, and a line that starts at slot `low` holds its root there. */
  ghost predicate Stands(h: Hasher, line: seq<Hash>, low: nat, p: Peak) {
    && low <= p.slot < low + |line| && line[p.slot - low] == Root(h, p.tree)
    && Perfect(p.tree, p.slot) && |LeavesOf(p.tree)| == Pow(Bit, p.slot)
  }

  lemma StandsHigher(h: Hasher, line: seq<Hash>, low: nat, p: Peak)
    requires line != [] && Stands(h, line[1..], low + 1, p)
    ensures Stands(h, line, low, p) && p.slot > low
  {
    assert line[1..][p.slot - low - 1] == line[p.slot - low];
  }

  lemma {:induction false} PeaksStand(h: Hasher, ts: Trees, k: nat, low: nat, p: Peak)
    requires AllPerfect(ts, low) && p in Peaks(ts, k, low)
    ensures Stands(h, LineOf(h, ts, k), low, p)
    decreases k
  {
    LineSplits(h, ts, k);
    PeaksSplit(ts, k, low);
    if p in Peaks(Paired(ts), k - 1, low + 1) {
      PairedIsPerfect(ts, low);
      PeaksStand(h, Paired(ts), k - 1, low + 1, p);
      StandsHigher(h, LineOf(h, ts, k), low, p);
    } else {
      assert p == Peak(low, ts.newest);
      PerfectSize(ts.newest, low);
    }
  }

  lemma {:induction false} PeaksDescend(ts: Trees, k: nat, low: nat)
    ensures forall p | p in Peaks(ts, k, low) :: p.slot >= low
    ensures forall i, j | 0 <= i < j < |Peaks(ts, k, low)| :: Peaks(ts, k, low)[i].slot > Peaks(ts, k, low)[j].slot
    decreases k
  {
    if k > 0 {
      PeaksSplit(ts, k, low);
      PeaksDescend(Paired(ts), k - 1, low + 1);
      var up := Peaks(Paired(ts), k - 1, low + 1);
      assert forall i | 0 <= i < |up| :: up[i] in up;
    }
  }

  lemma {:induction false} PeaksHoldLeaves(ts: Trees, k: nat, low: nat)
    ensures PeakLeaves(Peaks(ts, k, low)) == Covered(ts, k)
    decreases k
  {
    if k > 0 {
      var up := Peaks(Paired(ts), k - 1, low + 1);
      PeaksSplit(ts, k, low);
      PeaksHoldLeaves(Paired(ts), k - 1, low + 1);
      if IsOdd(ts) {
        assert (up + [Peak(low, ts.newest)])[..|up|] == up;
      } else {
        assert up + [] == up;
      }
    }
  }

  lemma HigherSlot(h: Hasher, ts: Trees, k: nat, i: nat)
    requires 0 < i < k
    ensures LineOf(h, ts, k)[i] == LineOf(h, Paired(ts), k - 1)[i - 1]
  {
    LineSplits(h, ts, k);
    assert LineOf(h, ts, k)[1..][i - 1] == LineOf(h, ts, k)[i];
  }

  lemma {:induction false} TakenSlotIsAPeak(h: Hasher, ts: Trees, k: nat, low: nat, i: nat) returns (p: Peak)
    requires i < k && LineOf(h, ts, k)[i] != ZERO
    ensures p in Peaks(ts, k, low) && p.slot == low + i
    decreases k
  {
    PeaksSplit(ts, k, low);
    if i == 0 {
      LineSplits(h, ts, k);
      p := Peak(low, ts.newest);
      assert p in [p];
    } else {
      HigherSlot(h, ts, k, i);
      p := TakenSlotIsAPeak(h, Paired(ts), k - 1, low + 1, i - 1);
    }
  }

  /** Read from the highest slot down, the hashes of the line are the roots of perfect trees over all leaves, in order. */
  lemma LineCoversLeaves(h: Hasher, line: seq<Hash>, leaves: seq<Hash>) returns (peaks: seq<Peak>)
    requires Holds(h, line, leaves) && |leaves| < Pow(Bit, |line|)
    ensures PeakLeaves(peaks) == leaves
    ensures forall p | p in peaks :: Stands(h, line, 0, p)
    ensures forall i, j | 0 <= i < j < |peaks| :: peaks[i].slot > peaks[j].slot
    ensures forall i | 0 <= i < |line| && line[i] != ZERO :: exists p | p in peaks :: p.slot == i
  {
    var ts := Planted(leaves);
    PlantedLeaves(leaves);
    PeaksCoverLeaves(ts, |line|);
    peaks := Peaks(ts, |line|, 0);
    PeaksDescend(ts, |line|, 0);
    PeaksHoldLeaves(ts, |line|, 0);
    forall p | p in peaks ensures Stands(h, line, 0, p) { PeaksStand(h, ts, |line|, 0, p); }
    forall i | 0 <= i < |line| && line[i] != ZERO ensures exists p | p in peaks :: p.slot == i {
      var p := TakenSlotIsAPeak(h, ts, |line|, 0, i);
    }
  }
}
