/** Fixed-width integers, byte strings and the 128-bit Lamport ids of RDX. */
module Ids {
  const TWO8 := 0x100
  const TWO54 := 0x40_0000_0000_0000
  const TWO60 := 0x1000_0000_0000_0000
  const TWO63 := 0x8000_0000_0000_0000
  const TWO64 := 0x1_0000_0000_0000_0000

  type byte = x: int | 0 <= x < TWO8
  type bytes = seq<byte>
  type u64 = x: int | 0 <= x < TWO64
  type i64 = x: int | -TWO63 <= x < TWO63

  /** The three answers of every comparator; the source writes them -2, 0 and 2. */
  datatype Ordering = Less | Eq | Grtr {
    function Flip(): Ordering {
      match this
      case Less => Grtr
      case Eq => Eq
      case Grtr => Less
    }
  }

  function CompareInt(a: int, b: int): Ordering {
    if a < b then Less else if a > b then Grtr else Eq
  }

  /** `bytes.Compare`: the first differing byte decides, a proper prefix is smaller. */
  function CompareBytes(a: bytes, b: bytes): Ordering {
    if a == [] && b == [] then Eq
    else if a == [] then Less
    else if b == [] then Grtr
    else if a[0] != b[0] then CompareInt(a[0], b[0])
    else CompareBytes(a[1..], b[1..])
  }

  /** A Lamport timestamp: the low six bits of `time` are the revision, the rest the stem. */
  datatype ID = ID(src: u64, time: u64) {
    function Stem(): int { time / 64 }

    function Rev(): int { time % 64 }

    /** The identity order: time without the revision bits, then source. */
    function Compare(b: ID): Ordering {
      if Stem() < b.Stem() then Less
      else if Stem() > b.Stem() then Grtr
      else CompareInt(src, b.src)
    }

    /** The full order, revision included: time, then source. */
    function RevCompare(b: ID): Ordering {
      if time < b.time then Less
      else if time > b.time then Grtr
      else CompareInt(src, b.src)
    }

    predicate LessThan(b: ID) {
      if time < b.time then true
      else if time > b.time then false
      else src < b.src
    }
  }

  const ID0: ID := ID(0, 0)

  function MaxID(a: ID, b: ID): ID {
    if a.LessThan(b) then b else a
  }

  /** The 64-bit remainder of a number taken apart. */
  lemma Remainder(n: nat, q: nat, r: nat)
    requires n == TWO64 * q + r && r < TWO64
    ensures n % TWO64 == r
  {
  }

  lemma {:induction false} CompareBytesIsAnOrder(a: bytes, b: bytes)
    ensures CompareBytes(a, b) == Eq <==> a == b
    ensures CompareBytes(b, a) == CompareBytes(a, b).Flip()
  {
    if a != [] && b != [] && a[0] == b[0] {
      CompareBytesIsAnOrder(a[1..], b[1..]);
      assert a == [a[0]] + a[1..] && b == [b[0]] + b[1..];
    }
  }

  lemma {:induction false} CompareBytesTransitive(a: bytes, b: bytes, c: bytes)
    requires CompareBytes(a, b) == Less && CompareBytes(b, c) == Less
    ensures CompareBytes(a, c) == Less
  {
    if a != [] && a[0] == b[0] == c[0] {
      CompareBytesTransitive(a[1..], b[1..], c[1..]);
    }
  }

  function Zeroes(n: nat): (r: bytes)
    ensures |r| == n && forall c | c in r :: c == 0
  {
    if n == 0 then [] else Zeroes(n - 1) + [0]
  }
}
