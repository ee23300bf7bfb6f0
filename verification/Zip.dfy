/** Zip coding: pairs of 64-bit numbers, integers and floats as the shortest byte strings. */
module Zip {
  import opened Ids
  import opened Digits
  import opened Seqs

  function ByteLen(n: u64): nat {
    if n == 0 then 0
    else if n <= 0xff then 1
    else if n <= 0xffff then 2
    else if n <= 0xffff_ffff then 4
    else 8
  }

  /** The w low bytes of n, least first. */
  function Put(n: nat, w: nat): (r: bytes)
    ensures |r| == w
  {
    LowIsDigits(Byte, n, w);
    Low(Byte, n, w)
  }

  function Get(b: bytes): nat { Value(Byte, b) }

  /** Two numbers as one byte string; its length tells the two widths. */
  function ZipPair(big: u64, lil: u64): (r: bytes)
    ensures |r| <= 16
  {
    var p, q := ByteLen(big), ByteLen(lil);
    if p == 0 && q == 0 then []
    else if p == 1 && q == 0 then Put(big, 1)
    else if p <= 1 && q == 1 then Put(big, 1) + Put(lil, 1)
    else if p == 2 && q <= 1 then Put(big, 2) + Put(lil, 1)
    else if p <= 2 && q == 2 then Put(big, 2) + Put(lil, 2)
    else if p == 4 && q <= 1 then Put(big, 4) + Put(lil, 1)
    else if p == 4 && q == 2 then Put(big, 4) + Put(lil, 2)
    else if p <= 4 && q == 4 then Put(big, 4) + Put(lil, 4)
    else if p == 8 && q <= 1 then Put(big, 8) + Put(lil, 1)
    else if p == 8 && q == 2 then Put(big, 8) + Put(lil, 2)
    else if p == 8 && q == 4 then Put(big, 8) + Put(lil, 4)
    else if p <= 2 && q == 8 then Put(big, 2) + [0] + Put(lil, 8)
    else if p == 4 && q == 8 then Put(big, 4) + [0] + Put(lil, 8)
    else Put(big, 8) + Put(lil, 8)
  }

  /** Writes the w low bytes of n at a position of a buffer. */
  method PutUint(ret: array<byte>, at: nat, n: nat, w: nat)
    requires at + w <= ret.Length
    modifies ret
    ensures ret[at..at + w] == Put(n, w)
    ensures forall i | 0 <= i < ret.Length && !(at <= i < at + w) :: ret[i] == old(ret[i])
  {
    var i, m := 0, n;
    while i < w
      invariant 0 <= i <= w && ret[at..at + i] + Low(Byte, m, w - i) == Low(Byte, n, w)
      invariant forall j | 0 <= j < ret.Length && !(at <= j < at + i) :: ret[j] == old(ret[j])
    {
      ghost var before := ret[at..at + i];
      ret[at + i] := m % 256;
      assert ret[at..at + i + 1] == before + [m % 256];
      m := m / 256;
      i := i + 1;
    }
  }

  /** Two fields of a fresh 16-byte buffer, with zeros between them if they do not touch. */
  method PutFields(big: u64, wb: nat, at: nat, lil: u64, wl: nat) returns (r: bytes)
    requires wb <= at <= wb + 1 && at + wl <= 16
    ensures r == Put(big, wb) + (if at > wb then [0] else []) + Put(lil, wl)
  {
    var ret := new byte[16](_ => 0);
    PutUint(ret, 0, big, wb);
    ghost var first := ret[..wb];
    PutUint(ret, at, lil, wl);
    assert ret[..wb] == first == Put(big, wb);
    assert ret[wb..at] == if at > wb then [0] else [];
    r := ret[..at + wl];
    assert r == ret[..wb] + ret[wb..at] + ret[at..at + wl];
  }

  /** The switch over the two widths. */
  method ZipUint64Pair(big: u64, lil: u64) returns (r: bytes)
    ensures r == ZipPair(big, lil)
  {
    var p, q := ByteLen(big), ByteLen(lil);
    if p == 0 && q == 0 {
      r := [];
    } else if p == 1 && q == 0 {
      r := PutFields(big, 1, 1, 0, 0);
      assert Put(0, 0) == [];
    } else if p <= 1 && q == 1 {
      r := PutFields(big, 1, 1, lil, 1);
    } else if p == 2 && q <= 1 {
      r := PutFields(big, 2, 2, lil, 1);
    } else if p <= 2 && q == 2 {
      r := PutFields(big, 2, 2, lil, 2);
    } else if p == 4 && q <= 1 {
      r := PutFields(big, 4, 4, lil, 1);
    } else if p == 4 && q == 2 {
      r := PutFields(big, 4, 4, lil, 2);
    } else if p <= 4 && q == 4 {
      r := PutFields(big, 4, 4, lil, 4);
    } else if p == 8 && q <= 1 {
      r := PutFields(big, 8, 8, lil, 1);
    } else if p == 8 && q == 2 {
      r := PutFields(big, 8, 8, lil, 2);
    } else if p == 8 && q == 4 {
      r := PutFields(big, 8, 8, lil, 4);
    } else if p <= 2 && q == 8 {
      r := PutFields(big, 2, 3, lil, 8);
    } else if p == 4 && q == 8 {
      r := PutFields(big, 4, 5, lil, 8);
    } else {
      r := PutFields(big, 8, 8, lil, 8);
    }
    assert Put(big, 1) + [] == Put(big, 1) && Put(big, 2) + [] == Put(big, 2);
    assert Put(big, 4) + [] == Put(big, 4) && Put(big, 8) + [] == Put(big, 8);
  }

  lemma GetBound(b: bytes)
    requires |b| <= 8
    ensures Get(b) < TWO64
  {
    ValueBound(Byte, b);
    PowMonotone(Byte, |b|, 8);
    PowersOfByte();
  }

  lemma PowersOfByte()
    ensures Pow(Byte, 1) == 0x100 && Pow(Byte, 2) == 0x1_0000 && Pow(Byte, 4) == 0x1_0000_0000 && Pow(Byte, 8) == TWO64
  {
    assert Pow(Byte, 1) == 256 * Pow(Byte, 0);
    assert Pow(Byte, 3) == 256 * Pow(Byte, 2);
    assert Pow(Byte, 5) == 256 * Pow(Byte, 4);
    assert Pow(Byte, 7) == 256 * Pow(Byte, 6);
  }

  function Field(b: bytes): u64
    requires |b| <= 8
  {
    GetBound(b);
    Get(b)
  }

  /** The inverse; lengths that no pair produces read as (0, 0). */
  function UnzipPair(b: bytes): (u64, u64) {
    match |b|
    case 0 => (0, 0)
    case 1 => (b[0], 0)
    case 2 => (b[0], b[1])
    case 3 => (Field(b[..2]), b[2])
    case 4 => (Field(b[..2]), Field(b[2..]))
    case 5 => (Field(b[..4]), b[4])
    case 6 => (Field(b[..4]), Field(b[4..]))
    case 8 => (Field(b[..4]), Field(b[4..]))
    case 9 => (Field(b[..8]), b[8])
    case 10 => (Field(b[..8]), Field(b[8..]))
    case 11 => (Field(b[..2]), Field(b[3..]))
    case 12 => (Field(b[..8]), Field(b[8..]))
    case 13 => (Field(b[..4]), Field(b[5..]))
    case 16 => (Field(b[..8]), Field(b[8..]))
    case _ => (0, 0)
  }

  lemma PutGet(n: u64, w: nat)
    requires w in {1, 2, 4, 8} && ByteLen(n) <= w
    ensures Get(Put(n, w)) == n && (w == 1 ==> Put(n, 1) == [n])
  {
    PowersOfByte();
    ValueOfLow(Byte, n, w);
    assert w == 1 ==> Low(Byte, n, 0) == [];
  }

  /** The widths zip uses for the two numbers. */
  function BigWidth(p: nat, q: nat): nat {
    if p <= 1 && q <= 1 then 1 else if p <= 2 && (q <= 2 || q == 8) then 2 else if p <= 4 then 4 else 8
  }

  function LilWidth(q: nat): nat {
    if q <= 1 then 1 else if q == 2 then 2 else if q == 4 then 4 else 8
  }

  /** Unzip inverts zip for all pairs, in all 25 combinations of widths. */
  lemma UnzipInvertsZip(big: u64, lil: u64)
    ensures UnzipPair(ZipPair(big, lil)) == (big, lil)
  {
    var p, q := ByteLen(big), ByteLen(lil);
    var v, u := BigWidth(p, q), LilWidth(q);
    PutGet(big, v);
    PutGet(lil, u);
    if p <= 1 && q <= 1 {
      assert p == 0 ==> big == 0;
      assert q == 0 ==> lil == 0;
    } else if q == 8 && v < 8 {
      PaddedParts(Put(big, v), Put(lil, u));
    } else {
      JoinedParts(Put(big, v), Put(lil, u));
    }
  }

  lemma PaddedParts(a: bytes, b: bytes)
    ensures var d := a + [0] + b; d[..|a|] == a && d[|a| + 1..] == b
  {
  }

  /** Whatever a buffer decodes to, zip needs no more bytes for it. */
  lemma ZipIsShortest(b: bytes)
    ensures var (big, lil) := UnzipPair(b); |ZipPair(big, lil)| <= |b|
  {
    PowersOfByte();
    if |b| <= 16 {
      var n := |b|;
      if n == 3 || n == 4 || n == 11 {
        ValueBound(Byte, b[..2]);
      }
      if n == 5 || n == 6 || n == 8 || n == 13 {
        ValueBound(Byte, b[..4]);
      }
      if n == 4 {
        ValueBound(Byte, b[2..]);
      }
      if n == 6 || n == 8 {
        ValueBound(Byte, b[4..]);
      }
      if n == 10 || n == 12 {
        ValueBound(Byte, b[8..]);
      }
    }
  }

  function ZipID(id: ID): (r: bytes)
    ensures |r| <= 16
  {
    ZipPair(id.time, id.src)
  }

  function UnzipID(b: bytes): ID {
    var (time, src) := UnzipPair(b); ID(src, time)
  }

  lemma UnzipInvertsZipID(id: ID)
    ensures UnzipID(ZipID(id)) == id
  {
    UnzipInvertsZip(id.time, id.src);
  }

  // ---- single numbers

  /** The shortest byte string of a number. */
  function ZipU64(v: u64): (r: bytes)
    ensures |r| <= 8
  {
    ShortestIsShortest(Byte, v);
    PowersOfByte();
    ShortestLength(Byte, v, 8);
    Shortest(Byte, v)
  }

  /** The loop that fills the buffer. */
  method ZipUint64(v0: u64) returns (r: bytes)
    ensures r == ZipU64(v0)
  {
    var v: nat := v0;
    r := [];
    while v > 0
      invariant r + Shortest(Byte, v) == Shortest(Byte, v0)
      decreases v
    {
      r := r + [v % 256];
      v := v / 256;
    }
  }

  lemma ShiftIn(g: nat, d: byte)
    ensures ((g % TWO64) * 256) % TWO64 + d == (d + 256 * g) % TWO64
  {
    var v, t := g % TWO64, g / TWO64;
    var s, r := v / 0x100_0000_0000_0000, v % 0x100_0000_0000_0000;
    Remainder(v * 256, s, 256 * r);
    Remainder(d + 256 * g, 256 * t + s, 256 * r + d);
  }

  /** The loop that reads it back, the last byte first; the shift drops what exceeds 64 bits. */
  method UnzipUint64(zip: bytes) returns (v: nat)
    ensures v == Get(zip) % TWO64
  {
    v := 0;
    var i := |zip|;
    assert zip[i..] == [];
    while i > 0
      invariant 0 <= i <= |zip| && v == Get(zip[i..]) % TWO64
    {
      i := i - 1;
      assert zip[i..][1..] == zip[i + 1..];
      ShiftIn(Get(zip[i + 1..]), zip[i]);
      assert Get(zip[i..]) == zip[i] + 256 * Get(zip[i + 1..]);
      v := (v * 256) % TWO64 + zip[i];
    }
    assert zip[0..] == zip;
  }

  predicate IsShortestBytes(b: bytes) { b != [] ==> b[|b| - 1] != 0 }

  /** Numbers and byte strings of at most eight bytes that do not end in zero correspond one to one. */
  lemma ZipU64IsABijection(v: u64, b: bytes)
    requires |b| <= 8
    ensures IsShortestBytes(ZipU64(v)) && Get(ZipU64(v)) == v
    ensures IsShortestBytes(b) ==> Get(b) < TWO64 && ZipU64(Field(b)) == b
    ensures |ZipU64(Field(b))| <= |b|
  {
    ShortestIsShortest(Byte, v);
    GetBound(b);
    ValueBound(Byte, b);
    ShortestLength(Byte, Get(b), |b|);
    if IsShortestBytes(b) {
      ShortestOfValue(Byte, b);
    }
  }

  // ---- integers: zig-zag

  /** `uint64(i*2) ^ uint64(i>>63)`: xor with all ones is the complement. */
  function ZigZag(i: i64): u64 {
    var twice := (2 * i) % TWO64;
    if i < 0 then TWO64 - 1 - twice else twice
  }

  /** `int64((u>>1) ^ -(u&1))`, as two's complement. */
  function ZagZig(u: u64): i64 {
    var half := u / 2;
    var word := if u % 2 == 1 then TWO64 - 1 - half else half;
    if word >= TWO63 then word - TWO64 else word
  }

  lemma ZigZagIsABijection(i: i64, u: u64)
    ensures ZagZig(ZigZag(i)) == i && ZigZag(ZagZig(u)) == u
  {
  }

  function ZipInteger(i: i64): bytes { ZipU64(ZigZag(i)) }

  function UnzipInteger(b: bytes): i64
    requires |b| <= 8
  {
    ZagZig(Field(b))
  }

  /** 64-bit integers and shortest byte strings correspond one to one. */
  lemma ZipIntegerIsABijection(i: i64, b: bytes)
    requires |b| <= 8
    ensures IsShortestBytes(ZipInteger(i)) && |ZipInteger(i)| <= 8 && UnzipInteger(ZipInteger(i)) == i
    ensures IsShortestBytes(b) ==> ZipInteger(UnzipInteger(b)) == b
    ensures |ZipInteger(UnzipInteger(b))| <= |b|
  {
    ZipU64IsABijection(ZigZag(i), b);
    ZigZagIsABijection(i, Field(b));
  }

  // ---- floats: the bit pattern reversed, so that round numbers get short

  lemma PowersOfBit()
    ensures Pow(Bit, 64) == TWO64
  {
    assert Pow(Bit, 8) == 256 by {
      assert Pow(Bit, 1) == 2 * Pow(Bit, 0);
      assert Pow(Bit, 3) == 2 * Pow(Bit, 2);
      assert Pow(Bit, 5) == 2 * Pow(Bit, 4);
      assert Pow(Bit, 7) == 2 * Pow(Bit, 6);
    }
    PowerSplits(8, 8);
    PowerSplits(16, 16);
    PowerSplits(32, 32);
  }

  lemma {:induction false} PowerSplits(v: nat, w: nat)
    ensures Pow(Bit, v + w) == Pow(Bit, v) * Pow(Bit, w)
  {
    if v > 0 {
      PowerSplits(v - 1, w);
      assert Pow(Bit, v + w) == 2 * Pow(Bit, v + w - 1);
    }
  }

  function Reverse64(x: u64): u64 {
    var bits := Reverse(Low(Bit, x, 64));
    ReversedBits(x);
    ValueBound(Bit, bits);
    PowersOfBit();
    Value(Bit, bits)
  }

  lemma {:induction false} ReversedBits(x: u64)
    ensures IsDigits(Bit, Reverse(Low(Bit, x, 64)))
  {
    var low := Low(Bit, x, 64);
    LowIsDigits(Bit, x, 64);
    forall i | 0 <= i < 64 ensures Reverse(low)[i] < 2 {
      ReverseKeeps(low, Reverse(low)[i]);
    }
  }

  lemma Reverse64Twice(x: u64)
    ensures Reverse64(Reverse64(x)) == x
  {
    var bits := Reverse(Low(Bit, x, 64));
    ReversedBits(x);
    LowOfValue(Bit, bits);
    ReverseTwice(Low(Bit, x, 64));
    PowersOfBit();
    ValueOfLow(Bit, x, 64);
  }

  function ZipFloat(bits: u64): bytes { ZipU64(Reverse64(bits)) }

  function UnzipFloat(b: bytes): u64
    requires |b| <= 8
  {
    Reverse64(Field(b))
  }

  /** Bit patterns of doubles and shortest byte strings correspond one to one. */
  lemma ZipFloatIsABijection(f: u64, b: bytes)
    requires |b| <= 8
    ensures IsShortestBytes(ZipFloat(f)) && |ZipFloat(f)| <= 8 && UnzipFloat(ZipFloat(f)) == f
    ensures IsShortestBytes(b) ==> ZipFloat(UnzipFloat(b)) == b
    ensures |ZipFloat(UnzipFloat(b))| <= |b|
  {
    ZipU64IsABijection(Reverse64(f), b);
    Reverse64Twice(f);
    Reverse64Twice(Field(b));
  }
}
