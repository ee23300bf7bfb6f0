/** The number codes byte by byte and bit by bit; the float code turns the pattern round, so that patterns which end in zeros get short. */
module Bits {
  import opened Ids
  import opened Digits
  import opened Zip

  /** Digit i of x, the lowest one being digit 0. */
  function DigitOf(b: Base, x: nat, i: nat): nat { (x / Pow(b, i)) % b.Size() }

  /** Bit i of x. */
  function BitOf(x: nat, i: nat): nat { (x / Pow(Bit, i)) % 2 }

  lemma {:induction false} LowIsDigitOf(b: Base, x: nat, w: nat, i: nat)
    requires i < w
    ensures Low(b, x, w)[i] == DigitOf(b, x, i)
    decreases w
  {
    if i > 0 {
      LowIsDigitOf(b, b.Div(x), w - 1, i - 1);
      DividesTwice(x, b.Size(), Pow(b, i - 1));
    }
  }

  lemma NextDigit(x: nat, i: nat)
    ensures DigitOf(Six, x, i) == if i == 0 then x % 64 else DigitOf(Six, x / 64, i - 1)
  {
    if i > 0 {
      DividesTwice(x, 64, Pow(Six, i - 1));
    }
  }

  /** The short forms of a pair, byte by byte; of an id the time comes first. */
  lemma PairsOutright(big: u64, lil: u64)
    requires big < 65536 && lil < 65536
    ensures ZipPair(big, lil)
         == if lil < 256 && big < 256 then (if lil > 0 then [big, lil] else if big > 0 then [big] else [])
            else if lil < 256 then [big % 256, big / 256, lil]
            else [big % 256, big / 256, lil % 256, lil / 256]
    ensures ZipID(ID(lil, big)) == ZipPair(big, lil)
  {
    TwoBytes(big);
    TwoBytes(lil);
  }

  lemma TwoBytes(n: nat)
    requires n < 65536
    ensures Put(n, 2) == [n % 256, n / 256]
    ensures n < 256 ==> Put(n, 1) == [n]
  {
    assert Low(Byte, n, 2) == [n % 256] + Low(Byte, n / 256, 1);
    assert Low(Byte, n / 256, 1) == [n / 256 % 256];
    assert Low(Byte, n, 1) == [n % 256];
  }

  /** The length bytes of a header, and every number in a pair: byte i is digit i to the base 256. */
  lemma PutIsLittleEndian(n: nat, w: nat, i: nat)
    requires i < w
    ensures Put(n, w)[i] == (n / Pow(Byte, i)) % 256
  {
    LowIsDigitOf(Byte, n, w, i);
  }

  lemma {:induction false} ShortestIsDigitOf(b: Base, x: nat, i: nat)
    requires i < |Shortest(b, x)|
    ensures Shortest(b, x)[i] == DigitOf(b, x, i)
    decreases i
  {
    if i > 0 {
      ShortestIsDigitOf(b, b.Div(x), i - 1);
      DividesTwice(x, b.Size(), Pow(b, i - 1));
    }
  }

  /** So is byte i of a number in its shortest form. */
  lemma ZipIsLittleEndian(v: u64, i: nat)
    requires i < |ZipU64(v)|
    ensures ZipU64(v)[i] == (v / Pow(Byte, i)) % 256
  {
    ShortestIsDigitOf(Byte, v, i);
  }

  /** Zig-zag: 0, -1, 1, -2, 2 and so on become 0, 1, 2, 3, 4. */
  lemma ZigZagAlternates(i: i64)
    ensures ZigZag(i) == if i < 0 then -2 * i - 1 else 2 * i
  {
  }

  lemma {:induction false} ReverseAt<T>(s: seq<T>, i: nat)
    requires i < |s|
    ensures Reverse(s)[i] == s[|s| - 1 - i]
  {
    if i < |s| - 1 {
      ReverseAt(s[1..], i);
    }
  }

  /** Reversing puts bit i where bit 63 - i was. */
  lemma ReversedBit(x: u64, i: nat)
    requires i < 64
    ensures BitOf(Reverse64(x), i) == BitOf(x, 63 - i)
  {
    var bits := Reverse(Low(Bit, x, 64));
    ReversedBits(x);
    LowOfValue(Bit, bits);
    LowIsDigitOf(Bit, Reverse64(x), 64, i);
    LowIsDigitOf(Bit, x, 64, 63 - i);
    ReverseAt(Low(Bit, x, 64), i);
  }

  // ---- which patterns get short

  lemma {:induction false} SmallIff(ds: seq<nat>, m: nat)
    requires IsDigits(Bit, ds)
    ensures Value(Bit, ds) < Pow(Bit, m) <==> forall i | m <= i < |ds| :: ds[i] == 0
    decreases |ds|
  {
    if ds != [] {
      var rest := ds[1..];
      if m == 0 {
        SmallIff(rest, 0);
        assert ds[0] == 0 && (forall i | 0 <= i < |rest| :: rest[i] == 0) <==> forall i | 0 <= i < |ds| :: ds[i] == 0 by {
          assert forall i | 0 <= i < |rest| :: rest[i] == ds[i + 1];
          assert forall i | 0 < i < |ds| :: ds[i] == rest[i - 1];
        }
      } else {
        SmallIff(rest, m - 1);
        assert forall i | m - 1 <= i < |rest| :: rest[i] == ds[i + 1];
        assert forall i | m <= i < |ds| :: ds[i] == rest[i - 1];
      }
    }
  }

  lemma {:induction false} MultipleIff(ds: seq<nat>, m: nat)
    requires IsDigits(Bit, ds) && m <= |ds|
    ensures Value(Bit, ds) % Pow(Bit, m) == 0 <==> forall i | 0 <= i < m :: ds[i] == 0
    decreases |ds|
  {
    if m > 0 {
      var rest := ds[1..];
      MultipleIff(rest, m - 1);
      EvenMultiple(ds[0], Value(Bit, rest), Pow(Bit, m - 1));
      assert forall i | 0 <= i < m - 1 :: rest[i] == ds[i + 1];
      assert forall i | 0 < i < m :: ds[i] == rest[i - 1];
    }
  }

  lemma EvenMultiple(d: nat, v: nat, p: nat)
    requires d < 2 && p > 0
    ensures (d + 2 * v) % (2 * p) == 0 <==> d == 0 && v % p == 0
  {
    var q, r := v / p, v % p;
    assert v == p * q + r;
    assert d + 2 * v == (2 * p) * q + (d + 2 * r) && d + 2 * r < 2 * p;
    QuotientIs(d + 2 * v, 2 * p, q, d + 2 * r);
  }

  lemma {:induction false} BytesAreBits(n: nat)
    ensures Pow(Byte, n) == Pow(Bit, 8 * n)
  {
    if n > 0 {
      BytesAreBits(n - 1);
      EightMore(8 * (n - 1));
    }
  }

  lemma EightMore(m: nat)
    ensures Pow(Bit, m + 8) == 256 * Pow(Bit, m)
  {
    assert Pow(Bit, m + 2) == 2 * Pow(Bit, m + 1) && Pow(Bit, m + 4) == 2 * Pow(Bit, m + 3);
    assert Pow(Bit, m + 6) == 2 * Pow(Bit, m + 5) && Pow(Bit, m + 8) == 2 * Pow(Bit, m + 7);
  }

  lemma {:induction false} LengthIff(v: u64, n: nat)
    ensures |ZipU64(v)| <= n <==> v < Pow(Byte, n)
  {
    ShortestIsShortest(Byte, v);
    ValueBound(Byte, Shortest(Byte, v));
    if |ZipU64(v)| <= n {
      PowMonotone(Byte, |ZipU64(v)|, n);
    } else if v < Pow(Byte, n) {
      ShortestLength(Byte, v, n);
    }
  }

  lemma ZerosTurnRound(low: seq<nat>, bits: seq<nat>, m: nat)
    requires |low| == |bits| == 64 && m <= 64 && forall i | 0 <= i < 64 :: bits[i] == low[63 - i]
    ensures (forall i | m <= i < 64 :: bits[i] == 0) <==> (forall i | 0 <= i < 64 - m :: low[i] == 0)
  {
    forall i | 0 <= i < 64 ensures low[i] == bits[63 - i] { assert bits[63 - i] == low[63 - (63 - i)]; }
  }

  lemma ReversedDigits(x: u64)
    ensures var low, bits := Low(Bit, x, 64), Reverse(Low(Bit, x, 64));
            && IsDigits(Bit, low) && IsDigits(Bit, bits) && Value(Bit, low) == x && Value(Bit, bits) == Reverse64(x)
            && forall i | 0 <= i < 64 :: bits[i] == low[63 - i]
  {
    ReversedBits(x);
    LowIsDigits(Bit, x, 64);
    PowersOfBit();
    ValueOfLow(Bit, x, 64);
    forall i | 0 <= i < 64 ensures Reverse(Low(Bit, x, 64))[i] == Low(Bit, x, 64)[63 - i] { ReverseAt(Low(Bit, x, 64), i); }
  }

  /** A pattern takes at most n bytes exactly when its low 64 - 8n bits are zero. */
  lemma ShortFloatIff(x: u64, n: nat)
    requires n <= 8
    ensures |ZipFloat(x)| <= n <==> x % Pow(Bit, 64 - 8 * n) == 0
  {
    var low, bits := Low(Bit, x, 64), Reverse(Low(Bit, x, 64));
    ReversedDigits(x);
    LengthIff(Reverse64(x), n);
    BytesAreBits(n);
    SmallIff(bits, 8 * n);
    MultipleIff(low, 64 - 8 * n);
    ZerosTurnRound(low, bits, 8 * n);
  }
}
