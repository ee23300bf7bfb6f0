/** Numbers as digit strings, least digit first: bytes, bits and base-64 letters alike. */
module Digits {
  /** Bits, base-64 letters, bytes: three constants, so that all arithmetic stays linear. */
  datatype Base = Bit | Six | Byte {
    function Size(): nat {
      match this case Bit => 2 case Six => 64 case Byte => 256
    }

    function Times(n: nat): nat {
      match this case Bit => 2 * n case Six => 64 * n case Byte => 256 * n
    }

    function Div(n: nat): nat {
      match this case Bit => n / 2 case Six => n / 64 case Byte => n / 256
    }

    function Mod(n: nat): nat {
      match this case Bit => n % 2 case Six => n % 64 case Byte => n % 256
    }
  }

  function Pow(b: Base, w: nat): (r: nat)
    ensures r > 0
  {
    if w == 0 then 1 else b.Times(Pow(b, w - 1))
  }

  /** The w lowest digits of n. */
  function Low(b: Base, n: nat, w: nat): (r: seq<nat>)
    ensures |r| == w
  {
    if w == 0 then [] else [b.Mod(n)] + Low(b, b.Div(n), w - 1)
  }

  function Value(b: Base, ds: seq<nat>): nat {
    if ds == [] then 0 else ds[0] + b.Times(Value(b, ds[1..]))
  }

  predicate IsDigits(b: Base, ds: seq<nat>) { forall i | 0 <= i < |ds| :: ds[i] < b.Size() }

  lemma DivMod(b: Base, d: nat, q: nat)
    requires d < b.Size()
    ensures b.Mod(d + b.Times(q)) == d && b.Div(d + b.Times(q)) == q
  {
    match b
    case Bit => DivModBit(d, q);
    case Six => DivModSix(d, q);
    case Byte => DivModByte(d, q);
  }

  lemma DivModBit(d: nat, q: nat)
    requires d < 2
    ensures (d + 2 * q) % 2 == d && (d + 2 * q) / 2 == q
  {
  }

  lemma DivModSix(d: nat, q: nat)
    requires d < 64
    ensures (d + 64 * q) % 64 == d && (d + 64 * q) / 64 == q
  {
  }

  lemma DivModByte(d: nat, q: nat)
    requires d < 256
    ensures (d + 256 * q) % 256 == d && (d + 256 * q) / 256 == q
  {
  }

  // ---- dividing

  lemma DividesTwice(n: nat, s: nat, p: nat)
    requires p > 0 && s > 0
    ensures s * p > 0 && n / (s * p) == (n / s) / p
  {
    var m := n / s;
    var q, r := m / p, m % p;
    Regrouped(n, s, p, m, q, r);
    QuotientIs(n, s * p, q, s * r + n % s);
  }

  lemma Regrouped(n: nat, s: nat, p: nat, m: nat, q: nat, r: nat)
    requires s > 0 && p > 0 && m == n / s && m == p * q + r && r < p
    ensures s * p > 0 && n == (s * p) * q + (s * r + n % s) && s * r + n % s < s * p
  {
    assert n == s * m + n % s;
    assert s * m == s * (p * q) + s * r;
    assert s * (p * q) == (s * p) * q;
    ProductGrows(s, r, p);
  }

  lemma ProductGrows(p: nat, x: nat, y: nat)
    requires x < y
    ensures p * x + p <= p * y
  {
    assert p * (y - x - 1) >= 0;
    assert p * (y - x - 1) == p * y - p * x - p;
  }

  lemma QuotientIs(n: nat, p: nat, q: nat, r: nat)
    requires p > 0 && n == p * q + r && r < p
    ensures n / p == q && n % p == r
  {
    if n / p > q {
      ProductGrows(p, q, n / p);
    } else if n / p < q {
      ProductGrows(p, n / p, q);
    }
  }

  // ---- digit strings

  lemma {:induction false} LowIsDigits(b: Base, n: nat, w: nat)
    ensures IsDigits(b, Low(b, n, w))
  {
    if w > 0 {
      LowIsDigits(b, b.Div(n), w - 1);
    }
  }

  /** Enough digits determine the number. */
  lemma {:induction false} ValueOfLow(b: Base, n: nat, w: nat)
    requires n < Pow(b, w)
    ensures Value(b, Low(b, n, w)) == n
  {
    if w > 0 {
      ValueOfLow(b, b.Div(n), w - 1);
      assert Low(b, n, w)[1..] == Low(b, b.Div(n), w - 1);
    }
  }

  /** The number determines its digits. */
  lemma {:induction false} LowOfValue(b: Base, ds: seq<nat>)
    requires IsDigits(b, ds)
    ensures Low(b, Value(b, ds), |ds|) == ds
  {
    if ds != [] {
      DivMod(b, ds[0], Value(b, ds[1..]));
      LowOfValue(b, ds[1..]);
    }
  }

  lemma {:induction false} ValueBound(b: Base, ds: seq<nat>)
    requires IsDigits(b, ds)
    ensures Value(b, ds) < Pow(b, |ds|)
  {
    if ds != [] {
      ValueBound(b, ds[1..]);
    }
  }

  lemma {:induction false} PowMonotone(b: Base, v: nat, w: nat)
    requires v <= w
    ensures Pow(b, v) <= Pow(b, w)
  {
    if v < w {
      PowMonotone(b, v, w - 1);
    }
  }

  // ---- the shortest digit string

  /** As many digits as it takes, none of them a leading zero. */
  function Shortest(b: Base, n: nat): seq<nat>
    decreases n
  {
    if n == 0 then [] else [b.Mod(n)] + Shortest(b, b.Div(n))
  }

  predicate IsShortest(b: Base, ds: seq<nat>) {
    IsDigits(b, ds) && (ds != [] ==> ds[|ds| - 1] != 0)
  }

  lemma {:induction false} ShortestIsShortest(b: Base, n: nat)
    ensures IsShortest(b, Shortest(b, n)) && Value(b, Shortest(b, n)) == n
    decreases n
  {
    if n > 0 {
      ShortestIsShortest(b, b.Div(n));
      assert Shortest(b, n)[1..] == Shortest(b, b.Div(n));
    }
  }

  lemma {:induction false} ShortestOfValue(b: Base, ds: seq<nat>)
    requires IsShortest(b, ds)
    ensures Shortest(b, Value(b, ds)) == ds
    ensures ds != [] ==> Value(b, ds) > 0
  {
    if ds != [] {
      ShortestOfValue(b, ds[1..]);
      DivMod(b, ds[0], Value(b, ds[1..]));
      assert ds == [ds[0]] + ds[1..];
    }
  }

  lemma {:induction false} ShortestLength(b: Base, n: nat, w: nat)
    requires n < Pow(b, w)
    ensures |Shortest(b, n)| <= w
    decreases w
  {
    if n > 0 {
      ShortestLength(b, b.Div(n), w - 1);
    }
  }

  // ---- reversal

  function Reverse<T>(s: seq<T>): (r: seq<T>)
    ensures |r| == |s|
  {
    if s == [] then [] else Reverse(s[1..]) + [s[0]]
  }

  lemma {:induction false} ReverseAppends<T>(s: seq<T>, t: T)
    ensures Reverse(s + [t]) == [t] + Reverse(s)
  {
    if s != [] {
      assert (s + [t])[1..] == s[1..] + [t];
      ReverseAppends(s[1..], t);
    }
  }

  lemma {:induction false} ReverseTwice<T>(s: seq<T>)
    ensures Reverse(Reverse(s)) == s
  {
    if s != [] {
      ReverseAppends(Reverse(s[1..]), s[0]);
      ReverseTwice(s[1..]);
    }
  }

  lemma {:induction false} ReverseKeeps<T>(s: seq<T>, x: T)
    ensures x in Reverse(s) <==> x in s
  {
    if s != [] {
      ReverseKeeps(s[1..], x);
    }
  }
}
