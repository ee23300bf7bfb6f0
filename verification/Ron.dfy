/** RON locators: 60-bit numbers read as ten base-64 digits, the order that DISCONT merges by. */
module Ron {
  import opened Digits
  import opened Ids
  import opened Seqs

  /** The value of a locator that was zero: it orders after every other one. */
  const RON60_TOP: int := TWO60 - 1 - TWO54

  /** The number of significant bits. */
  function BitLen(x: nat): nat {
    if x == 0 then 0 else 1 + BitLen(x / 2)
  }

  function LeadingZeros64(x: u64): int { 64 - BitLen(x) }

  /** The left-aligned form of a locator. */
  function NewRon60(x: u64): int {
    var y := x % TWO60;
    if y == 0 then RON60_TOP
    else
      ShiftIsWholeDigits(y);
      y * Pow(Bit, (LeadingZeros64(y) - 4) / 6 * 6)
  }

  /** Position of a left-aligned locator: headed by `~` first, then the digits in order. */
  function Place(r: int): int { (r + TWO54) % TWO60 }

  predicate LessThan(a: int, b: int) { Place(a) < Place(b) }

  // ---- digits, the most significant one first

  function Number(ds: seq<nat>): nat {
    if ds == [] then 0 else 64 * Number(ds[..|ds| - 1]) + ds[|ds| - 1]
  }

  function Zeros(n: nat): (r: seq<nat>)
    ensures |r| == n
  {
    if n == 0 then [] else Zeros(n - 1) + [0]
  }

  /** `d` moved up by n digits. */
  function Moved(d: nat, n: nat): nat {
    if n == 0 then d else 64 * Moved(d, n - 1)
  }

  function Written(x: nat): seq<nat> { Reverse(Shortest(Six, x)) }

  /** Ten digits, the number pushed to the left. */
  function Aligned(x: nat): seq<nat>
    requires x < TWO60
  {
    TenDigits(x);
    Written(x) + Zeros(10 - |Written(x)|)
  }

  lemma TenDigits(x: nat)
    requires x < TWO60
    ensures |Written(x)| <= 10
  {
    PowersOfSix();
    ShortestLength(Six, x, 10);
  }

  lemma PowersOfSix()
    ensures Pow(Six, 10) == TWO60 && Pow(Six, 9) == TWO54 && Pow(Six, 11) == 64 * TWO60
  {
    assert Pow(Six, 1) == 64 * Pow(Six, 0);
    assert Pow(Six, 3) == 64 * Pow(Six, 2);
    assert Pow(Six, 5) == 64 * Pow(Six, 4);
    assert Pow(Six, 7) == 64 * Pow(Six, 6);
    assert Pow(Six, 9) == 64 * Pow(Six, 8);
  }

  // ---- bits and base-64 digits

  lemma {:induction false} SixBits(x: nat)
    requires x > 0
    ensures x < 64 ==> 1 <= BitLen(x) <= 6
    ensures x >= 64 ==> BitLen(x) == 6 + BitLen(x / 64)
  {
    var a := x / 2;
    var b := a / 2;
    var c := b / 2;
    var d := c / 2;
    var e := d / 2;
    assert e / 2 == x / 64;
    assert BitLen(x) == 1 + BitLen(a);
    assert BitLen(a) == if a == 0 then 0 else 1 + BitLen(b);
    assert BitLen(b) == if b == 0 then 0 else 1 + BitLen(c);
    assert BitLen(c) == if c == 0 then 0 else 1 + BitLen(d);
    assert BitLen(d) == if d == 0 then 0 else 1 + BitLen(e);
    assert BitLen(e) == if e == 0 then 0 else 1 + BitLen(e / 2);
  }

  lemma {:induction false} BitsOfDigits(x: nat)
    requires x > 0
    ensures 6 * |Shortest(Six, x)| - 6 < BitLen(x) <= 6 * |Shortest(Six, x)|
    decreases x
  {
    SixBits(x);
    if x >= 64 {
      BitsOfDigits(x / 64);
    } else {
      assert Shortest(Six, x / 64) == [];
    }
  }

  /** The shift moves the number by whole digits, up to the tenth. */
  lemma ShiftIsWholeDigits(x: nat)
    requires 0 < x < TWO60
    ensures (LeadingZeros64(x) - 4) / 6 * 6 == 6 * (10 - |Written(x)|)
    ensures |Written(x)| <= 10
  {
    TenDigits(x);
    BitsOfDigits(x);
  }

  lemma {:induction false} PowerOfSixBits(n: nat)
    ensures Pow(Bit, 6 * n) == Pow(Six, n)
  {
    if n > 0 {
      PowerOfSixBits(n - 1);
      var m := 6 * (n - 1);
      assert Pow(Bit, m + 2) == 2 * Pow(Bit, m + 1) && Pow(Bit, m + 1) == 2 * Pow(Bit, m);
      assert Pow(Bit, m + 4) == 2 * Pow(Bit, m + 3) && Pow(Bit, m + 3) == 2 * Pow(Bit, m + 2);
      assert Pow(Bit, m + 6) == 2 * Pow(Bit, m + 5) && Pow(Bit, m + 5) == 2 * Pow(Bit, m + 4);
    }
  }

  lemma {:induction false} MovedIsProduct(x: nat, n: nat)
    ensures x * Pow(Six, n) == Moved(x, n)
  {
    if n > 0 {
      MovedIsProduct(x, n - 1);
      assert x * (64 * Pow(Six, n - 1)) == 64 * (x * Pow(Six, n - 1));
    }
  }

  lemma {:induction false} NumberOfReverse(ds: seq<nat>)
    ensures Number(Reverse(ds)) == Value(Six, ds)
  {
    if ds != [] {
      NumberOfReverse(ds[1..]);
      var r := Reverse(ds);
      assert r[..|r| - 1] == Reverse(ds[1..]);
    }
  }

  lemma {:induction false} NumberThenZeros(ds: seq<nat>, n: nat)
    ensures Number(ds + Zeros(n)) == Moved(Number(ds), n)
    decreases n
  {
    var all := ds + Zeros(n);
    if n == 0 {
      assert all == ds;
    } else {
      NumberThenZeros(ds, n - 1);
      assert all[..|all| - 1] == ds + Zeros(n - 1);
    }
  }

  lemma {:induction false} Ron60IsMoved(x: u64)
    requires 0 < x < TWO60
    ensures |Written(x)| <= 10 && NewRon60(x) == Moved(x, 10 - |Written(x)|)
  {
    ShiftIsWholeDigits(x);
    var n := 10 - |Written(x)|;
    PowerOfSixBits(n);
    MovedIsProduct(x, n);
    assert x % TWO60 == x && NewRon60(x) == x * Pow(Six, n);
  }

  lemma WrittenIsNumber(x: nat)
    ensures Number(Written(x)) == x && AreDigits(Written(x))
  {
    ShortestIsShortest(Six, x);
    NumberOfReverse(Shortest(Six, x));
    ReverseOfDigits(Shortest(Six, x));
  }

  /** The left-aligned form is the number of the left-aligned digits. */
  lemma Ron60IsAligned(x: u64)
    requires 0 < x < TWO60
    ensures NewRon60(x) == Number(Aligned(x)) && |Aligned(x)| == 10 && AreDigits(Aligned(x))
  {
    var n := 10 - |Written(x)|;
    Ron60IsMoved(x);
    WrittenIsNumber(x);
    NumberThenZeros(Written(x), n);
    ZerosAreDigits(n);
  }

  predicate AreDigits(ds: seq<nat>) { forall i | 0 <= i < |ds| :: ds[i] < 64 }

  lemma {:induction false} ReverseOfDigits(ds: seq<nat>)
    requires IsDigits(Six, ds)
    ensures AreDigits(Reverse(ds))
  {
    forall i | 0 <= i < |ds| ensures Reverse(ds)[i] < 64 {
      ReverseKeeps(ds, Reverse(ds)[i]);
    }
  }

  lemma {:induction false} ZerosAreDigits(n: nat)
    ensures AreDigits(Zeros(n))
  {
    if n > 0 {
      ZerosAreDigits(n - 1);
    }
  }

  // ---- the order

  /** The first digit where two strings differ decides. */
  predicate Before(a: seq<nat>, b: seq<nat>)
    requires |a| == |b|
  {
    exists i | 0 <= i < |a| :: a[..i] == b[..i] && a[i] < b[i]
  }

  /** Numbers of equally many digits compare as their digit strings do. */
  lemma {:induction false} NumberOrder(a: seq<nat>, b: seq<nat>)
    requires |a| == |b| && AreDigits(a) && AreDigits(b)
    ensures Number(a) < Number(b) <==> Before(a, b)
    ensures Number(a) == Number(b) <==> a == b
    decreases |a|
  {
    if a != [] {
      var n := |a| - 1;
      NumberOrder(a[..n], b[..n]);
      BeforeByLast(a, b);
      SplitLast(a);
      SplitLast(b);
    }
  }

  lemma BeforeByLast(a: seq<nat>, b: seq<nat>)
    requires |a| == |b| && a != []
    ensures var n := |a| - 1;
            Before(a, b) <==> Before(a[..n], b[..n]) || (a[..n] == b[..n] && a[n] < b[n])
  {
    var n := |a| - 1;
    var c, d := a[..n], b[..n];
    if Before(c, d) {
      var i :| 0 <= i < n && c[..i] == d[..i] && c[i] < d[i];
      assert a[..i] == c[..i] && b[..i] == d[..i];
    }
    if Before(a, b) {
      var i :| 0 <= i < |a| && a[..i] == b[..i] && a[i] < b[i];
      if i < n {
        assert c[..i] == a[..i] && d[..i] == b[..i] && c[i] < d[i];
      }
    }
  }

  lemma {:induction false} FirstDigit(d: nat, ds: seq<nat>)
    ensures Number([d] + ds) == Moved(d, |ds|) + Number(ds)
    decreases |ds|
  {
    var all := [d] + ds;
    if ds == [] {
      assert all[..0] == [];
    } else {
      assert all[..|all| - 1] == [d] + ds[..|ds| - 1];
      FirstDigit(d, ds[..|ds| - 1]);
    }
  }

  lemma {:induction false} NineDigits(d: nat, ds: seq<nat>)
    requires |ds| == 9 && AreDigits(ds)
    ensures Number([d] + ds) == TWO54 * d + Number(ds) && Number(ds) < TWO54
  {
    FirstDigit(d, ds);
    assert Moved(d, 3) == 64 * Moved(d, 2) && Moved(d, 2) == 64 * Moved(d, 1) && Moved(d, 1) == 64 * d;
    assert Moved(d, 6) == 64 * Moved(d, 5) && Moved(d, 5) == 64 * Moved(d, 4) && Moved(d, 4) == 64 * Moved(d, 3);
    assert Moved(d, 9) == 64 * Moved(d, 8) && Moved(d, 8) == 64 * Moved(d, 7) && Moved(d, 7) == 64 * Moved(d, 6);
    NumberBound(ds);
    PowersOfSix();
  }

  lemma {:induction false} NumberBound(ds: seq<nat>)
    requires AreDigits(ds)
    ensures Number(ds) < Pow(Six, |ds|)
    decreases |ds|
  {
    if ds != [] {
      NumberBound(ds[..|ds| - 1]);
    }
  }

  /** The head digit turned by one, so that `~` counts lowest and 0 next. */
  function Turned(a: seq<nat>): seq<nat>
    requires a != []
  {
    [(a[0] + 1) % 64] + a[1..]
  }

  lemma {:induction false} PlaceOfAligned(a: seq<nat>)
    requires |a| == 10 && AreDigits(a)
    ensures Place(Number(a)) == Number(Turned(a))
  {
    var t := (a[0] + 1) % 64;
    calc {
      Place(Number(a));
    == { TenthDigit(a); PlaceTurnsTheHead(Number(a), a[0], Number(a[1..]), t); }
      TWO54 * t + Number(a[1..]);
    == { TurnedParts(a); TenthDigit(Turned(a)); }
      Number(Turned(a));
    }
  }

  lemma TurnedParts(a: seq<nat>)
    requires a != []
    ensures |Turned(a)| == |a| && Turned(a)[0] == (a[0] + 1) % 64 && Turned(a)[1..] == a[1..]
  {
  }

  lemma {:induction false} TenthDigit(a: seq<nat>)
    requires |a| == 10 && AreDigits(a[1..])
    ensures Number(a) == TWO54 * a[0] + Number(a[1..]) && Number(a[1..]) < TWO54
  {
    assert a == [a[0]] + a[1..];
    NineDigits(a[0], a[1..]);
  }

  lemma PlaceTurnsTheHead(r: nat, d: nat, low: nat, t: nat)
    requires r == TWO54 * d + low && d < 64 && low < TWO54 && t == (d + 1) % 64
    ensures Place(r) == TWO54 * t + low
  {
    assert TWO60 == 64 * TWO54;
  }

  lemma TurnedIsOneToOne(a: seq<nat>, b: seq<nat>)
    requires |a| == 10 == |b| && AreDigits(a) && AreDigits(b)
    ensures Turned(a) == Turned(b) <==> a == b
    ensures AreDigits(Turned(a)) && |Turned(a)| == 10
  {
    var t, u := Turned(a), Turned(b);
    assert t[1..] == a[1..] && u[1..] == b[1..];
    if t == u {
      assert t[0] == u[0] && a[0] == b[0];
      assert a == [a[0]] + a[1..] && b == [b[0]] + b[1..];
    }
  }

  /** Locators order as left-aligned digit strings, those headed by `~` first. */
  lemma LocatorOrder(x: u64, y: u64)
    requires 0 < x < TWO60 && 0 < y < TWO60
    ensures |Aligned(x)| == 10 && |Aligned(y)| == 10
    ensures LessThan(NewRon60(x), NewRon60(y)) <==> Before(Turned(Aligned(x)), Turned(Aligned(y)))
    ensures Place(NewRon60(x)) == Place(NewRon60(y)) <==> Aligned(x) == Aligned(y)
  {
    Ron60IsAligned(x);
    Ron60IsAligned(y);
    AlignedOrder(Aligned(x), Aligned(y));
  }

  lemma {:induction false} AlignedOrder(a: seq<nat>, b: seq<nat>)
    requires |a| == 10 == |b| && AreDigits(a) && AreDigits(b)
    ensures LessThan(Number(a), Number(b)) <==> Before(Turned(a), Turned(b))
    ensures Place(Number(a)) == Place(Number(b)) <==> a == b
  {
    PlaceOfAligned(a);
    PlaceOfAligned(b);
    TurnedIsOneToOne(a, b);
    TurnedIsOneToOne(b, a);
    NumberOrder(Turned(a), Turned(b));
  }

  /** Zero orders strictly last, but for the one number whose form is the one given to zero. */
  lemma ZeroIsLast(x: u64)
    requires 0 < x < TWO60
    ensures LessThan(NewRon60(x), NewRon60(0)) <==> x != RON60_TOP
    ensures x < TWO60 / 4 ==> LessThan(NewRon60(x), NewRon60(0))
  {
    Ron60IsMoved(x);
    Ron60IsAligned(x);
    NumberBound(Aligned(x));
    PowersOfSix();
    BelowTop(NewRon60(x));
    assert NewRon60(0) == RON60_TOP;
    if |Written(x)| < 10 {
      MovedEndsInZero(x, 10 - |Written(x)|);
    }
    if x == RON60_TOP {
      FullWidth(x);
    }
  }

  lemma {:induction false} MovedEndsInZero(x: nat, n: nat)
    requires n > 0
    ensures Moved(x, n) % 64 == 0 && Moved(x, n) != RON60_TOP
  {
  }

  lemma BelowTop(r: nat)
    requires r < TWO60
    ensures LessThan(r, RON60_TOP) <==> r != RON60_TOP
  {
  }

  lemma FullWidth(x: nat)
    requires TWO54 <= x < TWO60
    ensures |Written(x)| == 10
  {
    TenDigits(x);
    PowersOfSix();
    ShortestIsShortest(Six, x);
    ValueBound(Six, Shortest(Six, x));
    if |Shortest(Six, x)| <= 9 {
      PowMonotone(Six, |Shortest(Six, x)|, 9);
    }
  }

  // ---- reading a locator back

  function TrailingZeros64(x: nat): nat
    requires x > 0
  {
    if x % 2 == 1 then 0 else 1 + TrailingZeros64(x / 2)
  }

  /** The number without the digits that the alignment added. */
  function Uint64(r: nat): nat {
    if r == RON60_TOP || r == 0 then 0 else r / Pow(Bit, TrailingZeros64(r) / 6 * 6)
  }

  /** A number without its zero digits at the end. */
  function Stripped(x: nat): nat {
    if x > 0 && x % 64 == 0 then Stripped(x / 64) else x
  }

  lemma {:induction false} SixTrailing(x: nat)
    requires x > 0
    ensures x % 64 == 0 ==> TrailingZeros64(x) == 6 + TrailingZeros64(x / 64)
    ensures x % 64 != 0 ==> TrailingZeros64(x) < 6
  {
    var a := x / 2;
    var b := a / 2;
    var c := b / 2;
    var d := c / 2;
    var e := d / 2;
    assert e / 2 == x / 64;
    assert x % 2 == 1 || (a > 0 && TrailingZeros64(x) == 1 + TrailingZeros64(a));
    assert a > 0 ==> a % 2 == 1 || (b > 0 && TrailingZeros64(a) == 1 + TrailingZeros64(b));
    assert b > 0 ==> b % 2 == 1 || (c > 0 && TrailingZeros64(b) == 1 + TrailingZeros64(c));
    assert c > 0 ==> c % 2 == 1 || (d > 0 && TrailingZeros64(c) == 1 + TrailingZeros64(d));
    assert d > 0 ==> d % 2 == 1 || (e > 0 && TrailingZeros64(d) == 1 + TrailingZeros64(e));
    assert e > 0 ==> e % 2 == 1 || (e / 2 > 0 && TrailingZeros64(e) == 1 + TrailingZeros64(e / 2));
  }

  /** Shifting by one more digit. */
  lemma ShiftMore(r: nat, k: nat)
    ensures r / Pow(Bit, 6 * (k + 1)) == (r / 64) / Pow(Bit, 6 * k)
  {
    PowerOfSixBits(k);
    PowerOfSixBits(k + 1);
    DividesTwice(r, 64, Pow(Six, k));
  }

  lemma {:induction false} ShiftStrips(r: nat)
    requires r > 0
    ensures r / Pow(Bit, TrailingZeros64(r) / 6 * 6) == Stripped(r)
    decreases r
  {
    SixTrailing(r);
    if r % 64 == 0 {
      var k := TrailingZeros64(r / 64) / 6;
      ShiftStrips(r / 64);
      assert TrailingZeros64(r) / 6 * 6 == 6 * (k + 1) && TrailingZeros64(r / 64) / 6 * 6 == 6 * k;
      ShiftMore(r, k);
    } else {
      assert TrailingZeros64(r) / 6 * 6 == 0;
    }
  }

  lemma {:induction false} StrippedOfMoved(x: nat, n: nat)
    requires x > 0
    ensures Moved(x, n) > 0 && Stripped(Moved(x, n)) == Stripped(x)
  {
    if n > 0 {
      StrippedOfMoved(x, n - 1);
      StripsZero(Moved(x, n - 1));
    }
  }

  lemma {:induction false} StripsZero(m: nat)
    requires m > 0
    ensures Stripped(64 * m) == Stripped(m)
  {
    assert (64 * m) % 64 == 0 && (64 * m) / 64 == m;
  }

  /** What a locator reads back as: the number without trailing zero digits; all forms of one position read the same. */
  lemma {:induction false} Uint64OfRon60(x: u64)
    requires 0 < x < TWO60
    ensures NewRon60(x) >= 0
    ensures Uint64(NewRon60(x)) == if x == RON60_TOP then 0 else Stripped(x)
  {
    Ron60IsMoved(x);
    ZeroIsLast(x);
    assert NewRon60(0) == RON60_TOP;
    StrippedOfMoved(x, 10 - |Written(x)|);
    ShiftStrips(NewRon60(x));
    if x == RON60_TOP {
      FullWidth(x);
    }
  }
}
