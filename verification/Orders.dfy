/** The value orders, said outright: what is the larger string, number, id and type, and which value stays. */
module Orders {
  import opened Digits
  import opened Ids
  import opened Elements
  import opened Merge
  import Ron

  // ---- byte strings

  /** They agree up to some byte, which is lower in a. */
  ghost predicate DiffersLower(a: bytes, b: bytes) {
    exists i | 0 <= i < |a| && i < |b| :: a[..i] == b[..i] && a[i] < b[i]
  }

  /** a is a proper prefix of b, or the first byte in which they differ is lower in a. */
  ghost predicate InDictionaryBefore(a: bytes, b: bytes) { a < b || DiffersLower(a, b) }

  lemma DiffersInTail(a: bytes, b: bytes)
    requires a != [] && b != [] && a[0] == b[0] && DiffersLower(a, b)
    ensures DiffersLower(a[1..], b[1..])
  {
    var i :| 0 <= i < |a| && i < |b| && a[..i] == b[..i] && a[i] < b[i];
    assert a[..i][1..] == a[1..][..i - 1] && b[..i][1..] == b[1..][..i - 1];
    assert a[1..][i - 1] < b[1..][i - 1];
  }

  lemma DiffersWithHead(a: bytes, b: bytes)
    requires a != [] && b != [] && a[0] == b[0] && DiffersLower(a[1..], b[1..])
    ensures DiffersLower(a, b)
  {
    var i :| 0 <= i < |a[1..]| && i < |b[1..]| && a[1..][..i] == b[1..][..i] && a[1..][i] < b[1..][i];
    assert a[..i + 1] == [a[0]] + a[1..][..i] && b[..i + 1] == [b[0]] + b[1..][..i];
    assert a[i + 1] < b[i + 1];
  }

  lemma DiffersBehind(a: bytes, b: bytes)
    requires a != [] && b != [] && a[0] == b[0]
    ensures InDictionaryBefore(a, b) <==> InDictionaryBefore(a[1..], b[1..])
  {
    if DiffersLower(a, b) {
      DiffersInTail(a, b);
    }
    if DiffersLower(a[1..], b[1..]) {
      DiffersWithHead(a, b);
    }
    assert a == [a[0]] + a[1..] && b == [b[0]] + b[1..];
  }

  /** Strings and terms compare as in a dictionary. */
  lemma {:induction false} CompareBytesIff(a: bytes, b: bytes)
    ensures CompareBytes(a, b) == Less <==> InDictionaryBefore(a, b)
    ensures CompareBytes(a, b) == Grtr <==> InDictionaryBefore(b, a)
    decreases |a|
  {
    if a != [] && b != [] {
      if a[0] == b[0] {
        DiffersBehind(a, b);
        DiffersBehind(b, a);
        CompareBytesIff(a[1..], b[1..]);
      } else {
        FirstByteDecides(a, b);
        FirstByteDecides(b, a);
      }
    }
  }

  lemma FirstByteDecides(a: bytes, b: bytes)
    requires a != [] && b != [] && a[0] != b[0]
    ensures InDictionaryBefore(a, b) <==> a[0] < b[0]
  {
    assert a[..0] == b[..0];
    if DiffersLower(a, b) {
      var i :| 0 <= i < |a| && i < |b| && a[..i] == b[..i] && a[i] < b[i];
      PrefixHead(a, b, i);
    }
  }

  lemma PrefixHead(a: bytes, b: bytes, i: nat)
    requires i < |a| && i < |b| && a[..i] == b[..i]
    ensures i > 0 ==> a[0] == b[0]
  {
    assert i > 0 ==> a[..i][0] == b[..i][0];
  }

  // ---- floats

  const HIDDEN: nat := 0x10_0000_0000_0000

  /**
   The size of a double, as a multiple of 2^-1074: the exponent is in the eleven bits above the low 52, and a
   nonzero one stands for a leading one bit. Infinity comes out above all other sizes.
   */
  function SizeOf(magnitude: nat): nat {
    var exponent, fraction := magnitude / HIDDEN, magnitude % HIDDEN;
    if exponent == 0 then fraction else (HIDDEN + fraction) * Pow(Bit, exponent - 1)
  }

  function Signed(positive: bool, size: nat): int { if positive then size else 0 - size }

  /** The number that a double stands for, in the same unit. */
  function NumberOf(f: f64): int { Signed(f < TWO63, SizeOf(f % TWO63)) }

  lemma SizeGrows(m: nat)
    ensures SizeOf(m) < SizeOf(m + 1)
  {
    var e, r := m / HIDDEN, m % HIDDEN;
    if r + 1 < HIDDEN {
      assert (m + 1) / HIDDEN == e && (m + 1) % HIDDEN == r + 1;
      if e > 0 {
        Scales(HIDDEN + r, HIDDEN + r + 1, Pow(Bit, e - 1));
      }
    } else {
      assert (m + 1) / HIDDEN == e + 1 && (m + 1) % HIDDEN == 0;
      if e > 0 {
        assert Pow(Bit, e) == 2 * Pow(Bit, e - 1);
        Doubles(Pow(Bit, e - 1));
        Scales(HIDDEN + r, 2 * HIDDEN, Pow(Bit, e - 1));
      }
    }
  }

  lemma Scales(a: nat, b: nat, c: nat)
    requires a < b && c > 0
    ensures a * c < b * c
  {
  }

  lemma Doubles(c: nat)
    ensures HIDDEN * (2 * c) == (2 * HIDDEN) * c
  {
  }

  lemma {:induction false} SizeIsMonotone(m: nat, n: nat)
    requires m < n
    ensures SizeOf(m) < SizeOf(n)
    decreases n - m
  {
    SizeGrows(n - 1);
    if m < n - 1 {
      SizeIsMonotone(m, n - 1);
    }
  }

  lemma SizesCompare(m: nat, n: nat)
    ensures CompareInt(SizeOf(m), SizeOf(n)) == CompareInt(m, n)
    ensures SizeOf(m) == 0 <==> m == 0
  {
    assert SizeOf(0) == 0;
    if m > 0 {
      SizeIsMonotone(0, m);
    }
    if m < n {
      SizeIsMonotone(m, n);
    } else if n < m {
      SizeIsMonotone(n, m);
    }
  }

  lemma SignAndSize(f: f64) returns (m: nat)
    ensures Numeric(f) == Signed(f < TWO63, m) && NumberOf(f) == Signed(f < TWO63, SizeOf(m))
  {
    m := if f < TWO63 then f else f - TWO63;
    assert f % TWO63 == m;
  }

  lemma SignsCompare(p: bool, m: nat, q: bool, n: nat, k: nat, l: nat)
    requires CompareInt(k, l) == CompareInt(m, n) && (k == 0 <==> m == 0) && (l == 0 <==> n == 0)
    ensures CompareInt(Signed(p, m), Signed(q, n)) == CompareInt(Signed(p, k), Signed(q, l))
  {
  }

  /** Floats compare by the numbers they stand for. */
  lemma FloatsCompareAsNumbers(f: f64, g: f64)
    ensures ComparePrim(Float(f), Float(g)) == CompareInt(NumberOf(f), NumberOf(g))
  {
    var m := SignAndSize(f);
    var n := SignAndSize(g);
    SizesCompare(m, n);
    SizesCompare(n, m);
    SignsCompare(f < TWO63, m, g < TWO63, n, SizeOf(m), SizeOf(n));
  }

  /** Not a number: all exponent bits set, and a fraction. */
  lemma NaNIff(bits: u64)
    ensures IsNaN(bits) <==> (bits % TWO63) / HIDDEN == 0x7ff && bits % HIDDEN != 0
  {
  }

  // ---- types and ids

  /** The type letters, from the lowest to the highest: values before containers, each alphabetically. */
  const TYPES: seq<char> := "FIRSTELPX"

  lemma TypesInOrder(i: nat, j: nat)
    requires i < |TYPES| && j < |TYPES|
    ensures CompareLit(TYPES[i] as int, TYPES[j] as int) == if i < j then Less else if i == j then Eq else Grtr
  {
    assert i in {0, 1, 2, 3, 4, 5, 6, 7, 8} && j in {0, 1, 2, 3, 4, 5, 6, 7, 8};
  }

  lemma LettersOfTypes(e: Elem)
    ensures (Lit(e) as char) == match e
                                case First(_, Float(_)) => 'F'
                                case First(_, Integer(_)) => 'I'
                                case First(_, Reference(_)) => 'R'
                                case First(_, Str(_)) => 'S'
                                case First(_, Term(_)) => 'T'
                                case Plex(P, _, _) => 'P'
                                case Plex(L, _, _) => 'L'
                                case Plex(E, _, _) => 'E'
                                case Plex(X, _, _) => 'X'
  {
  }

  /** Ids compare by time and then by source; as identities, with the six revision bits of the time masked. */
  lemma IdsCompare(a: ID, b: ID)
    ensures a.RevCompare(b) == Less <==> a.time < b.time || (a.time == b.time && a.src < b.src)
    ensures a.Compare(b) == Less <==>
            a.time - a.time % 64 < b.time - b.time % 64 || (a.time - a.time % 64 == b.time - b.time % 64 && a.src < b.src)
  {
  }

  // ---- the orders inside containers

  /**
   Arrays go by the digits of the locator, pushed to the left and with the head digit turned by one so that those
   headed by `~` come first; elements of one locator by source.
   */
  lemma ArraysCompareLocators(a: Elem, b: Elem)
    requires a.id.time >= 64 && b.id.time >= 64
    ensures var (x, y) := (Ron.Aligned(a.id.time / 64), Ron.Aligned(b.id.time / 64));
            && |x| == 10 == |y|
            && (Compare(L, a, b) == Less <==> Ron.Before(Ron.Turned(x), Ron.Turned(y)) || (x == y && a.id.src < b.id.src))
            && (Compare(L, a, b) == Eq <==> x == y && a.id.src == b.id.src)
  {
    Ron.LocatorOrder(a.id.time / 64, b.id.time / 64);
    Ron.LocatorOrder(b.id.time / 64, a.id.time / 64);
  }

  /** Elements without a locator come behind all others, by source. */
  lemma UnplacedComeLast(a: Elem, b: Elem)
    requires b.id.time < 64
    ensures a.id.time >= 64 ==> Compare(L, a, b) == Less && Compare(L, b, a) == Grtr
    ensures a.id.time < 64 ==> Compare(L, a, b) == CompareInt(a.id.src, b.id.src)
  {
    if a.id.time >= 64 {
      Ron.ZeroIsLast(a.id.time / 64);
    }
  }

  /** Multiplexed containers go by source alone; the elements of a tuple all tie. */
  lemma SourcesCompare(a: Elem, b: Elem)
    ensures Compare(X, a, b) == Less <==> a.id.src < b.id.src
    ensures Compare(X, a, b) == Eq <==> a.id.src == b.id.src
    ensures Compare(P, a, b) == Eq
  {
  }

  // ---- which of two values stays

  /** The order of two values of one type, outright. */
  ghost predicate IsBelow(v: Prim, w: Prim) {
    match (v, w)
    case (Float(f), Float(g)) => NumberOf(f) < NumberOf(g)
    case (Integer(i), Integer(j)) => i < j
    case (Reference(r), Reference(q)) =>
      r.time - r.time % 64 < q.time - q.time % 64 || (r.time - r.time % 64 == q.time - q.time % 64 && r.src < q.src)
    case (Str(s), Str(t)) => InDictionaryBefore(s, t)
    case (Term(s), Term(t)) => InDictionaryBefore(s, t)
    case _ => false
  }

  lemma ComparePrimIff(v: Prim, w: Prim)
    requires PrimLit(v) == PrimLit(w)
    ensures ComparePrim(v, w) == Less <==> IsBelow(v, w)
    ensures ComparePrim(v, w) == Grtr <==> IsBelow(w, v)
  {
    match (v, w)
    case (Float(f), Float(g)) => FloatsCompareAsNumbers(f, g);
    case (Reference(r), Reference(q)) => IdsCompare(r, q);
      IdsCompare(q, r);
    case (Str(s), Str(t)) => CompareBytesIff(s, t);
    case (Term(s), Term(t)) => CompareBytesIff(s, t);
    case _ =>
  }

  /** Of two values with one id and one type the second stays exactly when the first is below it. */
  lemma {:induction false} LargerValueStays(id: ID, v: Prim, w: Prim)
    requires PrimLit(v) == PrimLit(w)
    ensures Spot(First(id, v), First(id, w)) == First(id, if IsBelow(v, w) then w else v)
    ensures var m := Spot(First(id, v), First(id, w)).val; !IsBelow(m, v) && !IsBelow(m, w)
  {
    ComparePrimIff(v, w);
    ComparePrimIff(w, v);
    ComparePrimIff(v, v);
    ComparePrimIff(w, w);
    ComparePrimFlips(v, w);
    ComparePrimFlips(v, v);
    ComparePrimFlips(w, w);
  }

  /** Of two elements with one id and different types the higher type stays, but an empty tuple gives way to any other. */
  lemma {:induction false} HigherTypeStays(a: Elem, b: Elem)
    requires a.id == b.id && CompareLit(Lit(a), Lit(b)) == Less
    ensures Spot(a, b) == if IsEmptyTuple(b) then a else b
    ensures Spot(b, a) == if IsEmptyTuple(b) then a else b
  {
    LWWFlips(a, b);
  }

  /** Two revisions of one container, which differ in the last six bits of the time at most, merge their contents under the later id. */
  lemma {:induction false} RevisionsMerge(a: Elem, b: Elem)
    requires a.Plex? && b.Plex? && a.kind == b.kind && a.id.src == b.id.src
    requires a.id.time - a.id.time % 64 == b.id.time - b.id.time % 64
    ensures Spot(a, b) == Plex(a.kind, if a.id.time < b.id.time then b.id else a.id, MergeList(a.kind, a.kids, b.kids))
  {
  }

  /** Otherwise the element with the later time stays, and at one time the one with the larger source. */
  lemma {:induction false} LaterElementStays(a: Elem, b: Elem)
    requires a.id.time < b.id.time || (a.id.time == b.id.time && a.id.src < b.id.src)
    requires !(a.Plex? && b.Plex? && a.kind == b.kind && a.id.src == b.id.src
               && a.id.time - a.id.time % 64 == b.id.time - b.id.time % 64)
    ensures Spot(a, b) == b && Spot(b, a) == b
  {
    LastWriteWins(a, b);
    LastWriteWins(b, a);
  }

  /** Tuples merge position by position; the longer one keeps its rest. */
  lemma {:induction false} TuplesMergeByPosition(a: Doc, b: Doc)
    ensures var m := MergeDocs(a, b);
            && |m| == (if |a| < |b| then |b| else |a|)
            && forall i | 0 <= i < |m| :: m[i] == if i >= |b| then a[i] else if i >= |a| then b[i] else Spot(a[i], b[i])
    decreases |a|
  {
    if a != [] && b != [] {
      TuplesMergeByPosition(a[1..], b[1..]);
      assert MergeDocs(a, b) == [Spot(a[0], b[0])] + MergeDocs(a[1..], b[1..]);
    }
  }

  /** "a" and "b" without stamps: "b" stays. */
  lemma LetterBStays()
    ensures var a, b := First(ID0, Str(['a' as int])), First(ID0, Str(['b' as int]));
            MergeDocs([a], [b]) == [b] && MergeDocs([b], [a]) == [b]
  {
    var s, t: bytes := ['a' as int], ['b' as int];
    FirstByteDecides(s, t);
    FirstByteDecides(t, s);
    LargerValueStays(ID0, Str(s), Str(t));
    LargerValueStays(ID0, Str(t), Str(s));
    OneByOne(First(ID0, Str(s)), First(ID0, Str(t)));
    OneByOne(First(ID0, Str(t)), First(ID0, Str(s)));
  }

  lemma {:induction false} OneByOne(a: Elem, b: Elem)
    ensures MergeDocs([a], [b]) == [Spot(a, b)]
  {
    assert [a][1..] == [] && [b][1..] == [];
    assert MergeList(P, [a], [b]) == [Spot(a, b)] + MergeList(P, [], []);
  }
}
