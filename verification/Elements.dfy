/** RDX elements and the comparators of rdx.go. */
module Elements {
  import opened Ids
  import Ron

  /** The bit pattern of an IEEE 754 double. */
  predicate IsNaN(bits: u64) { bits % TWO63 > 0x7ff0_0000_0000_0000 }

  type f64 = bits: u64 | !IsNaN(bits)

  const NEGATIVE_ZERO: u64 := TWO63

  /** Doubles in numeric order: sign and magnitude, so both zeros are 0. */
  function Numeric(f: f64): int {
    if f < TWO63 then f else TWO63 - f
  }

  datatype Prim =
    | Float(f: f64)
    | Integer(i: i64)
    | Reference(ref: ID)
    | Str(s: bytes)
    | Term(t: bytes)

  /** The four containers: tuple, linear, Eulerian, multiplexed. */
  datatype Kind = P | L | E | X

  datatype Elem =
    | First(id: ID, val: Prim)
    | Plex(kind: Kind, id: ID, kids: seq<Elem>)

  type Doc = seq<Elem>

  function KindLit(k: Kind): byte {
    match k
    case P => 'P' as int
    case L => 'L' as int
    case E => 'E' as int
    case X => 'X' as int
  }

  function PrimLit(v: Prim): byte {
    match v
    case Float(_) => 'F' as int
    case Integer(_) => 'I' as int
    case Reference(_) => 'R' as int
    case Str(_) => 'S' as int
    case Term(_) => 'T' as int
  }

  function Lit(e: Elem): byte {
    if e.First? then PrimLit(e.val) else KindLit(e.kind)
  }

  predicate IsPlexLit(lit: byte) {
    lit == 'P' as int || lit == 'L' as int || lit == 'E' as int || lit == 'X' as int
  }

  function KindOf(lit: byte): (k: Kind)
    requires IsPlexLit(lit)
    ensures KindLit(k) == lit
  {
    if lit == 'P' as int then P
    else if lit == 'L' as int then L
    else if lit == 'E' as int then E
    else X
  }

  predicate IsEmptyTuple(e: Elem) { e.Plex? && e.kind == P && e.kids == [] }

  /** Same element, maybe a different revision. */
  predicate IsSame(a: Elem, b: Elem) {
    Lit(a) == Lit(b) && a.id.src == b.id.src && a.id.Stem() == b.id.Stem()
  }

  /** PLEX after FIRST, otherwise by letter. */
  function CompareLit(al: byte, bl: byte): Ordering {
    if al == bl then Eq
    else if IsPlexLit(al) != IsPlexLit(bl) then (if IsPlexLit(al) then Grtr else Less)
    else if al < bl then Less else Grtr
  }

  function CompareType(a: Elem, b: Elem): Ordering { CompareLit(Lit(a), Lit(b)) }

  function ComparePrim(v: Prim, w: Prim): Ordering {
    match (v, w)
    case (Float(f), Float(g)) => CompareInt(Numeric(f), Numeric(g))
    case (Integer(i), Integer(j)) => CompareInt(i, j)
    case (Reference(r), Reference(q)) => r.Compare(q)
    case (Str(s), Str(t)) => CompareBytes(s, t)
    case (Term(s), Term(t)) => CompareBytes(s, t)
    case _ => CompareLit(PrimLit(v), PrimLit(w))
  }

  /** The value order; containers compare by identity. */
  function CompareValue(a: Elem, b: Elem): Ordering {
    if Lit(a) != Lit(b) then CompareType(a, b)
    else if a.First? && b.First? then ComparePrim(a.val, b.val)
    else a.id.Compare(b.id)
  }

  /** Last write wins; at one id an empty tuple loses to every other type. */
  function CompareLWW(a: Elem, b: Elem): Ordering {
    var z := a.id.RevCompare(b.id);
    if z != Eq then z
    else
      match CompareType(a, b)
      case Eq => CompareValue(a, b)
      case Less => if IsEmptyTuple(b) then Grtr else Less
      case Grtr => if IsEmptyTuple(a) then Less else Grtr
  }

  /** What orders the children of a container. */
  datatype MaybeElem = NoElem | SomeElem(e: Elem)

  /** In a set, a tuple stands for its first element; an empty one for nothing. */
  function Unwrap(e: Elem): MaybeElem {
    if e.Plex? && e.kind == P then (if e.kids == [] then NoElem else SomeElem(e.kids[0]))
    else SomeElem(e)
  }

  function CompareMaybe(a: MaybeElem, b: MaybeElem): Ordering {
    match (a, b)
    case (NoElem, NoElem) => Eq
    case (NoElem, SomeElem(_)) => Less
    case (SomeElem(_), NoElem) => Grtr
    case (SomeElem(x), SomeElem(y)) => CompareValue(x, y)
  }

  function CompareEuler(a: Elem, b: Elem): Ordering { CompareMaybe(Unwrap(a), Unwrap(b)) }

  function CompareLinear(a: Elem, b: Elem): Ordering {
    var aa := Ron.NewRon60(a.id.Stem());
    var bb := Ron.NewRon60(b.id.Stem());
    if Ron.LessThan(aa, bb) then Less
    else if Ron.LessThan(bb, aa) then Grtr
    else CompareInt(a.id.src, b.id.src)
  }

  function CompareMultix(a: Elem, b: Elem): Ordering { CompareInt(a.id.src, b.id.src) }

  /** The order inside a container of kind `k`. */
  function Compare(k: Kind, a: Elem, b: Elem): Ordering {
    match k
    case P => Eq
    case L => CompareLinear(a, b)
    case E => CompareEuler(a, b)
    case X => CompareMultix(a, b)
  }

  // ---- one key for all four orders

  /** What a comparator looks at, in a form where it is a plain total order. */
  datatype Key = Nothing | Num(rank: int, n: int) | Text(rank: int, s: bytes)

  function CompareKey(a: Key, b: Key): Ordering {
    match (a, b)
    case (Nothing, Nothing) => Eq
    case (Nothing, _) => Less
    case (_, Nothing) => Grtr
    case (_, _) =>
      if a.rank != b.rank then CompareInt(a.rank, b.rank)
      else
        match (a, b)
        case (Num(_, n), Num(_, m)) => CompareInt(n, m)
        case (Num(_, _), Text(_, _)) => Less
        case (Text(_, _), Num(_, _)) => Grtr
        case (Text(_, s), Text(_, t)) => CompareBytes(s, t)
        case _ => Eq
  }

  predicate Below(a: Key, b: Key) { CompareKey(a, b) == Less }

  function TypeRank(lit: byte): int {
    if IsPlexLit(lit) then TWO8 + lit else lit
  }

  /** Two 64-bit fields as one number, the high one first. */
  function Pair(high: int, low: u64): int { high * TWO64 + low }

  function ValueKey(e: Elem): Key {
    var rank := TypeRank(Lit(e));
    match e
    case Plex(_, id, _) => Num(rank, Pair(id.Stem(), id.src))
    case First(_, val) =>
      match val
      case Float(f) => Num(rank, Numeric(f))
      case Integer(i) => Num(rank, i)
      case Reference(r) => Num(rank, Pair(r.Stem(), r.src))
      case Str(s) => Text(rank, s)
      case Term(t) => Text(rank, t)
  }

  const NO_KEY: Key := Num(0, 0)

  function KeyOf(k: Kind, e: Elem): Key {
    match k
    case P => NO_KEY
    case L => Num(0, Pair(Ron.Place(Ron.NewRon60(e.id.Stem())), e.id.src))
    case E => (match Unwrap(e) case NoElem => Nothing case SomeElem(x) => ValueKey(x))
    case X => Num(0, e.id.src)
  }

  lemma KeysAreTotallyOrdered(a: Key, b: Key)
    ensures CompareKey(a, b) == Eq <==> a == b
    ensures CompareKey(b, a) == CompareKey(a, b).Flip()
  {
    if a.Text? && b.Text? {
      CompareBytesIsAnOrder(a.s, b.s);
    }
  }

  lemma KeysTransitive(a: Key, b: Key, c: Key)
    requires Below(a, b) && Below(b, c)
    ensures Below(a, c)
  {
    if a.Text? && b.Text? && c.Text? && a.rank == b.rank == c.rank {
      CompareBytesTransitive(a.s, b.s, c.s);
    }
  }

  lemma PairOrder(h1: int, l1: u64, h2: int, l2: u64)
    ensures h1 < h2 ==> Pair(h1, l1) < Pair(h2, l2)
    ensures h1 == h2 ==> Pair(h1, l1) - Pair(h2, l2) == l1 - l2
  {
  }

  lemma ValueOrderIsKeyOrder(a: Elem, b: Elem)
    ensures CompareValue(a, b) == CompareKey(ValueKey(a), ValueKey(b))
  {
    if a.Plex? && b.Plex? {
      PairOrder(a.id.Stem(), a.id.src, b.id.Stem(), b.id.src);
      PairOrder(b.id.Stem(), b.id.src, a.id.Stem(), a.id.src);
    } else if a.First? && b.First? && a.val.Reference? && b.val.Reference? {
      var r, q := a.val.ref, b.val.ref;
      PairOrder(r.Stem(), r.src, q.Stem(), q.src);
      PairOrder(q.Stem(), q.src, r.Stem(), r.src);
    }
  }

  /** Each of the four comparators is the total preorder given by its key. */
  lemma CompareIsKeyOrder(k: Kind, a: Elem, b: Elem)
    ensures Compare(k, a, b) == CompareKey(KeyOf(k, a), KeyOf(k, b))
  {
    match k
    case P =>
    case L =>
      var pa, pb := Ron.Place(Ron.NewRon60(a.id.Stem())), Ron.Place(Ron.NewRon60(b.id.Stem()));
      PairOrder(pa, a.id.src, pb, b.id.src);
      PairOrder(pb, b.id.src, pa, a.id.src);
    case E =>
      if Unwrap(a).SomeElem? && Unwrap(b).SomeElem? {
        ValueOrderIsKeyOrder(Unwrap(a).e, Unwrap(b).e);
      }
    case X =>
  }
}
