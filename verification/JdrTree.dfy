/**
 The same parser on trees. A frame per open record holds the children read so far; the byte
 parser, with all its splicing, is shown to be this one step by step.
 */
module JdrTree {
  import opened Ids
  import opened Elements
  import opened Seqs
  import opened Zip
  import opened Tlv
  import opened Marks
  import opened Wire
  import opened Jdr

  /** An open record; `lastBreak` and `lastElement` count children. */
  datatype Frame = Frame(lit: byte, id: ID, kids: Doc, lastBreak: nat, lastElement: nat, pre: byte)

  datatype Frames = Bottom | Push(below: Frames, top: Frame)

  const UNIT: Elem := Plex(P, ID0, [])

  function Add(t: Frame, e: Elem): Frame { t.(kids := t.kids + [e]) }

  function AddUnit(t: Frame): Frame { Add(t, UNIT).(pre := INLINE) }

  function CloseTuple(f: Frames): Result<Frames> {
    match f
    case Push(Push(b, p), t) =>
      if t.lit != INLINE then Refused
      else
        var u := Add(p, Plex(P, ID0, (if t.pre == COLON then AddUnit(t) else t).kids));
        Ok(Push(b, u.(lastBreak := |u.kids|, pre := INLINE)))
    case _ => Refused
  }

  function Settled(f: Frames): Result<Frames>
    requires f.Push?
  {
    if f.top.lit == INLINE && f.top.pre != COLON then CloseTuple(f) else Ok(f)
  }

  /** The children from pos on turn out to be a tuple. */
  function OpenTuple(f: Frames, pos: nat): Frames
    requires f.Push? && pos <= |f.top.kids|
  {
    Push(Push(f.below, f.top.(kids := f.top.kids[..pos])), Frame(INLINE, ID0, f.top.kids[pos..], 0, 0, 0))
  }

  function AtScalar(f: Frames, id: ID, val: Prim): Result<Frames>
    requires f.Push?
  {
    match Settled(f)
    case Ok(Push(b, t)) => Ok(Push(b, Add(t, First(id, val)).(lastElement := |t.kids|, pre := ONE)))
    case _ => Refused
  }

  function AtOpen(f: Frames, k: Kind, id: ID): Result<Frames>
    requires f.Push?
  {
    match Settled(f)
    case Ok(Push(b, t)) => Ok(Push(Push(b, t.(lastElement := |t.kids|)), Frame(KindLit(k), id, [], 0, 0, 0)))
    case _ => Refused
  }

  function PlexClosed(f: Frames, k: Kind): Result<Frames> {
    match f
    case Push(Push(b, p), t) =>
      if t.lit != KindLit(k) then Refused else Ok(Push(b, Add(p, Plex(k, t.id, t.kids)).(pre := KindLit(k))))
    case _ => Refused
  }

  function AtClose(f: Frames, k: Kind): Result<Frames>
    requires f.Push?
  {
    match (if f.top.lit == INLINE then CloseTuple(f)
           else if f.top.pre == COMMA then Ok(Push(f.below, AddUnit(f.top))) else Ok(f))
    case Ok(g) => PlexClosed(g, k)
    case _ => Refused
  }

  function AtComma(f: Frames): Result<Frames>
    requires f.Push?
  {
    match (if f.top.lit == INLINE then CloseTuple(f) else Ok(f))
    case Ok(Push(b, t)) =>
      var u := if t.pre == 0 || t.pre == COMMA || t.pre == SEMICOLON then AddUnit(t) else t;
      Ok(Push(b, u.(lastBreak := |u.kids|, pre := COMMA)))
    case _ => Refused
  }

  function AtColon(f: Frames): Result<Frames>
    requires f.Push? && Counted(f.top)
  {
    var t := f.top;
    match (if t.lit != INLINE then OpenTuple(f, if t.lastBreak > t.lastElement then t.lastBreak else t.lastElement)
           else if t.pre == 0 || t.pre == COLON then Push(f.below, AddUnit(t)) else f)
    case Push(b, u) => Ok(Push(b, u.(pre := COLON)))
    case _ => Refused
  }

  function AtSemicolon(f: Frames): Result<Frames>
    requires f.Push? && Counted(f.top)
  {
    CloseTuple(if f.top.lit != INLINE then OpenTuple(Forgetful(f), f.top.lastBreak) else f)
  }

  /** No element behind the last break. */
  function Forgetful(f: Frames): Frames
    requires f.Push?
  {
    Push(f.below, f.top.(lastElement := f.top.lastBreak))
  }

  function AtRoot(f: Frames): Result<Frames>
    requires f.Push?
  {
    if f.top.lit == INLINE then CloseTuple(f) else Ok(f)
  }

  function TreeStep(tok: Token, f: Frames): Result<Frames> {
    if f.Bottom? || !Counted(f.top) then Refused
    else
      match tok
      case Scalar(x, st) =>
        (match (StampOf(st), ValueOf(x))
         case (Some(id), Some(val)) => AtScalar(f, id, val)
         case _ => Refused)
      case Open(k, st) => (match StampOf(st) case Some(id) => AtOpen(f, k, id) case None => Refused)
      case Close(k) => AtClose(f, k)
      case Comma => AtComma(f)
      case Colon => AtColon(f)
      case Semicolon => AtSemicolon(f)
      case Root => AtRoot(f)
  }

  const SPROUT: Frames := Push(Bottom, Frame(ROOT, ID0, [], 0, 0, 0))

  // ---- what a well-formed state of the tree parser is, and what it looks like in bytes

  predicate Counted(t: Frame) { t.lastBreak <= |t.kids| && t.lastElement <= |t.kids| }

  /** A root, and above it containers and inline tuples, no inline tuple right inside another. */
  predicate Rooted(f: Frames) {
    match f
    case Bottom => false
    case Push(b, t) =>
      && Counted(t) && (b.Bottom? <==> t.lit == ROOT) && (b.Push? ==> Rooted(b))
      && (t.lit == ROOT || t.lit == INLINE || IsPlexLit(t.lit))
      && (t.lit == INLINE ==> t.id == ID0 && b.Push? && b.top.lit != INLINE)
  }

  /** What stands in front of the children of an open record: nothing at the root. */
  function HeaderOf(lit: byte, id: ID): bytes {
    if lit == INLINE then [INLINE, 0, 0]
    else if IsPlexLit(lit) then OpenHeader(lit, false) + [|ZipID(id)| as byte] + ZipID(id)
    else []
  }

  function HeadOf(t: Frame): bytes { HeaderOf(t.lit, t.id) }

  /** The bytes of an unfinished parse: headers of the open records, and the finished children behind each. */
  function Flat(f: Frames): bytes {
    match f
    case Bottom => []
    case Push(b, t) => Flat(b) + HeadOf(t) + EncodeDoc(t.kids)
  }

  /** Where child number n of the top record starts. */
  function Place(f: Frames, n: nat): nat
    requires f.Push? && n <= |f.top.kids|
  {
    |Flat(f.below)| + |HeadOf(f.top)| + |EncodeDoc(f.top.kids[..n])|
  }

  predicate MarkShows(f: Frames, m: Mark)
    requires f.Push?
  {
    && m.start == |Flat(f.below)| && m.lit == f.top.lit && m.pre == f.top.pre && Counted(f.top)
    && (f.top.lit != INLINE ==> m.lastBreak == Place(f, f.top.lastBreak) && ElementShows(f, m))
  }

  /** The last element is remembered rightly, or does not matter because a later break hides it. */
  predicate ElementShows(f: Frames, m: Mark)
    requires f.Push? && Counted(f.top)
  {
    || m.lastElement == Place(f, f.top.lastElement)
    || (f.top.lastElement <= f.top.lastBreak && m.lastElement <= m.lastBreak)
  }

  predicate MarksShow(f: Frames, stack: seq<Mark>) {
    match f
    case Bottom => stack == []
    case Push(b, _) => stack != [] && MarksShow(b, stack[..|stack| - 1]) && MarkShows(f, stack[|stack| - 1])
  }

  /** The byte state shows exactly the tree state. */
  predicate Shows(f: Frames, s: Writer) {
    Rooted(f) && s.data == Flat(f) && MarksShow(f, s.stack)
  }

  predicate Agree(f: Result<Frames>, s: Result<Writer>) {
    match (f, s)
    case (Ok(g), Ok(t)) => Shows(g, t)
    case (Refused, Refused) => true
    case _ => false
  }

  lemma UnitIsEmptyTuple()
    ensures EncodeElem(UNIT) == EMPTY_TUPLE
  {
    ElemIsTLV(UNIT);
  }

  /** A child more is its bytes at the end. */
  lemma {:induction false} AddFlat(b: Frames, t: Frame, e: Elem, u: Frame)
    requires u.kids == t.kids + [e] && u.lit == t.lit && u.id == t.id
    ensures Flat(Push(b, u)) == Flat(Push(b, t)) + EncodeElem(e)
  {
    EncodeConcat(t.kids, [e]);
    EncodeOne(e);
    Associates(Flat(b) + HeadOf(t), EncodeDoc(t.kids), EncodeElem(e));
  }

  /** The place of a child does not depend on the children behind it. */
  lemma PlaceKeeps(b: Frames, t: Frame, u: Frame, n: nat)
    requires u.lit == t.lit && u.id == t.id && n <= |t.kids| && n <= |u.kids| && t.kids[..n] == u.kids[..n]
    ensures Place(Push(b, t), n) == Place(Push(b, u), n)
  {
  }

  lemma {:induction false} PlaceOfEnd(f: Frames)
    requires f.Push?
    ensures Place(f, |f.top.kids|) == |Flat(f)|
  {
    assert f.top.kids[..|f.top.kids|] == f.top.kids;
  }

  lemma {:induction false} PlaceAscends(f: Frames, i: nat, j: nat)
    requires f.Push? && i <= j <= |f.top.kids|
    ensures Place(f, i) <= Place(f, j) <= |Flat(f)|
  {
    var kids := f.top.kids;
    assert kids[..j] == kids[..i] + kids[i..j] && kids == kids[..j] + kids[j..];
    EncodeConcat(kids[..i], kids[i..j]);
    EncodeConcat(kids[..j], kids[j..]);
  }

  /** Replacing the top mark by one that shows the new top frame. */
  lemma {:induction false} ShowsTop(b: Frames, u: Frame, s: Writer, m: Mark)
    requires s.stack != [] && MarksShow(b, s.stack[..|s.stack| - 1]) && MarkShows(Push(b, u), m)
    requires Rooted(Push(b, u)) && s.data == Flat(Push(b, u))
    ensures Shows(Push(b, u), WithTop(s, m))
  {
    assert WithTop(s, m).stack[..|s.stack| - 1] == s.stack[..|s.stack| - 1];
  }

  lemma {:induction false} ShowsPush(f: Frames, u: Frame, data: bytes, stack: seq<Mark>, m: Mark)
    requires MarksShow(f, stack) && MarkShows(Push(f, u), m) && Rooted(Push(f, u)) && data == Flat(Push(f, u))
    ensures Shows(Push(f, u), Writer(data, stack + [m]))
  {
    assert (stack + [m])[..|stack|] == stack;
  }

  // ---- each callback does the same to both

  /** A finished child at the end of the top record. */
  lemma {:induction false} KidAdded(b: Frames, t: Frame, e: Elem, u: Frame, s: Writer, m: Mark)
    requires Rooted(Push(b, t)) && MarksShow(Push(b, t), s.stack) && s.data == Flat(Push(b, t)) + EncodeElem(e)
    requires u.lit == t.lit && u.id == t.id && u.kids == t.kids + [e] && u.pre == m.pre
    requires u.lastBreak in {t.lastBreak, |u.kids|} && u.lastElement in {t.lastElement, |t.kids|}
    requires m.start == Top(s).start && m.lit == Top(s).lit
    requires m.lastBreak == if u.lastBreak == t.lastBreak then Top(s).lastBreak else |s.data|
    requires m.lastElement == if u.lastElement == t.lastElement then Top(s).lastElement else |Flat(Push(b, t))|
    ensures Shows(Push(b, u), WithTop(s, m))
  {
    PlaceAscends(Push(b, t), t.lastBreak, |t.kids|);
    AddFlat(b, t, e, u);
    PlaceKeeps(b, t, u, t.lastBreak);
    PlaceKeeps(b, t, u, t.lastElement);
    PlaceKeeps(b, t, u, |t.kids|);
    PlaceOfEnd(Push(b, t));
    PlaceOfEnd(Push(b, u));
    ShowsTop(b, u, s, m);
  }

  lemma UnitAppended(f: Frames, s: Writer)
    requires Shows(f, s)
    ensures Shows(Push(f.below, AddUnit(f.top)), AppendEmptyTuple(s))
  {
    UnitIsEmptyTuple();
    KidAdded(f.below, f.top, UNIT, AddUnit(f.top), s.(data := s.data + EMPTY_TUPLE), Top(s).(pre := INLINE));
  }

  function KindOfFrame(t: Frame): Kind
    requires t.lit == INLINE || IsPlexLit(t.lit)
  {
    if t.lit == INLINE then P else KindOf(t.lit)
  }

  /** Closing the top record turns its header and children into one element of the record below. */
  lemma {:induction false} TopCloses(b: Frames, p: Frame, t: Frame, s: Writer)
    requires Shows(Push(Push(b, p), t), s)
    ensures var e := Plex(KindOfFrame(t), t.id, t.kids);
            Pop(s, Lit(e)) == Ok(Writer(Flat(Push(b, p)) + EncodeElem(e), s.stack[..|s.stack| - 1]))
  {
    var e := Plex(KindOfFrame(t), t.id, t.kids);
    var pre, zip, kids := Flat(Push(b, p)), ZipID(t.id), EncodeDoc(t.kids);
    var short := t.lit == INLINE;
    if short {
      InlineHead(pre, kids);
    } else {
      HeadThenBody(pre, OpenHeader(Lit(e), false), zip, kids);
    }
    CloseMakesRecord(pre, Lit(e), short, Body(zip, kids), Top(s));
    ElemIsTLV(e);
    assert MarksShow(Push(b, p), s.stack[..|s.stack| - 1]);
  }

  lemma InlineHead(pre: bytes, kids: bytes)
    ensures ZipID(ID0) == [] && pre + [INLINE, 0, 0] + kids == pre + OpenHeader(KindLit(P), true) + Body([], kids)
  {
    var head := OpenHeader(KindLit(P), true);
    assert [INLINE, 0, 0] == head + [0];
    assert Body([], kids) == [0] + kids;
    Regroups(pre, head, [0], kids);
    Associates(pre, head, [0]);
    Associates(pre, head, [0] + kids);
    Associates(head, [0], kids);
  }

  lemma HeadThenBody(pre: bytes, head: bytes, zip: bytes, kids: bytes)
    requires |zip| <= 0xff
    ensures pre + (head + [|zip| as byte] + zip) + kids == pre + head + Body(zip, kids)
  {
  }

  lemma TupleCloses(f: Frames, s: Writer)
    requires Shows(f, s) && f.top.lit == INLINE
    ensures Agree(CloseTuple(f), CloseInlineTuple(s))
  {
    UnitAppended(f, s);
    var g := if f.top.pre == COLON then Push(f.below, AddUnit(f.top)) else f;
    var t := if f.top.pre == COLON then AppendEmptyTuple(s) else s;
    var Push(Push(b, p), q) := g;
    TopCloses(b, p, q, t);
    var e := Plex(P, ID0, q.kids);
    var c := Pop(t, KindLit(P)).value;
    var u := Add(p, e);
    KidAdded(b, p, e, u.(lastBreak := |u.kids|, pre := INLINE), c, Top(c).(lastBreak := |c.data|, pre := INLINE));
  }

  lemma Settles(f: Frames, s: Writer)
    requires Shows(f, s)
    ensures Agree(Settled(f), Settle(s))
  {
    if f.top.lit == INLINE && f.top.pre != COLON {
      TupleCloses(f, s);
    }
  }

  /** Splicing the late header in front of the children from pos on. */
  lemma TupleOpens(f: Frames, s: Writer, pos: nat, at: nat)
    requires Shows(f, s) && pos <= |f.top.kids| && at == Place(f, pos) && f.top.lit != INLINE
    requires f.top.lastBreak <= pos && f.top.lastElement <= pos
    ensures Agree(Ok(OpenTuple(f, pos)), RetroOpenTuple(s, at))
  {
    var b, t := f.below, f.top;
    var p := t.(kids := t.kids[..pos]);
    var q := Frame(INLINE, ID0, t.kids[pos..], 0, 0, 0);
    SplitAt(t.kids, pos);
    EncodeConcat(p.kids, q.kids);
    Associates(Flat(b) + HeadOf(t), EncodeDoc(p.kids), EncodeDoc(q.kids));
    Pieces(Flat(Push(b, p)), EncodeDoc(q.kids) + [0], []);
    JoinedParts(Flat(Push(b, p)), EncodeDoc(q.kids));
    PlaceKeeps(b, t, p, t.lastBreak);
    PlaceKeeps(b, t, p, t.lastElement);
    ShowsPush(Push(b, p), q, s.data[..at] + [INLINE, 0, 0] + s.data[at..], s.stack, Mark(at, 0, 0, INLINE, 0));
  }

  /** The code looks back to the later of the two remembered positions. */
  lemma LooksBack(f: Frames, m: Mark)
    requires f.Push? && MarkShows(f, m) && f.top.lit != INLINE
    ensures var t := f.top;
            (if m.lastBreak > m.lastElement then m.lastBreak else m.lastElement)
            == Place(f, if t.lastBreak > t.lastElement then t.lastBreak else t.lastElement)
  {
    var t := f.top;
    if t.lastBreak > t.lastElement {
      PlaceAscends(f, t.lastElement, t.lastBreak);
    } else {
      PlaceAscends(f, t.lastBreak, t.lastElement);
    }
  }

  lemma ColonAgrees(f: Frames, s: Writer)
    requires Shows(f, s)
    ensures Agree(AtColon(f), OnColon(s))
  {
    var t, m := f.top, Top(s);
    if t.lit != INLINE {
      var pos := if t.lastBreak > t.lastElement then t.lastBreak else t.lastElement;
      LooksBack(f, m);
      TupleOpens(f, s, pos, Place(f, pos));
      PreChanges(OpenTuple(f, pos), RetroOpenTuple(s, Place(f, pos)).value, COLON);
    } else if t.pre == 0 || t.pre == COLON {
      UnitAppended(f, s);
      PreChanges(Push(f.below, AddUnit(t)), AppendEmptyTuple(s), COLON);
    } else {
      PreChanges(f, s, COLON);
    }
  }

  lemma PreChanges(f: Frames, s: Writer, pre: byte)
    requires Shows(f, s)
    ensures Shows(Push(f.below, f.top.(pre := pre)), WithTop(s, Top(s).(pre := pre)))
  {
    var u := f.top.(pre := pre);
    if f.top.lit != INLINE {
      PlaceKeeps(f.below, f.top, u, u.lastBreak);
      PlaceKeeps(f.below, f.top, u, u.lastElement);
    }
    ShowsTop(f.below, u, s, Top(s).(pre := pre));
  }

  lemma CommaAgrees(f: Frames, s: Writer)
    requires Shows(f, s)
    ensures Agree(AtComma(f), OnComma(s))
  {
    if f.top.lit == INLINE {
      TupleCloses(f, s);
      LineBreaks(CloseTuple(f).value, CloseInlineTuple(s).value);
    } else {
      LineBreaks(f, s);
    }
  }

  lemma LineBreaks(f: Frames, s: Writer)
    requires Shows(f, s)
    ensures var pre := f.top.pre;
            var dangling := pre == 0 || pre == COMMA || pre == SEMICOLON;
            var u := if dangling then AddUnit(f.top) else f.top;
            var t := if dangling then AppendEmptyTuple(s) else s;
            Shows(Push(f.below, u.(lastBreak := |u.kids|, pre := COMMA)),
                  WithTop(t, Top(t).(lastBreak := |t.data|, pre := COMMA)))
  {
    var pre := f.top.pre;
    if pre == 0 || pre == COMMA || pre == SEMICOLON {
      UnitAppended(f, s);
      BreakHere(Push(f.below, AddUnit(f.top)), AppendEmptyTuple(s), COMMA);
    } else {
      BreakHere(f, s, COMMA);
    }
  }

  lemma BreakHere(f: Frames, s: Writer, pre: byte)
    requires Shows(f, s)
    ensures Shows(Push(f.below, f.top.(lastBreak := |f.top.kids|, pre := pre)),
                  WithTop(s, Top(s).(lastBreak := |s.data|, pre := pre)))
  {
    var u := f.top.(lastBreak := |f.top.kids|, pre := pre);
    PlaceOfEnd(f);
    PlaceKeeps(f.below, f.top, u, u.lastElement);
    PlaceKeeps(f.below, f.top, u, u.lastBreak);
    PlaceAscends(f, f.top.lastBreak, |f.top.kids|);
    ShowsTop(f.below, u, s, Top(s).(lastBreak := |s.data|, pre := pre));
  }

  lemma CloseAgrees(f: Frames, s: Writer, k: Kind)
    requires Shows(f, s)
    ensures Agree(AtClose(f, k), OnClose(s, k))
  {
    if f.top.lit == INLINE {
      TupleCloses(f, s);
      PlexCloses(CloseTuple(f).value, CloseInlineTuple(s).value, k);
    } else if f.top.pre == COMMA {
      UnitAppended(f, s);
      PlexCloses(Push(f.below, AddUnit(f.top)), AppendEmptyTuple(s), k);
    } else {
      PlexCloses(f, s, k);
    }
  }

  lemma PlexCloses(f: Frames, s: Writer, k: Kind)
    requires Shows(f, s)
    ensures Agree(PlexClosed(f, k), ClosePlex(s, k))
  {
    if f.top.lit == KindLit(k) {
      var Push(Push(b, p), t) := f;
      TopCloses(b, p, t, s);
      var e := Plex(k, t.id, t.kids);
      var c := Pop(s, KindLit(k)).value;
      KidAdded(b, p, e, Add(p, e).(pre := KindLit(k)), c, Top(c).(pre := KindLit(k)));
    }
  }

  /** Opening a record leaves the children read so far where they are. */
  lemma RecordOpens(f: Frames, s: Writer, lit: byte, id: ID)
    requires Shows(f, s)
    requires IsPlexLit(lit)
    ensures Shows(Push(Push(f.below, f.top.(lastElement := |f.top.kids|)), Frame(lit, id, [], 0, 0, 0)),
                  OpenStamped(s, lit, id))
  {
    var b, t := f.below, f.top;
    var p := t.(lastElement := |t.kids|);
    var q := Frame(lit, id, [], 0, 0, 0);
    ElementHere(f, s);
    var o := OpenStamped(s, lit, id);
    Regroups(s.data, OpenHeader(lit, false), [|ZipID(id)| as byte], ZipID(id));
    assert Flat(Push(Push(b, p), q)) == s.data + HeadOf(q) + [];
    ShowsPush(Push(b, p), q, o.data, o.stack[..|s.stack|], o.stack[|s.stack|]);
  }

  lemma ElementHere(f: Frames, s: Writer)
    requires Shows(f, s)
    ensures Shows(Push(f.below, f.top.(lastElement := |f.top.kids|)), WithTop(s, Top(s).(lastElement := |s.data|)))
  {
    var u := f.top.(lastElement := |f.top.kids|);
    PlaceOfEnd(f);
    PlaceKeeps(f.below, f.top, u, u.lastElement);
    PlaceKeeps(f.below, f.top, u, u.lastBreak);
    ShowsTop(f.below, u, s, Top(s).(lastElement := |s.data|));
  }

  lemma OpenAgrees(f: Frames, s: Writer, k: Kind, id: ID)
    requires Shows(f, s)
    ensures Agree(AtOpen(f, k, id), OnOpen(s, k, id))
  {
    Settles(f, s);
    RecordOpens(Settled(f).value, Settle(s).value, KindLit(k), id);
  }

  lemma ScalarAgrees(f: Frames, s: Writer, id: ID, val: Prim)
    requires Shows(f, s)
    ensures Agree(AtScalar(f, id, val), OnScalar(s, id, val))
  {
    Settles(f, s);
    ScalarWritten(Settled(f).value, Settle(s).value, id, val);
  }

  lemma ScalarWritten(f: Frames, s: Writer, id: ID, val: Prim)
    requires Shows(f, s)
    ensures var o := OpenStamped(s, PrimLit(val), id);
            var c := Pop(o.(data := o.data + PrimBytes(val)), PrimLit(val));
            && c.Ok?
            && Shows(Push(f.below, Add(f.top, First(id, val)).(lastElement := |f.top.kids|, pre := ONE)),
                     WithTop(c.value, Top(c.value).(pre := ONE)))
  {
    var t, e := f.top, First(id, val);
    var lit, zip := PrimLit(val), ZipID(id);
    var o := OpenStamped(s, lit, id);
    var w := o.(data := o.data + PrimBytes(val));
    Regroups(s.data, OpenHeader(lit, false), [|zip| as byte], zip);
    HeadThenBody(s.data, OpenHeader(lit, false), zip, PrimBytes(val));
    CloseMakesRecord(s.data, lit, false, Body(zip, PrimBytes(val)), Top(w));
    ElemIsTLV(e);
    var c := Pop(w, lit).value;
    var g := t.(lastElement := |t.kids|);
    ElementHere(f, s);
    assert c.stack == WithTop(s, Top(s).(lastElement := |s.data|)).stack;
    KidAdded(f.below, g, e, Add(g, e).(pre := ONE), c, Top(c).(pre := ONE));
  }

  lemma SemicolonAgrees(f: Frames, s: Writer)
    requires Shows(f, s)
    ensures Agree(AtSemicolon(f), OnSemicolon(s))
  {
    if f.top.lit == INLINE {
      TupleCloses(f, s);
    } else {
      var g := Forgetful(f);
      var at, stale := Top(s).lastBreak, Top(s).lastElement;
      var r := WithTop(s, Top(s).(lastElement := at));
      PlaceKeeps(f.below, f.top, g.top, f.top.lastBreak);
      PlaceAscends(f, f.top.lastElement, |f.top.kids|);
      PlaceAscends(f, f.top.lastBreak, |f.top.kids|);
      ShowsTop(f.below, g.top, s, Top(s).(lastElement := at));
      var pos := f.top.lastBreak;
      TupleOpens(g, r, pos, at);
      TupleCloses(OpenTuple(g, pos), RetroOpenTuple(r, at).value);
      StaleElement(f, s, r, at, AtSemicolon(f).value);
    }
  }

  /** The one position the semicolon leaves stale is hidden by the break it sets. */
  lemma StaleElement(f: Frames, s: Writer, r: Writer, at: nat, g: Frames)
    requires s.stack != [] && r == WithTop(s, Top(s).(lastElement := at)) && Top(s).lastElement <= |s.data|
    requires RetroOpenTuple(r, at).Ok? && CloseInlineTuple(RetroOpenTuple(r, at).value).Ok?
    requires Shows(g, CloseInlineTuple(RetroOpenTuple(r, at).value).value)
    requires g.top.lastElement <= g.top.lastBreak && g.top.lit != INLINE
    ensures RetroOpenTuple(s, at).Ok? && CloseInlineTuple(RetroOpenTuple(s, at).value).Ok?
    ensures Shows(g, CloseInlineTuple(RetroOpenTuple(s, at).value).value)
  {
    var x := CloseInlineTuple(RetroOpenTuple(r, at).value).value;
    var y := CloseInlineTuple(RetroOpenTuple(s, at).value).value;
    assert y == WithTop(x, Top(x).(lastElement := Top(s).lastElement));
    ShowsTop(g.below, g.top, x, Top(y));
  }

  /** Every callback, on every reachable state: the byte parser does what the tree parser does. */
  lemma StepAgrees(tok: Token, f: Frames, s: Writer)
    requires Shows(f, s)
    ensures Agree(TreeStep(tok, f), Step(tok, s))
  {
    match tok
    case Scalar(x, st) =>
      if Readable(tok) {
        ScalarAgrees(f, s, StampOf(st).value, ValueOf(x).value);
      }
    case Open(k, st) =>
      if Readable(tok) {
        OpenAgrees(f, s, k, StampOf(st).value);
      }
    case Close(k) => CloseAgrees(f, s, k);
    case Comma => CommaAgrees(f, s);
    case Colon => ColonAgrees(f, s);
    case Semicolon => SemicolonAgrees(f, s);
    case Root =>
      if f.top.lit == INLINE {
        TupleCloses(f, s);
      }
  }

  lemma {:induction false} RunsAgree(toks: seq<Token>, f: Frames, s: Writer)
    requires Shows(f, s)
    ensures Agree(Run(TreeStep, toks, f), Run(Step, toks, s))
    decreases |toks|
  {
    if toks != [] {
      StepAgrees(toks[0], f, s);
      if TreeStep(toks[0], f).Ok? {
        RunsAgree(toks[1..], TreeStep(toks[0], f).value, Step(toks[0], s).value);
      }
    }
  }
}
