/** The JDR printer in its plain style, and the round trip through the parser. */
module JdrPrint {
  import opened Ids
  import opened Elements
  import opened Seqs
  import opened Tlv
  import opened Marks
  import opened Wire
  import opened Jdr
  import opened JdrTree
  import TextIds

  /** A tuple that needs no brackets: two or more parts, each a value or an empty tuple. */
  predicate IsAllFirst(kids: Doc) {
    |kids| > 1 && forall x | x in kids :: x.First? || IsEmptyTuple(x)
  }

  predicate IsInline(e: Elem, bracket: bool) {
    e.Plex? && e.kind == P && e.id == ID0 && !bracket && IsAllFirst(e.kids)
  }

  function StampFor(id: ID): Stamp { if id == ID0 then NoStamp else StampText(TextIds.RonString(id)) }

  function LexemeFor(val: Prim): Lexeme {
    if val.Reference? then RefText(TextIds.RonString(val.ref)) else Literal(val)
  }

  /** Both parts fit sixty bits, which is what the text of an id can hold. */
  predicate Fits(id: ID) { id.src < TWO60 && id.time < TWO60 }

  /** All stamps and all references fit. */
  predicate Spellable(e: Elem) {
    Fits(e.id) &&
    match e
    case First(_, val) => val.Reference? ==> Fits(val.ref)
    case Plex(_, _, kids) => forall x | x in kids :: Spellable(x)
  }

  predicate SpellableDoc(d: Doc) { forall x | x in d :: Spellable(x) }

  lemma StampReads(id: ID)
    ensures StampOf(StampFor(id)) == if Fits(id) then Some(id) else None
  {
    TextIds.StampReadsBackIff(id);
  }

  lemma LexemeReads(val: Prim)
    ensures ValueOf(LexemeFor(val)) == if val.Reference? && !Fits(val.ref) then None else Some(val)
  {
    if val.Reference? {
      TextIds.StampReadsBackIff(val.ref);
    }
  }

  /** The tokens printed for an element; inside an inline tuple all tuples take brackets. */
  function Printed(e: Elem, bracket: bool): seq<Token>
    decreases e, 1
  {
    match e
    case First(id, val) => [Scalar(LexemeFor(val), StampFor(id))]
    case Plex(k, id, kids) =>
      if IsInline(e, bracket) then Joined(kids, true, Colon)
      else [Open(k, StampFor(id))] + (Joined(kids, bracket, Comma) + [Close(k)])
  }

  /** The children with a separator between any two. */
  function Joined(kids: Doc, bracket: bool, sep: Token): seq<Token>
    decreases kids, 0
  {
    if kids == [] then []
    else if |kids| == 1 then Printed(kids[0], bracket)
    else Printed(kids[0], bracket) + ([sep] + Joined(kids[1..], bracket, sep))
  }

  /** At the top level only white space separates. */
  function PrintedDoc(d: Doc): seq<Token> {
    if d == [] then [] else Printed(d[0], false) + PrintedDoc(d[1..])
  }

  // ---- what is printed, outright

  /** The token of a value: its text, and its stamp if it has one. */
  lemma ValuesPrint(id: ID, val: Prim, bracket: bool)
    ensures id == ID0 ==> Printed(First(id, val), bracket) == [Scalar(LexemeFor(val), NoStamp)]
    ensures id != ID0 ==> Printed(First(id, val), bracket) == [Scalar(LexemeFor(val), StampText(TextIds.RonString(id)))]
    ensures val.Reference? ==> LexemeFor(val) == RefText(TextIds.RonString(val.ref))
    ensures !val.Reference? ==> LexemeFor(val) == Literal(val)
  {
  }

  /** An unstamped pair of values is its parts with a colon between them, without brackets. */
  lemma {:induction false} PairsPrint(v: Elem, w: Elem)
    requires v.First? && w.First?
    ensures Printed(Plex(P, ID0, [v, w]), false) == Printed(v, true) + [Colon] + Printed(w, true)
  {
    var kids := [v, w];
    assert kids[1..] == [w] && IsAllFirst(kids);
    assert Joined(kids, true, Colon) == Printed(v, true) + ([Colon] + Joined([w], true, Colon));
    Associates(Printed(v, true), [Colon], Printed(w, true));
  }

  /** So is one of more parts, each a value or an empty tuple. */
  lemma InlineTuplesPrint(kids: Doc)
    requires |kids| >= 2 && forall x | x in kids :: x.First? || (x.kind == P && x.kids == [])
    ensures Printed(Plex(P, ID0, kids), false) == Joined(kids, true, Colon)
  {
  }

  /** A tuple of one part or none, a stamped tuple, one within an inline tuple and one that holds a container with something in it take brackets. */
  lemma {:induction false} OtherTuplesTakeBrackets(id: ID, kids: Doc, bracket: bool)
    requires |kids| < 2 || id != ID0 || bracket || exists x | x in kids :: x.Plex? && !(x.kind == P && x.kids == [])
    ensures Printed(Plex(P, id, kids), bracket) == [Open(P, StampFor(id))] + Joined(kids, bracket, Comma) + [Close(P)]
  {
    Associates([Open(P, StampFor(id))], Joined(kids, bracket, Comma), [Close(P)]);
  }

  /** Any other container is its parts between its brackets, with commas. */
  lemma {:induction false} ContainersPrint(k: Kind, id: ID, kids: Doc, bracket: bool)
    requires k != P
    ensures Printed(Plex(k, id, kids), bracket) == [Open(k, StampFor(id))] + Joined(kids, bracket, Comma) + [Close(k)]
    ensures StampFor(id) == if id == ID0 then NoStamp else StampText(TextIds.RonString(id))
  {
    Associates([Open(k, StampFor(id))], Joined(kids, bracket, Comma), [Close(k)]);
  }

  // ---- the round trip on trees

  /** The parser stands in the record t, maybe with a finished inline tuple still open. */
  predicate AtLine(f: Frames, b: Frames, t: Frame) {
    && f.Push? && Settled(f) == Ok(Push(b, t)) && t.lit != INLINE && Counted(t) && Counted(f.top)
  }

  /** A separator may follow. */
  predicate Finished(t: Frame) { t.pre != 0 && t.pre != COMMA && t.pre != COLON && t.pre != SEMICOLON }

  predicate Extends(u: Frame, t: Frame, es: Doc) {
    u.lit == t.lit && u.id == t.id && u.kids == t.kids + es
  }

  /** Reading what was printed for an element adds exactly that element. */
  lemma {:induction false} PrintedReadsBack(e: Elem, f: Frames, b: Frames, t: Frame) returns (g: Frames, u: Frame)
    requires AtLine(f, b, t) && Spellable(e)
    ensures Run(TreeStep, Printed(e, false), f) == Ok(g)
    ensures AtLine(g, b, u) && Extends(u, t, [e]) && Finished(u)
    decreases e, 1
  {
    if IsInline(e, false) {
      g, u := InlineReadsBack(e, f, b, t);
    } else {
      g, u := BracketedReadsBack(e, false, f, b, t);
      assert Settled(g) == Ok(g);
    }
  }

  /** An element that is not printed inline: the line stays as it is, one child longer. */
  lemma {:induction false} BracketedReadsBack(e: Elem, bracket: bool, f: Frames, b: Frames, t: Frame)
    returns (g: Frames, u: Frame)
    requires f.Push? && Settled(f) == Ok(Push(b, t)) && Counted(f.top) && Counted(t) && !IsInline(e, bracket)
    requires (bracket ==> e.First? || IsEmptyTuple(e)) && Spellable(e)
    ensures Run(TreeStep, Printed(e, bracket), f) == Ok(g) && g == Push(b, u)
    ensures Extends(u, t, [e]) && Finished(u) && Counted(u)
    ensures u.lastElement == |t.kids| && u.lastBreak == t.lastBreak
    decreases e, 0
  {
    match e
    case First(id, val) =>
      u := Add(t, e).(lastElement := |t.kids|, pre := ONE);
      g := Push(b, u);
      StampReads(id);
      LexemeReads(val);
      RunOne(TreeStep, Scalar(LexemeFor(val), StampFor(id)), f);
    case Plex(k, id, kids) =>
      var p := t.(lastElement := |t.kids|);
      var q := Frame(KindLit(k), id, [], 0, 0, 0);
      var o := Push(Push(b, p), q);
      u := Add(p, e).(pre := KindLit(k));
      g := Push(b, u);
      var c := Push(Push(b, p), q);
      if kids == [] {
        assert Joined(kids, bracket, Comma) == [];
      } else {
        var v;
        c, v := ListReadsBack(kids, o, Push(b, p), q);
        assert [] + kids == kids;
      }
      StampReads(id);
      RunBracket(Open(k, StampFor(id)), Joined(kids, bracket, Comma), Close(k), f, o, c, g);
  }

  lemma {:induction false} RunBracket(open: Token, inner: seq<Token>, close: Token, f: Frames, o: Frames, c: Frames, g: Frames)
    requires TreeStep(open, f) == Ok(o) && Run(TreeStep, inner, o) == Ok(c) && TreeStep(close, c) == Ok(g)
    ensures Run(TreeStep, [open] + (inner + [close]), f) == Ok(g)
  {
    RunOne(TreeStep, open, f);
    RunOne(TreeStep, close, c);
    RunConcat(TreeStep, inner, [close], o, c);
    RunConcat(TreeStep, [open], inner + [close], f, o);
  }

  /** A part, a separator, and what follows. */
  lemma {:induction false} RunThen(part: seq<Token>, sep: Token, rest: seq<Token>, f: Frames, g: Frames, h: Frames)
    requires Run(TreeStep, part, f) == Ok(g) && TreeStep(sep, g) == Ok(h)
    ensures Run(TreeStep, part + ([sep] + rest), f) == Run(TreeStep, rest, h)
  {
    RunOne(TreeStep, sep, g);
    RunConcat(TreeStep, [sep], rest, g, h);
    RunConcat(TreeStep, part, [sep] + rest, f, g);
  }

  /** A colon behind a finished part of an inline tuple. */
  lemma ColonGoesOn(b: Frames, u: Frame)
    requires u.lit == INLINE && Finished(u) && Counted(u)
    ensures TreeStep(Colon, Push(b, u)) == Ok(Push(b, u.(pre := COLON)))
  {
  }

  /** A colon behind the only element since the last break takes that element in. */
  lemma ColonTakesIn(b: Frames, t: Frame, m: Frame, e: Elem)
    requires t.lit != INLINE && m.lit == t.lit && m.kids == t.kids + [e] && Counted(m)
    requires m.lastElement == |t.kids| && m.lastBreak <= |t.kids|
    ensures TreeStep(Colon, Push(b, m)) == Ok(Push(Push(b, m.(kids := t.kids)), Frame(INLINE, ID0, [e], 0, 0, COLON)))
  {
    assert m.kids[..|t.kids|] == t.kids && m.kids[|t.kids|..] == [e];
  }

  /** A comma behind a finished child; a tuple still open ends here. */
  lemma CommaGoesOn(f: Frames, b: Frames, u: Frame)
    requires AtLine(f, b, u) && Finished(u)
    ensures TreeStep(Comma, f) == Ok(Push(b, u.(lastBreak := |u.kids|, pre := COMMA)))
  {
  }

  lemma OneAndRest(t: Doc, kids: Doc)
    requires kids != []
    ensures t + [kids[0]] + kids[1..] == t + kids && [kids[0]] + kids[1..] == kids
  {
    Associates(t, [kids[0]], kids[1..]);
  }

  lemma {:induction false} ListReadsBack(kids: Doc, f: Frames, b: Frames, t: Frame) returns (g: Frames, u: Frame)
    requires kids != [] && AtLine(f, b, t) && SpellableDoc(kids)
    ensures Run(TreeStep, Joined(kids, false, Comma), f) == Ok(g)
    ensures AtLine(g, b, u) && Extends(u, t, kids) && Finished(u)
    decreases kids, 0
  {
    g, u := PrintedReadsBack(kids[0], f, b, t);
    OneAndRest(t.kids, kids);
    if |kids| > 1 {
      var first, m := g, u.(lastBreak := |u.kids|, pre := COMMA);
      CommaGoesOn(first, b, u);
      g, u := ListReadsBack(kids[1..], Push(b, m), b, m);
      RunThen(Printed(kids[0], false), Comma, Joined(kids[1..], false, Comma), f, first, Push(b, m));
    }
  }

  /** An inline tuple: its first part is read as a plain element, then the colon takes it in. */
  lemma {:induction false} InlineReadsBack(e: Elem, f: Frames, b: Frames, t: Frame) returns (g: Frames, u: Frame)
    requires AtLine(f, b, t) && IsInline(e, false) && Spellable(e)
    ensures Run(TreeStep, Printed(e, false), f) == Ok(g)
    ensures AtLine(g, b, u) && Extends(u, t, [e]) && Finished(u)
    decreases e, 0
  {
    var kids := e.kids;
    assert kids[0] in kids;
    var first, m := BracketedReadsBack(kids[0], true, f, b, t);
    var p := m.(kids := t.kids);
    var q := Frame(INLINE, ID0, [kids[0]], 0, 0, COLON);
    ColonTakesIn(b, t, m, kids[0]);
    var v;
    g, v := PartsReadBack(kids[1..], Push(Push(b, p), q), Push(b, p), q);
    RunThen(Printed(kids[0], true), Colon, Joined(kids[1..], true, Colon), f, first, Push(Push(b, p), q));
    OneAndRest([], kids);
    assert v.kids == kids;
    u := Add(p, e);
    u := u.(lastBreak := |u.kids|, pre := INLINE);
  }

  /** The parts behind a colon. */
  lemma {:induction false} PartsReadBack(kids: Doc, f: Frames, b: Frames, t: Frame) returns (g: Frames, u: Frame)
    requires kids != [] && (forall x | x in kids :: x.First? || IsEmptyTuple(x)) && SpellableDoc(kids)
    requires f == Push(b, t) && t.lit == INLINE && t.pre == COLON && Counted(t)
    ensures Run(TreeStep, Joined(kids, true, Colon), f) == Ok(g) && g == Push(b, u)
    ensures Extends(u, t, kids) && Finished(u) && Counted(u)
    decreases kids, 0
  {
    assert kids[0] in kids;
    g, u := BracketedReadsBack(kids[0], true, f, b, t);
    OneAndRest(t.kids, kids);
    if |kids| > 1 {
      var first, m := g, u.(pre := COLON);
      ColonGoesOn(b, u);
      g, u := PartsReadBack(kids[1..], Push(b, m), b, m);
      RunThen(Printed(kids[0], true), Colon, Joined(kids[1..], true, Colon), f, first, Push(b, m));
    }
  }

  lemma {:induction false} DocReadsBack(d: Doc, f: Frames, b: Frames, t: Frame) returns (g: Frames, u: Frame)
    requires AtLine(f, b, t) && SpellableDoc(d)
    ensures Run(TreeStep, PrintedDoc(d), f) == Ok(g) && AtLine(g, b, u) && Extends(u, t, d)
    decreases |d|
  {
    if d == [] {
      g, u := f, t;
      assert t.kids + [] == t.kids;
    } else {
      var m, v := PrintedReadsBack(d[0], f, b, t);
      g, u := DocReadsBack(d[1..], m, b, v);
      RunConcat(TreeStep, Printed(d[0], false), PrintedDoc(d[1..]), f, m);
      Associates(t.kids, [d[0]], d[1..]);
      assert [d[0]] + d[1..] == d;
    }
  }

  // ---- what cannot be read

  predicate AllReadable(toks: seq<Token>) { forall t | t in toks :: Readable(t) }

  lemma ReadableParts(a: seq<Token>, b: seq<Token>)
    ensures AllReadable(a + b) <==> AllReadable(a) && AllReadable(b)
  {
    forall t | t in a || t in b ensures t in a + b { }
  }

  lemma ReadableOne(t: Token)
    ensures AllReadable([t]) <==> Readable(t)
  {
    assert t in [t];
  }

  /** The printed tokens of an element are all readable exactly when its ids fit. */
  lemma {:induction false} PrintedIsReadableIff(e: Elem, bracket: bool)
    ensures AllReadable(Printed(e, bracket)) <==> Spellable(e)
    decreases e, 1
  {
    match e
    case First(id, val) =>
      StampReads(id);
      LexemeReads(val);
      ReadableOne(Scalar(LexemeFor(val), StampFor(id)));
    case Plex(k, id, kids) =>
      StampReads(id);
      if IsInline(e, bracket) {
        JoinedIsReadableIff(kids, true, Colon);
      } else {
        var inner := Joined(kids, bracket, Comma);
        JoinedIsReadableIff(kids, bracket, Comma);
        ReadableOne(Open(k, StampFor(id)));
        ReadableOne(Close(k));
        ReadableParts(inner, [Close(k)]);
        ReadableParts([Open(k, StampFor(id))], inner + [Close(k)]);
      }
  }

  lemma {:induction false} JoinedIsReadableIff(kids: Doc, bracket: bool, sep: Token)
    requires Readable(sep)
    ensures AllReadable(Joined(kids, bracket, sep)) <==> SpellableDoc(kids)
    decreases kids, 0
  {
    if kids != [] {
      PrintedIsReadableIff(kids[0], bracket);
      SplitAt(kids, 1);
      if |kids| > 1 {
        JoinedIsReadableIff(kids[1..], bracket, sep);
        ReadableOne(sep);
        ReadableParts([sep], Joined(kids[1..], bracket, sep));
        ReadableParts(Printed(kids[0], bracket), [sep] + Joined(kids[1..], bracket, sep));
        HeadAndRest(kids);
      }
    }
  }

  lemma HeadAndRest(d: Doc)
    requires d != []
    ensures SpellableDoc(d) <==> Spellable(d[0]) && SpellableDoc(d[1..])
  {
    assert d == [d[0]] + d[1..];
  }

  lemma {:induction false} PrintedDocIsReadableIff(d: Doc)
    ensures AllReadable(PrintedDoc(d)) <==> SpellableDoc(d)
    decreases |d|
  {
    if d != [] {
      PrintedIsReadableIff(d[0], false);
      PrintedDocIsReadableIff(d[1..]);
      ReadableParts(Printed(d[0], false), PrintedDoc(d[1..]));
      HeadAndRest(d);
    }
  }
}
