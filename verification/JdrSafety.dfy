/** What holds of the JDR parser on every sequence of tokens, and the round trip. */
module JdrSafety {
  import opened Ids
  import opened Elements
  import opened Seqs
  import opened Tlv
  import opened Marks
  import opened Wire
  import opened Jdr
  import opened JdrTree
  import opened JdrPrint

  lemma StartShows()
    ensures Shows(SPROUT, START)
  {
    assert START.stack[..0] == [];
  }

  /** Every state the parser reaches is the picture of a tree under construction. */
  lemma ReachedStateShowsATree(toks: seq<Token>, s: Writer) returns (f: Frames)
    requires Run(Step, toks, START) == Ok(s)
    ensures Run(TreeStep, toks, SPROUT) == Ok(f) && Shows(f, s)
  {
    StartShows();
    RunsAgree(toks, SPROUT, START);
    f := Run(TreeStep, toks, SPROUT).value;
  }

  // ---- marks and boundaries

  lemma {:induction false} StartsAscend(f: Frames, stack: seq<Mark>)
    requires Rooted(f) && MarksShow(f, stack)
    ensures stack != [] && stack[0].start == 0 && (|stack| > 1 ==> f.top.lit != ROOT)
    ensures forall i, j | 0 < i < j < |stack| :: stack[i].start < stack[j].start
    ensures stack[|stack| - 1].start + |HeadOf(f.top)| <= |Flat(f)|
    decreases f
  {
    var b, n := f.below, |stack| - 1;
    if b.Push? {
      var init := stack[..n];
      StartsAscend(b, init);
      assert forall i | 0 <= i < n :: init[i] == stack[i];
      if n > 1 {
        assert |HeadOf(b.top)| > 0;
        assert init[n - 1].start < stack[n].start;
      }
    }
  }

  /** What an open record shows in the buffer: its header and id, and finished children. */
  datatype Record = Record(id: ID, kids: Doc)

  /** From its mark to the next, an open record is its header, its id and whole children. */
  predicate Nested(data: bytes, stack: seq<Mark>, recs: seq<Record>)
    requires |recs| == |stack|
  {
    stack == [] ||
    var n := |stack| - 1;
    && stack[n].start <= |data|
    && data == data[..stack[n].start] + HeaderOf(stack[n].lit, recs[n].id) + EncodeDoc(recs[n].kids)
    && Nested(data[..stack[n].start], stack[..n], recs[..n])
  }

  /** The position is behind the first n children of the record. */
  predicate IsBoundary(m: Mark, r: Record, n: nat, pos: nat) {
    n <= |r.kids| && pos == m.start + |HeaderOf(m.lit, r.id)| + |EncodeDoc(r.kids[..n])|
  }

  lemma {:induction false} FramesNest(f: Frames, stack: seq<Mark>) returns (recs: seq<Record>)
    requires MarksShow(f, stack)
    ensures |recs| == |stack| && Nested(Flat(f), stack, recs)
    ensures f.Push? ==> recs != [] && recs[|recs| - 1] == Record(f.top.id, f.top.kids)
    decreases f
  {
    match f
    case Bottom => recs := [];
    case Push(b, t) =>
      var n := |stack| - 1;
      recs := FramesNest(b, stack[..n]);
      JoinedParts(Flat(b), HeadOf(t) + EncodeDoc(t.kids));
      Associates(Flat(b), HeadOf(t), EncodeDoc(t.kids));
      recs := recs + [Record(t.id, t.kids)];
      assert recs[..n] + [recs[n]] == recs;
  }

  /**
   On every run of tokens: mark starts ascend; the whole buffer is a nest of open records, each its
   header, its id and whole children; and both places where a late tuple may be spliced in, the one
   the colon looks back to and the last break, are where a child starts or the children end.
   */
  lemma EveryRunIsSafe(toks: seq<Token>, s: Writer) returns (recs: seq<Record>, look: nat, brk: nat)
    requires Run(Step, toks, START) == Ok(s)
    ensures s.stack != [] && s.stack[0].lit == ROOT && |recs| == |s.stack|
    ensures forall i, j | 0 < i < j < |s.stack| :: s.stack[i].start < s.stack[j].start
    ensures Nested(s.data, s.stack, recs)
    ensures Top(s).lit != INLINE ==>
              && var m := Top(s);
              && IsBoundary(m, recs[|recs| - 1], look, if m.lastBreak > m.lastElement then m.lastBreak else m.lastElement)
              && IsBoundary(m, recs[|recs| - 1], brk, m.lastBreak)
  {
    var f := ReachedStateShowsATree(toks, s);
    recs := PictureIsNested(f, s);
    look := if f.top.lastBreak > f.top.lastElement then f.top.lastBreak else f.top.lastElement;
    brk := f.top.lastBreak;
    if Top(s).lit != INLINE {
      BoundariesShow(f, Top(s));
    }
  }

  lemma PictureIsNested(f: Frames, s: Writer) returns (recs: seq<Record>)
    requires Shows(f, s)
    ensures s.stack != [] && s.stack[0].lit == ROOT && |recs| == |s.stack|
    ensures forall i, j | 0 < i < j < |s.stack| :: s.stack[i].start < s.stack[j].start
    ensures Nested(s.data, s.stack, recs) && recs[|recs| - 1] == Record(f.top.id, f.top.kids)
    ensures MarkShows(f, Top(s))
  {
    StartsAscend(f, s.stack);
    RootIsFirst(f, s.stack);
    recs := FramesNest(f, s.stack);
  }

  lemma BoundariesShow(f: Frames, m: Mark)
    requires f.Push? && MarkShows(f, m) && m.lit != INLINE
    ensures var t := f.top;
            && IsBoundary(m, Record(t.id, t.kids), if t.lastBreak > t.lastElement then t.lastBreak else t.lastElement,
                          if m.lastBreak > m.lastElement then m.lastBreak else m.lastElement)
            && IsBoundary(m, Record(t.id, t.kids), t.lastBreak, m.lastBreak)
  {
    LooksBack(f, m);
  }

  lemma {:induction false} RootIsFirst(f: Frames, stack: seq<Mark>)
    requires Rooted(f) && MarksShow(f, stack)
    ensures stack[0].lit == ROOT && (|stack| == 1 <==> f.below.Bottom?)
    decreases f
  {
    if f.below.Push? {
      RootIsFirst(f.below, stack[..|stack| - 1]);
    }
  }

  /** Whatever the tokens, an accepted parse is the exact encoding of some document. */
  lemma ParsedBytesAreADocument(toks: seq<Token>) returns (d: Doc)
    requires Parse(toks).Ok?
    ensures Parse(toks) == Ok(EncodeDoc(d))
  {
    var s := Run(Step, toks + [Root], START).value;
    var f := ReachedStateShowsATree(toks + [Root], s);
    RootIsFirst(f, s.stack);
    RootLineIsADocument(f);
    d := f.top.kids;
  }

  lemma {:induction false} RootLineIsADocument(f: Frames)
    requires Rooted(f) && f.below.Bottom?
    ensures Flat(f) == EncodeDoc(f.top.kids)
  {
    assert [] + EncodeDoc(f.top.kids) == EncodeDoc(f.top.kids);
  }

  // ---- which token sequences are accepted

  /** Brackets alone. */
  function Nest(tok: Token, open: seq<Kind>): Result<seq<Kind>> {
    match tok
    case Open(k, _) => Ok(open + [k])
    case Close(k) => if open != [] && open[|open| - 1] == k then Ok(open[..|open| - 1]) else Refused
    case _ => Ok(open)
  }

  function Brackets(f: Frames): seq<Kind> {
    match f
    case Bottom => []
    case Push(b, t) => if IsPlexLit(t.lit) then Brackets(b) + [KindOf(t.lit)] else Brackets(b)
  }

  lemma {:induction false} TupleHasNoBracket(f: Frames)
    requires Rooted(f) && f.top.lit == INLINE
    ensures CloseTuple(f).Ok? && Brackets(CloseTuple(f).value) == Brackets(f)
    ensures CloseTuple(f).value.Push? && CloseTuple(f).value.top.lit != INLINE
    ensures CloseTuple(f).value.below.Bottom? <==> CloseTuple(f).value.top.lit == ROOT
    ensures CloseTuple(f).value.top.lit == ROOT || IsPlexLit(CloseTuple(f).value.top.lit)
  {
  }

  lemma {:induction false} SettledBrackets(f: Frames)
    requires Rooted(f)
    ensures Settled(f).Ok? && Settled(f).value.Push? && Brackets(Settled(f).value) == Brackets(f)
  {
    if f.top.lit == INLINE {
      TupleHasNoBracket(f);
    }
  }

  lemma {:induction false} CloseNests(f: Frames, k: Kind)
    requires Rooted(f)
    ensures AtClose(f, k).Ok? == Nest(Close(k), Brackets(f)).Ok?
    ensures AtClose(f, k).Ok? ==> Brackets(AtClose(f, k).value) == Nest(Close(k), Brackets(f)).value
  {
    if f.top.lit == INLINE {
      TupleHasNoBracket(f);
      PlexClosedNests(CloseTuple(f).value, k);
    } else if f.top.pre == COMMA {
      PlexClosedNests(Push(f.below, AddUnit(f.top)), k);
    } else {
      PlexClosedNests(f, k);
    }
  }

  lemma {:induction false} PlexClosedNests(f: Frames, k: Kind)
    requires f.Push? && f.top.lit != INLINE && (f.below.Bottom? <==> f.top.lit == ROOT)
    requires f.top.lit == ROOT || IsPlexLit(f.top.lit)
    ensures PlexClosed(f, k).Ok? == Nest(Close(k), Brackets(f)).Ok?
    ensures PlexClosed(f, k).Ok? ==> Brackets(PlexClosed(f, k).value) == Nest(Close(k), Brackets(f)).value
  {
    if IsPlexLit(f.top.lit) {
      var below := Brackets(f.below);
      assert (below + [KindOf(f.top.lit)])[..|below|] == below;
    } else {
      RootHasNoBrackets(f);
    }
  }

  lemma {:induction false} RootHasNoBrackets(f: Frames)
    requires f.Push? && f.top.lit == ROOT && f.below.Bottom?
    ensures Brackets(f) == []
  {
  }

  lemma {:induction false} StepNests(tok: Token, f: Frames)
    requires Rooted(f) && Readable(tok)
    ensures TreeStep(tok, f).Ok? == Nest(tok, Brackets(f)).Ok?
    ensures TreeStep(tok, f).Ok? ==> Brackets(TreeStep(tok, f).value) == Nest(tok, Brackets(f)).value
  {
    SettledBrackets(f);
    match tok
    case Scalar(_, _) =>
    case Open(_, _) =>
    case Close(k) => CloseNests(f, k);
    case Comma => if f.top.lit == INLINE { TupleHasNoBracket(f); }
    case Colon =>
    case Semicolon => if f.top.lit == INLINE { TupleHasNoBracket(f); }
    case Root => if f.top.lit == INLINE { TupleHasNoBracket(f); }
  }

  /** A token with an id that cannot be read is refused in every state. */
  lemma {:induction false} UnreadableRefused(toks: seq<Token>, s: Writer)
    requires !AllReadable(toks)
    ensures Run(Step, toks, s) == Refused
    decreases |toks|
  {
    assert toks == [toks[0]] + toks[1..];
    ReadableOne(toks[0]);
    ReadableParts([toks[0]], toks[1..]);
    if Readable(toks[0]) && Step(toks[0], s).Ok? {
      UnreadableRefused(toks[1..], Step(toks[0], s).value);
    }
  }

  lemma {:induction false} RunNests(toks: seq<Token>, f: Frames, s: Writer)
    requires Shows(f, s) && AllReadable(toks)
    ensures Run(Step, toks, s).Ok? == Run(Nest, toks, Brackets(f)).Ok?
    ensures Run(Step, toks, s).Ok? ==>
              && Run(TreeStep, toks, f).Ok?
              && Brackets(Run(TreeStep, toks, f).value) == Run(Nest, toks, Brackets(f)).value
    decreases |toks|
  {
    if toks != [] {
      assert toks[0] in toks && forall t | t in toks[1..] :: t in toks;
      StepAgrees(toks[0], f, s);
      StepNests(toks[0], f);
      if Step(toks[0], s).Ok? {
        RunNests(toks[1..], TreeStep(toks[0], f).value, Step(toks[0], s).value);
      }
    }
  }

  lemma {:induction false} NoBracketsLeft(f: Frames)
    requires Rooted(f) && f.top.lit != INLINE
    ensures Brackets(f) == [] <==> f.below.Bottom?
  {
  }

  /** The parser accepts exactly the token sequences whose brackets match and whose ids can all be read. */
  lemma {:induction false} ParseAcceptsIff(toks: seq<Token>)
    ensures Parse(toks).Ok? <==> AllReadable(toks) && Run(Nest, toks, []) == Ok([])
  {
    if !AllReadable(toks) {
      UnreadableRefused(toks, START);
      RejectedStays(toks, [Root]);
    } else {
      StartShows();
      RunNests(toks, SPROUT, START);
      if Run(Nest, toks, []).Ok? {
        LastTokenCloses(toks);
      } else {
        RejectedStays(toks, [Root]);
      }
    }
  }

  lemma {:induction false} LastTokenCloses(toks: seq<Token>)
    requires AllReadable(toks) && Run(Nest, toks, []).Ok?
    ensures Parse(toks).Ok? <==> Run(Nest, toks, []) == Ok([])
  {
    StartShows();
    RunNests(toks, SPROUT, START);
    var s := Run(Step, toks, START).value;
    var f := ReachedStateShowsATree(toks, s);
    RunConcat(Step, toks, [Root], START, s);
    RunOne(Step, Root, s);
    StepAgrees(Root, f, s);
    StepNests(Root, f);
    var g := TreeStep(Root, f).value;
    if f.top.lit == INLINE {
      TupleHasNoBracket(f);
    }
    NoBracketsLeft(g);
    RootIsFirst(g, Step(Root, s).value.stack);
  }

  lemma {:induction false} RejectedStays(toks: seq<Token>, more: seq<Token>)
    requires Run(Step, toks, START) == Refused
    ensures Run(Step, toks + more, START) == Refused
  {
    RunFails(Step, toks, more, START);
  }

  // ---- the round trip

  /** Parsing what was printed gives the same bytes, for exactly the documents whose ids all fit sixty bits. */
  lemma {:induction false} PrintedParsesBackIff(d: Doc)
    ensures Parse(PrintedDoc(d)) == if SpellableDoc(d) then Ok(EncodeDoc(d)) else Refused
  {
    PrintedDocIsReadableIff(d);
    ParseAcceptsIff(PrintedDoc(d));
    if SpellableDoc(d) {
      PrintedParsesBack(d);
    }
  }

  lemma {:induction false} PrintedParsesBack(d: Doc)
    requires SpellableDoc(d)
    ensures Parse(PrintedDoc(d)) == Ok(EncodeDoc(d))
  {
    var toks := PrintedDoc(d);
    var g, u := DocReadsBack(d, SPROUT, Bottom, SPROUT.top);
    assert u.kids == d;
    TreeParses(toks, g, u);
  }

  // ---- two notations for one tuple

  lemma {:induction false} PlainDocReadsBack(d: Doc, b: Frames, t: Frame) returns (u: Frame)
    requires t.lit != INLINE && Counted(t) && SpellableDoc(d) && forall e | e in d :: !IsInline(e, false)
    ensures Run(TreeStep, PrintedDoc(d), Push(b, t)) == Ok(Push(b, u))
    ensures Extends(u, t, d) && Counted(u) && u.lastBreak == t.lastBreak
    decreases |d|
  {
    if d == [] {
      u := t;
      assert t.kids + [] == t.kids;
    } else {
      assert d[0] in d;
      var m, v := BracketedReadsBack(d[0], false, Push(b, t), b, t);
      u := PlainDocReadsBack(d[1..], b, v);
      RunConcat(TreeStep, Printed(d[0], false), PrintedDoc(d[1..]), Push(b, t), m);
      Associates(t.kids, [d[0]], d[1..]);
      assert [d[0]] + d[1..] == d;
    }
  }

  /** A semicolon makes one tuple of all that stands before it, as colons between the parts do. */
  lemma {:induction false} SemicolonMakesATuple(d: Doc)
    requires SpellableDoc(d) && forall e | e in d :: !IsInline(e, false)
    ensures Parse(PrintedDoc(d) + [Semicolon]) == Ok(EncodeDoc([Plex(P, ID0, d)]))
    ensures IsAllFirst(d) ==> Parse(Joined(d, true, Colon)) == Parse(PrintedDoc(d) + [Semicolon])
  {
    var e := Plex(P, ID0, d);
    var g := SemicolonCloses(d);
    TreeParses(PrintedDoc(d) + [Semicolon], g, g.top);
    if IsAllFirst(d) {
      ColonsMakeATuple(d, e);
    }
  }

  lemma {:induction false} ColonsMakeATuple(d: Doc, e: Elem)
    requires SpellableDoc(d) && IsAllFirst(d) && e == Plex(P, ID0, d)
    ensures Parse(Joined(d, true, Colon)) == Ok(EncodeDoc([e]))
  {
    assert Spellable(e) && [e][1..] == [];
    assert PrintedDoc([e]) == Printed(e, false) + PrintedDoc([]);
    assert Joined(d, true, Colon) + [] == Joined(d, true, Colon);
    PrintedParsesBack([e]);
  }

  lemma SemicolonCloses(d: Doc) returns (g: Frames)
    requires SpellableDoc(d) && forall e | e in d :: !IsInline(e, false)
    ensures Run(TreeStep, PrintedDoc(d) + [Semicolon], SPROUT) == Ok(g)
    ensures g.Push? && g.below.Bottom? && g.top.lit == ROOT && Counted(g.top) && g.top.kids == [Plex(P, ID0, d)]
  {
    var u := PlainDocReadsBack(d, Bottom, SPROUT.top);
    var f := Push(Bottom, u);
    assert u.kids == d;
    g := SemicolonAtRoot(f);
    assert [Semicolon] + [] == [Semicolon];
    RunThen(PrintedDoc(d), Semicolon, [], SPROUT, f, g);
  }

  /** At the root, with no break so far, a semicolon takes in all children. */
  lemma SemicolonAtRoot(f: Frames) returns (g: Frames)
    requires f.Push? && f.below.Bottom? && f.top.lit == ROOT && Counted(f.top) && f.top.lastBreak == 0
    ensures AtSemicolon(f) == Ok(g)
    ensures g.Push? && g.below.Bottom? && g.top.lit == ROOT && Counted(g.top) && g.top.kids == [Plex(P, ID0, f.top.kids)]
  {
    var kids := f.top.kids;
    assert kids[..0] == [] && kids[0..] == kids && [] + [Plex(P, ID0, kids)] == [Plex(P, ID0, kids)];
    g := AtSemicolon(f).value;
  }

  /** A run of the tree parser whose end closes to the line of the root is a parse. */
  lemma {:induction false} TreeParses(toks: seq<Token>, g: Frames, t: Frame)
    requires Run(TreeStep, toks, SPROUT) == Ok(g)
    requires TreeStep(Root, g) == Ok(Push(Bottom, t)) && t.lit == ROOT
    ensures Parse(toks) == Ok(EncodeDoc(t.kids))
  {
    StartShows();
    RunsAgree(toks, SPROUT, START);
    var s := Run(Step, toks, START).value;
    RunConcat(Step, toks, [Root], START, s);
    RunOne(Step, Root, s);
    StepAgrees(Root, g, s);
    var f := Push(Bottom, t);
    RootIsFirst(f, Step(Root, s).value.stack);
    RootLineIsADocument(f);
  }

  // ---- empty places

  function Units(n: nat): (r: Doc)
    ensures |r| == n
  {
    if n == 0 then [] else Units(n - 1) + [UNIT]
  }

  function Repeated(tok: Token, n: nat): seq<Token> {
    if n == 0 then [] else Repeated(tok, n - 1) + [tok]
  }

  lemma {:induction false} CommasRun(f: Frames, q: Frame, n: nat)
    requires f == Push(Push(Bottom, SPROUT.top), q) && IsPlexLit(q.lit) && q.kids == [] && q.pre == 0 && n > 0
    requires q.lastBreak == 0 == q.lastElement
    ensures Run(TreeStep, Repeated(Comma, n), f)
         == Ok(Push(f.below, q.(kids := Units(n), lastBreak := n, pre := COMMA)))
  {
    var g := if n == 1 then f else Push(f.below, q.(kids := Units(n - 1), lastBreak := n - 1, pre := COMMA));
    if n > 1 {
      CommasRun(f, q, n - 1);
    }
    RunConcat(TreeStep, Repeated(Comma, n - 1), [Comma], f, g);
    RunOne(TreeStep, Comma, g);
  }

  /** Commas with nothing between them stand for empty tuples: n commas make n + 1 of them. */
  lemma {:induction false} CommasFillWithEmptyTuples(k: Kind, id: ID, n: nat)
    requires n > 0 && Fits(id)
    ensures Parse([Open(k, StampFor(id))] + (Repeated(Comma, n) + [Close(k)])) == Ok(EncodeDoc([Plex(k, id, Units(n + 1))]))
  {
    var q := Frame(KindLit(k), id, [], 0, 0, 0);
    var o := Push(SPROUT, q);
    var c := Push(SPROUT, q.(kids := Units(n), lastBreak := n, pre := COMMA));
    var t := Add(SPROUT.top, Plex(k, id, Units(n + 1))).(pre := KindLit(k));
    CommasRun(o, q, n);
    OpensAtRoot(k, id);
    ClosesAtRoot(k, c.top);
    assert t.kids == [Plex(k, id, Units(n + 1))];
    RunBracket(Open(k, StampFor(id)), Repeated(Comma, n), Close(k), SPROUT, o, c, Push(Bottom, t));
    TreeParses([Open(k, StampFor(id))] + (Repeated(Comma, n) + [Close(k)]), Push(Bottom, t), t);
  }

  lemma OpensAtRoot(k: Kind, id: ID)
    requires Fits(id)
    ensures TreeStep(Open(k, StampFor(id)), SPROUT) == Ok(Push(SPROUT, Frame(KindLit(k), id, [], 0, 0, 0)))
  {
    StampReads(id);
    assert SPROUT.top.(lastElement := 0) == SPROUT.top;
  }

  /** A bracket that closes behind a comma: the empty place behind the comma counts. */
  lemma ClosesAtRoot(k: Kind, q: Frame)
    requires q.lit == KindLit(k) && q.pre == COMMA && Counted(q)
    ensures TreeStep(Close(k), Push(SPROUT, q))
         == Ok(Push(Bottom, Add(SPROUT.top, Plex(k, q.id, q.kids + [UNIT])).(pre := KindLit(k))))
  {
  }

  lemma {:induction false} ColonsRun(n: nat)
    requires n > 0
    ensures Run(TreeStep, Repeated(Colon, n), SPROUT)
         == Ok(Push(SPROUT, Frame(INLINE, ID0, Units(n - 1), 0, 0, COLON)))
  {
    var g := if n == 1 then SPROUT else Push(SPROUT, Frame(INLINE, ID0, Units(n - 2), 0, 0, COLON));
    if n > 1 {
      ColonsRun(n - 1);
    } else {
      assert SPROUT.top.kids[..0] == [];
    }
    RunConcat(TreeStep, Repeated(Colon, n - 1), [Colon], SPROUT, g);
    RunOne(TreeStep, Colon, g);
  }

  /** Colons alone make a tuple of as many empty tuples: the place before the first colon is not filled. */
  lemma {:induction false} ColonsFillWithEmptyTuples(n: nat)
    requires n > 0
    ensures Parse(Repeated(Colon, n)) == Ok(EncodeDoc([Plex(P, ID0, Units(n))]))
  {
    ColonsRun(n);
    var g := Push(SPROUT, Frame(INLINE, ID0, Units(n - 1), 0, 0, COLON));
    var e := Plex(P, ID0, Units(n));
    var t := Add(SPROUT.top, e).(lastBreak := 1, pre := INLINE);
    assert t.kids == [e];
    TreeParses(Repeated(Colon, n), g, t);
  }
}
