/**
 The notation of JDR as a grammar: values, bracketed lists with commas, tuples with colons, and places left empty.
 Whatever is written this way, in whichever of its forms, parses to what it stands for.
 */
module Notation {
  import opened Ids
  import opened Elements
  import opened Seqs
  import opened Tlv
  import opened Marks
  import opened Wire
  import opened Jdr
  import opened JdrTree
  import opened JdrPrint
  import opened JdrSafety

  datatype Text =
    | Value(id: ID, val: Prim)
    | Listed(kind: Kind, id: ID, items: seq<Text>)
    | Colons(parts: seq<Text>)
    | Blank

  /** What is written. */
  function Tokens(x: Text): seq<Token>
    decreases x, 1
  {
    match x
    case Value(id, val) => [Scalar(LexemeFor(val), StampFor(id))]
    case Listed(k, id, items) => [Open(k, StampFor(id))] + (Between(items, Comma) + [Close(k)])
    case Colons(parts) => Between(parts, Colon)
    case Blank => []
  }

  function Between(xs: seq<Text>, sep: Token): seq<Token>
    decreases xs, 0
  {
    if xs == [] then []
    else if |xs| == 1 then Tokens(xs[0])
    else Tokens(xs[0]) + ([sep] + Between(xs[1..], sep))
  }

  /** What it stands for: an empty place for an empty tuple, colons for an unstamped tuple. */
  function Meaning(x: Text): Elem
    decreases x, 1
  {
    match x
    case Value(id, val) => First(id, val)
    case Listed(k, id, items) => Plex(k, id, Meanings(items))
    case Colons(parts) => Plex(P, ID0, Meanings(parts))
    case Blank => Plex(P, ID0, [])
  }

  function Meanings(xs: seq<Text>): (d: Doc)
    ensures |d| == |xs|
    decreases xs, 0
  {
    if xs == [] then [] else [Meaning(xs[0])] + Meanings(xs[1..])
  }

  /**
   Ids that fit sixty bits; at least two parts between colons, none of them written with colons itself, the first and the
   last not empty; and no list whose only place is empty, as that is the empty list.
   */
  predicate WellFormed(x: Text) {
    match x
    case Value(id, val) => Fits(id) && (val.Reference? ==> Fits(val.ref))
    case Listed(_, id, items) => Fits(id) && items != [Blank] && forall y | y in items :: WellFormed(y)
    case Colons(parts) =>
      && |parts| >= 2 && !parts[0].Blank? && !parts[|parts| - 1].Blank?
      && forall y | y in parts :: WellFormed(y) && !y.Colons?
    case Blank => true
  }

  // ---- values and bracketed lists

  predicate IsItem(x: Text) { x.Value? || x.Listed? }

  /** A value or a list adds itself to the line. */
  lemma {:induction false} ItemReads(x: Text, f: Frames, b: Frames, t: Frame) returns (u: Frame)
    requires IsItem(x) && WellFormed(x)
    requires f.Push? && Settled(f) == Ok(Push(b, t)) && Counted(f.top) && Counted(t)
    ensures Run(TreeStep, Tokens(x), f) == Ok(Push(b, u))
    ensures Extends(u, t, [Meaning(x)]) && Finished(u) && Counted(u)
    ensures u.lastElement == |t.kids| && u.lastBreak == t.lastBreak
    decreases x, 0
  {
    match x
    case Value(id, val) =>
      u := Add(t, First(id, val)).(lastElement := |t.kids|, pre := ONE);
      StampReads(id);
      LexemeReads(val);
      RunOne(TreeStep, Scalar(LexemeFor(val), StampFor(id)), f);
    case Listed(k, id, items) =>
      var p := t.(lastElement := |t.kids|);
      var q := Frame(KindLit(k), id, [], 0, 0, 0);
      var o := Push(Push(b, p), q);
      u := Add(p, Meaning(x)).(pre := KindLit(k));
      var c, v := o, q;
      if items == [] {
        assert Between(items, Comma) == [];
      } else {
        c, v := ListReads(items, Push(b, p), q);
        assert [] + Meanings(items) == Meanings(items);
      }
      ListCloses(k, b, p, q, c, v, Meanings(items));
      StampReads(id);
      RunBracket(Open(k, StampFor(id)), Between(items, Comma), Close(k), f, o, c, Push(b, u));
  }

  /** The list is read up to its end, where one place may still be open. */
  predicate ListRead(g: Frames, b: Frames, u: Frame, t: Frame, es: Doc) {
    && AtLine(g, b, u)
    && if u.pre == COMMA then g == Push(b, u) && Extends(AddUnit(u), t, es) else Extends(u, t, es)
  }

  lemma ListCloses(k: Kind, b: Frames, p: Frame, q: Frame, c: Frames, v: Frame, es: Doc)
    requires q.lit == KindLit(k) && q.kids == [] && ListRead(c, Push(b, p), v, q, es)
    ensures TreeStep(Close(k), c) == Ok(Push(b, Add(p, Plex(k, q.id, es)).(pre := KindLit(k))))
  {
    assert [] + es == es;
  }

  lemma {:induction false} ListReads(items: seq<Text>, b: Frames, t: Frame) returns (g: Frames, u: Frame)
    requires items != [] && forall y | y in items :: WellFormed(y)
    requires t.lit != INLINE && Counted(t) && (t.pre == 0 || t.pre == COMMA) && (items == [Blank] ==> t.pre == COMMA)
    ensures Run(TreeStep, Between(items, Comma), Push(b, t)) == Ok(g) && ListRead(g, b, u, t, Meanings(items))
    decreases items, 1
  {
    var x := items[0];
    assert x in items && forall y | y in items[1..] :: y in items;
    if |items| == 1 {
      assert Meanings(items) == [Meaning(x)];
      g, u := Push(b, t), t;
      if !x.Blank? {
        g, u := LineReads(x, g, b, t);
      }
    } else {
      var n := PlaceGoesOn(x, Between(items[1..], Comma), b, t);
      g, u := ListReads(items[1..], b, n);
      Associates(t.kids, [Meaning(x)], Meanings(items[1..]));
    }
  }

  /** What fills a place, or nothing, and the comma behind it. */
  lemma {:induction false} PlaceGoesOn(x: Text, rest: seq<Token>, b: Frames, t: Frame) returns (n: Frame)
    requires WellFormed(x) && t.lit != INLINE && Counted(t) && (t.pre == 0 || t.pre == COMMA)
    ensures Run(TreeStep, Tokens(x) + ([Comma] + rest), Push(b, t)) == Run(TreeStep, rest, Push(b, n))
    ensures n.lit == t.lit && n.pre == COMMA && Counted(n) && Extends(n, t, [Meaning(x)])
    decreases x, 2
  {
    var f := Push(b, t);
    if x.Blank? {
      var m := AddUnit(t);
      n := m.(lastBreak := |m.kids|, pre := COMMA);
      assert TreeStep(Comma, f) == Ok(Push(b, n));
      RunThen([], Comma, rest, f, f, Push(b, n));
    } else {
      var first, m := LineReads(x, f, b, t);
      n := m.(lastBreak := |m.kids|, pre := COMMA);
      CommaGoesOn(first, b, m);
      RunThen(Tokens(x), Comma, rest, f, first, Push(b, n));
    }
  }

  // ---- anything that fills a place

  lemma {:induction false} LineReads(x: Text, f: Frames, b: Frames, t: Frame) returns (g: Frames, u: Frame)
    requires !x.Blank? && WellFormed(x) && AtLine(f, b, t)
    ensures Run(TreeStep, Tokens(x), f) == Ok(g)
    ensures AtLine(g, b, u) && Extends(u, t, [Meaning(x)]) && Finished(u)
    decreases x, 1
  {
    if IsItem(x) {
      u := ItemReads(x, f, b, t);
      g := Push(b, u);
    } else {
      g, u := ColonsRead(x, f, b, t);
    }
  }

  lemma {:induction false} ColonsRead(x: Text, f: Frames, b: Frames, t: Frame) returns (g: Frames, u: Frame)
    requires x.Colons? && WellFormed(x) && AtLine(f, b, t)
    ensures Run(TreeStep, Tokens(x), f) == Ok(g)
    ensures AtLine(g, b, u) && Extends(u, t, [Meaning(x)]) && Finished(u)
    decreases x, 0
  {
    var parts := x.parts;
    assert parts[0] in parts && forall y | y in parts[1..] :: y in parts;
    var p, q := FirstPartReads(parts[0], Between(parts[1..], Colon), f, b, t);
    var v := PartsRead(parts[1..], Push(b, p), q);
    g := Push(Push(b, p), v);
    assert v.kids == Meanings(parts);
    u := TupleStands(b, p, v, t);
  }

  /** The first part is read as a plain item, then the colon takes it in. */
  lemma {:induction false} FirstPartReads(x: Text, rest: seq<Token>, f: Frames, b: Frames, t: Frame) returns (p: Frame, q: Frame)
    requires IsItem(x) && WellFormed(x) && AtLine(f, b, t)
    ensures Run(TreeStep, Tokens(x) + ([Colon] + rest), f) == Run(TreeStep, rest, Push(Push(b, p), q))
    ensures p.lit == t.lit && p.id == t.id && p.kids == t.kids && Counted(p)
    ensures q == Frame(INLINE, ID0, [Meaning(x)], 0, 0, COLON)
    decreases x, 1
  {
    var m := ItemReads(x, f, b, t);
    p, q := m.(kids := t.kids), Frame(INLINE, ID0, [Meaning(x)], 0, 0, COLON);
    ColonTakesIn(b, t, m, Meaning(x));
    RunThen(Tokens(x), Colon, rest, f, Push(b, m), Push(Push(b, p), q));
  }

  /** A finished tuple without brackets may stay open: the line has it all the same. */
  lemma TupleStands(b: Frames, p: Frame, v: Frame, t: Frame) returns (u: Frame)
    requires p.lit == t.lit && p.id == t.id && p.kids == t.kids && Counted(p) && t.lit != INLINE
    requires v.lit == INLINE && Finished(v) && Counted(v)
    ensures AtLine(Push(Push(b, p), v), b, u) && Extends(u, t, [Plex(P, ID0, v.kids)]) && Finished(u)
  {
    u := Add(p, Plex(P, ID0, v.kids));
    u := u.(lastBreak := |u.kids|, pre := INLINE);
  }

  lemma {:induction false} PartsRead(parts: seq<Text>, b: Frames, t: Frame) returns (u: Frame)
    requires parts != [] && (forall y | y in parts :: WellFormed(y) && !y.Colons?) && !parts[|parts| - 1].Blank?
    requires t.lit == INLINE && t.pre == COLON && Counted(t)
    ensures Run(TreeStep, Between(parts, Colon), Push(b, t)) == Ok(Push(b, u))
    ensures Extends(u, t, Meanings(parts)) && Finished(u) && Counted(u)
    decreases parts, 0
  {
    assert parts[0] in parts && forall y | y in parts[1..] :: y in parts;
    if |parts| == 1 {
      assert Meanings(parts) == [Meaning(parts[0])];
      u := ItemReads(parts[0], Push(b, t), b, t);
    } else {
      var n := PartGoesOn(parts[0], Between(parts[1..], Colon), b, t);
      u := PartsRead(parts[1..], b, n);
      Associates(t.kids, [Meaning(parts[0])], Meanings(parts[1..]));
    }
  }

  /** A part, or an empty place, and the colon behind it. */
  lemma {:induction false} PartGoesOn(x: Text, rest: seq<Token>, b: Frames, t: Frame) returns (n: Frame)
    requires WellFormed(x) && !x.Colons? && t.lit == INLINE && t.pre == COLON && Counted(t)
    ensures Run(TreeStep, Tokens(x) + ([Colon] + rest), Push(b, t)) == Run(TreeStep, rest, Push(b, n))
    ensures n.lit == INLINE && n.pre == COLON && Counted(n) && Extends(n, t, [Meaning(x)])
    decreases x, 1
  {
    var f := Push(b, t);
    if x.Blank? {
      n := AddUnit(t).(pre := COLON);
      assert TreeStep(Colon, f) == Ok(Push(b, n));
      RunThen([], Colon, rest, f, f, Push(b, n));
    } else {
      var m := ItemReads(x, f, b, t);
      n := m.(pre := COLON);
      ColonGoesOn(b, m);
      RunThen(Tokens(x), Colon, rest, f, Push(b, m), Push(b, n));
    }
  }

  // ---- whole texts

  /** One after the other, with nothing but white space between. */
  function Page(xs: seq<Text>): seq<Token> { if xs == [] then [] else Tokens(xs[0]) + Page(xs[1..]) }

  lemma {:induction false} PageReads(xs: seq<Text>, f: Frames, b: Frames, t: Frame) returns (g: Frames, u: Frame)
    requires AtLine(f, b, t) && forall x | x in xs :: WellFormed(x) && !x.Blank?
    ensures Run(TreeStep, Page(xs), f) == Ok(g) && AtLine(g, b, u) && Extends(u, t, Meanings(xs))
    decreases |xs|
  {
    if xs == [] {
      g, u := f, t;
      assert t.kids + [] == t.kids;
    } else {
      assert xs[0] in xs && forall x | x in xs[1..] :: x in xs;
      var m, v := LineReads(xs[0], f, b, t);
      g, u := PageReads(xs[1..], m, b, v);
      RunConcat(TreeStep, Tokens(xs[0]), Page(xs[1..]), f, m);
      Associates(t.kids, [Meaning(xs[0])], Meanings(xs[1..]));
    }
  }

  /** Every text of the notation parses to what it stands for. */
  lemma {:induction false} TextsParse(xs: seq<Text>)
    requires forall x | x in xs :: WellFormed(x) && !x.Blank?
    ensures Parse(Page(xs)) == Ok(EncodeDoc(Meanings(xs)))
  {
    var g, u := PageReads(xs, SPROUT, Bottom, SPROUT.top);
    assert u.kids == Meanings(xs);
    TreeParses(Page(xs), g, u);
  }
}
