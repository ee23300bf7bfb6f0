/**
 The parser's callbacks as they change its state in place. A ghost field holds the tree that the
 buffer shows; each callback is proved to change that tree as a parser on trees would.
 */
module JdrState {
  import opened Ids
  import opened Elements
  import opened Zip
  import opened Tlv
  import opened Marks
  import opened Wire
  import opened JdrTree
  import opened JdrPrint
  import opened JdrSafety
  import opened JdrWriter
  import Jdr
  import TextIds

  class JDRState {
    const buf: TlvBuffer
    ghost var tree: Frames

    constructor ()
      ensures fresh(buf) && Valid() && tree == SPROUT
    {
      buf := new TlvBuffer();
      tree := SPROUT;
      new;
      buf.stack := [Mark(0, 0, 0, Jdr.ROOT, 0)];
      StartShows();
    }

    /** The buffer and its marks are the picture of the tree. */
    ghost predicate Valid()
      reads this, buf
    {
      Shows(tree, State())
    }

    /** The callback changed the tree as the parser on trees does, or both refused. */
    ghost predicate Grew(ok: bool, r: Result<Frames>)
      reads this, buf
    {
      match r
      case Ok(g) => ok && tree == g && Valid()
      case Refused => !ok
    }

    function State(): Writer
      reads buf
    {
      Writer(buf.data, buf.stack)
    }

    /** The callback did what the step function says, or both refused. */
    ghost predicate Did(ok: bool, r: Result<Writer>)
      reads buf
    {
      match r
      case Ok(s) => ok && State() == s
      case Refused => !ok
    }

    function Line(): Mark
      requires buf.stack != []
      reads buf
    {
      buf.stack[|buf.stack| - 1]
    }

    method SetLine(m: Mark)
      requires buf.stack != []
      modifies buf
      ensures State() == Jdr.WithTop(old(State()), m)
    {
      buf.stack := buf.stack[..|buf.stack| - 1] + [m];
    }

    method AppendEmptyTuple()
      requires buf.stack != []
      modifies buf
      ensures State() == Jdr.AppendEmptyTuple(old(State()))
    {
      buf.data := buf.data + Jdr.EMPTY_TUPLE;
      SetLine(Line().(pre := Jdr.INLINE));
    }

    /** `CloseTLV`, and something must be left to return to. */
    method Close(lit: byte) returns (ok: bool)
      requires buf.stack != []
      modifies buf
      ensures Did(ok, Jdr.Pop(old(State()), lit))
    {
      ok := buf.CloseTLV(lit);
      ok := ok && |buf.stack| > 0;
    }

    method CloseInlineTuple() returns (ok: bool)
      requires buf.stack != []
      modifies buf
      ensures Did(ok, Jdr.CloseInlineTuple(old(State())))
    {
      if Line().pre == Jdr.COLON {
        AppendEmptyTuple();
      }
      ok := Close(KindLit(P));
      if ok {
        SetLine(Line().(lastBreak := |buf.data|, pre := Jdr.INLINE));
      }
    }

    /** Moves everything from pos on to make room for a tuple header. */
    method RetroOpenTuple(pos: nat) returns (ok: bool)
      modifies buf
      ensures Did(ok, Jdr.RetroOpenTuple(old(State()), pos))
    {
      if |buf.stack| == 0 || |buf.data| < pos {
        return false;
      }
      buf.data := buf.data[..pos] + [Jdr.INLINE, 0, 0] + buf.data[pos..];
      buf.stack := buf.stack + [Mark(pos, 0, 0, Jdr.INLINE, 0)];
      ok := true;
    }

    method Settle() returns (ok: bool)
      requires buf.stack != []
      modifies buf
      ensures Did(ok, Jdr.Settle(old(State())))
    {
      ok := true;
      if Line().lit == Jdr.INLINE && Line().pre != Jdr.COLON {
        ok := CloseInlineTuple();
      }
    }

    /** Opens a record; the stamp that follows fills in its id, if it can be read. */
    method OpenStamped(lit: byte, st: Jdr.Stamp) returns (ok: bool)
      requires buf.stack != [] && IsUpper(lit)
      modifies buf
      ensures ok == Jdr.StampOf(st).Some?
      ensures ok ==> State() == Jdr.OpenStamped(old(State()), lit, Jdr.StampOf(st).value)
      ensures buf.stack != []
    {
      SetLine(Line().(lastElement := |buf.data|));
      buf.OpenTLV(lit);
      ok := OnStamp(st);
    }

    /** `JDRonStamp` and `JDRonNoStamp`: the id and its length, or refusal of a text that is no id. */
    method OnStamp(st: Jdr.Stamp) returns (ok: bool)
      requires buf.stack != []
      modifies buf
      ensures buf.stack != [] && ok == Jdr.StampOf(st).Some?
      ensures ok ==>
                var zip := ZipID(Jdr.StampOf(st).value);
                var data := old(buf.data) + [|zip| as byte] + zip;
                State() == Jdr.WithTop(Writer(data, old(buf.stack)), old(Line()).(lastElement := |data|, lastBreak := |data|))
    {
      ok := true;
      match st {
        case NoStamp =>
          buf.data := buf.data + [0];
          assert ZipID(ID0) == [] && buf.data == old(buf.data) + [0] + [];
        case StampText(txt) =>
          match TextIds.NewID(txt)
          case None => return false;
          case Some(id) =>
            var zip := ZipID(id);
            buf.data := buf.data + [|zip|];
            buf.data := buf.data + zip;
      }
      SetLine(Line().(lastElement := |buf.data|, lastBreak := |buf.data|));
    }

    /** A value: its record is opened, stamped, filled and closed. */
    method OnFIRST(x: Jdr.Lexeme, st: Jdr.Stamp) returns (ok: bool)
      requires Valid()
      modifies this`tree, buf
      ensures Grew(ok, TreeStep(Jdr.Scalar(x, st), old(tree)))
    {
      ghost var f, s := tree, State();
      StepAgrees(Jdr.Scalar(x, st), f, s);
      ok := WriteFIRST(x, st);
      if ok {
        tree := TreeStep(Jdr.Scalar(x, st), f).value;
      }
    }

    method WriteFIRST(x: Jdr.Lexeme, st: Jdr.Stamp) returns (ok: bool)
      requires buf.stack != []
      modifies buf
      ensures Did(ok, Jdr.Step(Jdr.Scalar(x, st), old(State())))
    {
      ghost var s := State();
      ok := Settle();
      if ok {
        ok := OpenStamped(Jdr.LexemeLit(x), st);
        if ok {
          assert State() == Jdr.OpenStamped(Jdr.Settle(s).value, Jdr.LexemeLit(x), Jdr.StampOf(st).value);
          ok := CloseFIRST(x);
        }
      }
    }

    /** Writes the value, unless it is a reference that cannot be read, and closes the record. */
    method CloseFIRST(x: Jdr.Lexeme) returns (ok: bool)
      requires buf.stack != []
      modifies buf
      ensures match Jdr.ValueOf(x)
              case None => !ok
              case Some(val) =>
                var s := old(State());
                Did(ok, match Jdr.Pop(s.(data := s.data + PrimBytes(val)), PrimLit(val))
                        case Ok(c) => Ok(Jdr.WithTop(c, Jdr.Top(c).(pre := Jdr.ONE)))
                        case Refused => Refused)
    {
      match Jdr.ValueOf(x)
      case None => ok := false;
      case Some(val) =>
        buf.data := buf.data + PrimBytes(val);
        ok := Close(PrimLit(val));
        if ok {
          SetLine(Line().(pre := Jdr.ONE));
        }
    }

    /** An opening bracket with its stamp. */
    method OnOpenPLEX(k: Kind, st: Jdr.Stamp) returns (ok: bool)
      requires Valid()
      modifies this`tree, buf
      ensures Grew(ok, TreeStep(Jdr.Open(k, st), old(tree)))
    {
      ghost var f := tree;
      StepAgrees(Jdr.Open(k, st), f, State());
      ok := Settle();
      if ok {
        ok := OpenStamped(KindLit(k), st);
      }
      if ok {
        tree := TreeStep(Jdr.Open(k, st), f).value;
      }
    }

    /** A closing bracket; after a dangling comma an empty tuple comes first. */
    method OnClosePLEX(k: Kind) returns (ok: bool)
      requires Valid()
      modifies this`tree, buf
      ensures Grew(ok, AtClose(old(tree), k))
    {
      ghost var f := tree;
      CloseAgrees(f, State(), k);
      ok := true;
      if Line().lit == Jdr.INLINE {
        ok := CloseInlineTuple();
      } else if Line().pre == Jdr.COMMA {
        AppendEmptyTuple();
      }
      if ok {
        ok := ClosePlex(k);
      }
      if ok {
        tree := AtClose(f, k).value;
      }
    }

    method ClosePlex(k: Kind) returns (ok: bool)
      requires buf.stack != []
      modifies buf
      ensures Did(ok, Jdr.ClosePlex(old(State()), k))
    {
      if Line().lit != KindLit(k) {
        return false;
      }
      ok := Close(KindLit(k));
      if ok {
        SetLine(Line().(pre := KindLit(k)));
      }
    }

    /** A comma ends an inline tuple and fills an empty place. */
    method OnComma() returns (ok: bool)
      requires Valid()
      modifies this`tree, buf
      ensures Grew(ok, AtComma(old(tree)))
    {
      ghost var f := tree;
      CommaAgrees(f, State());
      ok := true;
      if Line().lit == Jdr.INLINE {
        ok := CloseInlineTuple();
        if !ok {
          return;
        }
      }
      var pre := Line().pre;
      if pre == 0 || pre == Jdr.COMMA || pre == Jdr.SEMICOLON {
        AppendEmptyTuple();
      }
      SetLine(Line().(lastBreak := |buf.data|, pre := Jdr.COMMA));
      tree := AtComma(f).value;
    }

    /** A colon opens a tuple at the last boundary, behind the writer, or goes on in one. */
    method OnColon() returns (ok: bool)
      requires Valid()
      modifies this`tree, buf
      ensures Grew(ok, AtColon(old(tree)))
    {
      ghost var f := tree;
      ColonAgrees(f, State());
      ok := true;
      if Line().lit != Jdr.INLINE {
        var pos := Line().lastElement;
        if Line().lastBreak > pos {
          pos := Line().lastBreak;
        }
        ok := RetroOpenTuple(pos);
        if !ok {
          return;
        }
      } else if Line().pre == 0 || Line().pre == Jdr.COLON {
        AppendEmptyTuple();
      }
      SetLine(Line().(pre := Jdr.COLON));
      tree := AtColon(f).value;
    }

    /** A semicolon makes a tuple of all since the last break. */
    method OnSemicolon() returns (ok: bool)
      requires Valid()
      modifies this`tree, buf
      ensures Grew(ok, AtSemicolon(old(tree)))
    {
      ghost var f := tree;
      SemicolonAgrees(f, State());
      if Line().lit != Jdr.INLINE {
        ok := RetroOpenTuple(Line().lastBreak);
        if !ok {
          return;
        }
      }
      ok := CloseInlineTuple();
      if ok {
        tree := AtSemicolon(f).value;
      }
    }

    /** The end of the text ends an inline tuple. */
    method OnRoot() returns (ok: bool)
      requires Valid()
      modifies this`tree, buf
      ensures Grew(ok, AtRoot(old(tree)))
    {
      ghost var f := tree;
      StepAgrees(Jdr.Root, f, State());
      ok := true;
      if Line().lit == Jdr.INLINE {
        ok := CloseInlineTuple();
      }
      if ok {
        tree := AtRoot(f).value;
      }
    }

    method On(tok: Jdr.Token) returns (ok: bool)
      requires Valid()
      modifies this`tree, buf
      ensures Grew(ok, TreeStep(tok, old(tree)))
    {
      match tok
      case Scalar(x, st) => ok := OnFIRST(x, st);
      case Open(k, st) => ok := OnOpenPLEX(k, st);
      case Close(k) => ok := OnClosePLEX(k);
      case Comma => ok := OnComma();
      case Colon => ok := OnColon();
      case Semicolon => ok := OnSemicolon();
      case Root => ok := OnRoot();
    }
  }

  /** What the parser on trees makes of a text: the children of the root. */
  function ParsedDoc(toks: seq<Jdr.Token>): Result<Doc> {
    match Run(TreeStep, toks + [Jdr.Root], SPROUT)
    case Ok(f) => if f.Push? && f.below.Bottom? && f.top.lit == Jdr.ROOT then Ok(f.top.kids) else Refused
    case Refused => Refused
  }

  /**
   The parser over all tokens of a text. It accepts exactly the texts whose brackets match and whose
   ids can be read; what it writes is the encoding of the document the parser on trees makes; and
   of the printed form of a document that is the encoding of the document itself.
   */
  method ParseJDR(toks: seq<Jdr.Token>) returns (ok: bool, rdx: bytes)
    ensures ok <==> AllReadable(toks) && Run(Nest, toks, []) == Ok([])
    ensures match ParsedDoc(toks)
            case Ok(d) => ok && rdx == EncodeDoc(d)
            case Refused => !ok
    ensures forall d | toks == PrintedDoc(d) && SpellableDoc(d) :: ok && rdx == EncodeDoc(d)
  {
    var state := new JDRState();
    var all := toks + [Jdr.Root];
    var i := 0;
    rdx := [];
    ParseIsTree(toks);
    ParseAcceptsIff(toks);
    forall d | toks == PrintedDoc(d) && SpellableDoc(d) ensures Jdr.Parse(toks) == Ok(EncodeDoc(d)) {
      PrintedParsesBack(d);
    }
    while i < |all|
      invariant 0 <= i <= |all| && state.Valid()
      invariant Run(TreeStep, all, SPROUT) == Run(TreeStep, all[i..], state.tree)
    {
      ok := state.On(all[i]);
      assert all[i..][1..] == all[i + 1..];
      if !ok {
        return;
      }
      i := i + 1;
    }
    ok := |state.buf.stack| == 1 && state.buf.stack[0].lit == Jdr.ROOT;
    rdx := state.buf.data;
    RootIsFirst(state.tree, state.buf.stack);
    if ok {
      RootLineIsADocument(state.tree);
    }
  }

  /** The byte parser as a function writes the same. */
  lemma ParseIsTree(toks: seq<Jdr.Token>)
    ensures match ParsedDoc(toks)
            case Ok(d) => Jdr.Parse(toks) == Ok(EncodeDoc(d))
            case Refused => Jdr.Parse(toks) == Refused
  {
    var all := toks + [Jdr.Root];
    StartShows();
    RunsAgree(all, SPROUT, Jdr.START);
    if Run(TreeStep, all, SPROUT).Ok? {
      var f, s := Run(TreeStep, all, SPROUT).value, Run(Jdr.Step, all, Jdr.START).value;
      RootIsFirst(f, s.stack);
      if f.below.Bottom? {
        RootLineIsADocument(f);
      }
    }
  }

  /** Printing a buffer and parsing what was printed gives the buffer back, exactly if all its ids fit sixty bits. */
  method PrintAndParse(data: bytes, ghost d: Doc) returns (ok: bool, rdx: bytes)
    requires data == EncodeDoc(d) && |data| < MAX_ITER_LEN
    ensures ok <==> SpellableDoc(d)
    ensures ok ==> rdx == data
  {
    var toks := WriteAllJDR(data, d);
    PrintedDocIsReadableIff(d);
    PrintedParsesBackIff(d);
    ParseAcceptsIff(toks);
    ok, rdx := ParseJDR(toks);
  }
}
