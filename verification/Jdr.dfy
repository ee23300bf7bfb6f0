/** The JDR parser: callbacks on a buffer that is written front to back and spliced when a tuple shows late. */
module Jdr {
  import opened Ids
  import opened Elements
  import opened Zip
  import opened Tlv
  import opened Marks
  import opened Wire
  import TextIds

  /** The stamp behind a value or an opening bracket, as text. */
  datatype Stamp = NoStamp | StampText(txt: bytes)

  /** A value as the lexer reports it; only a reference is read by the parser itself. */
  datatype Lexeme = Literal(val: Prim) | RefText(txt: bytes)

  /** What the lexer reports. */
  datatype Token =
    | Scalar(lexeme: Lexeme, stamp: Stamp)
    | Open(kind: Kind, stamp: Stamp)
    | Close(kind: Kind)
    | Comma
    | Colon
    | Semicolon
    | Root

  function StampOf(st: Stamp): Option<ID> {
    match st
    case NoStamp => Some(ID0)
    case StampText(txt) => TextIds.NewID(txt)
  }

  function ValueOf(x: Lexeme): Option<Prim> {
    match x
    case Literal(val) => Some(val)
    case RefText(txt) => (match TextIds.NewID(txt) case Some(id) => Some(Reference(id)) case None => None)
  }

  function LexemeLit(x: Lexeme): byte { if x.Literal? then PrimLit(x.val) else 'R' as int }

  /** Every id in the token is spelled as `NewID` wants it. */
  predicate Readable(tok: Token) {
    match tok
    case Scalar(x, st) => ValueOf(x).Some? && StampOf(st).Some?
    case Open(_, st) => StampOf(st).Some?
    case _ => true
  }

  const ROOT: byte := ' ' as int
  const INLINE: byte := 'p' as int
  const COMMA: byte := ',' as int
  const COLON: byte := ':' as int
  const SEMICOLON: byte := ';' as int
  const ONE: byte := '1' as int

  const EMPTY_TUPLE: bytes := [INLINE, 1, 0]

  function Top(s: Writer): Mark
    requires s.stack != []
  {
    s.stack[|s.stack| - 1]
  }

  function WithTop(s: Writer, m: Mark): Writer
    requires s.stack != []
  {
    s.(stack := s.stack[..|s.stack| - 1] + [m])
  }

  function AppendEmptyTuple(s: Writer): Writer
    requires s.stack != []
  {
    WithTop(s.(data := s.data + EMPTY_TUPLE), Top(s).(pre := INLINE))
  }

  /** Closes the record on top of the stack. */
  function Pop(s: Writer, lit: byte): Result<Writer>
    requires s.stack != []
  {
    match Closed(s.data, Top(s), lit)
    case Ok(d) => if |s.stack| > 1 then Ok(Writer(d, s.stack[..|s.stack| - 1])) else Refused
    case Refused => Refused
  }

  function CloseInlineTuple(s: Writer): Result<Writer>
    requires s.stack != []
  {
    match Pop(if Top(s).pre == COLON then AppendEmptyTuple(s) else s, KindLit(P))
    case Ok(t) => Ok(WithTop(t, Top(t).(lastBreak := |t.data|, pre := INLINE)))
    case Refused => Refused
  }

  /** A value or a bracket that does not follow a colon ends an inline tuple. */
  function Settle(s: Writer): Result<Writer>
    requires s.stack != []
  {
    if Top(s).lit == INLINE && Top(s).pre != COLON then CloseInlineTuple(s) else Ok(s)
  }

  function RetroOpenTuple(s: Writer, pos: nat): Result<Writer> {
    if s.stack == [] || |s.data| < pos then Refused
    else Ok(Writer(s.data[..pos] + [INLINE, 0, 0] + s.data[pos..], s.stack + [Mark(pos, 0, 0, INLINE, 0)]))
  }

  /** Opens a record and writes its id. */
  function OpenStamped(s: Writer, lit: byte, id: ID): Writer
    requires s.stack != [] && IsUpper(lit)
  {
    var zip := ZipID(id);
    var data := s.data + OpenHeader(lit, false) + [|zip| as byte] + zip;
    var outer := s.stack[..|s.stack| - 1] + [Top(s).(lastElement := |s.data|)];
    Writer(data, outer + [OpenMark(s.data, lit, false).(lastElement := |data|, lastBreak := |data|)])
  }

  function OnScalar(s: Writer, id: ID, val: Prim): Result<Writer>
    requires s.stack != []
  {
    match Settle(s)
    case Refused => Refused
    case Ok(t) =>
      var o := OpenStamped(t, PrimLit(val), id);
      match Pop(o.(data := o.data + PrimBytes(val)), PrimLit(val))
      case Ok(c) => Ok(WithTop(c, Top(c).(pre := ONE)))
      case Refused => Refused
  }

  function OnOpen(s: Writer, k: Kind, id: ID): Result<Writer>
    requires s.stack != []
  {
    match Settle(s)
    case Refused => Refused
    case Ok(t) => Ok(OpenStamped(t, KindLit(k), id))
  }

  function ClosePlex(s: Writer, k: Kind): Result<Writer>
    requires s.stack != []
  {
    if Top(s).lit != KindLit(k) then Refused
    else
      match Pop(s, KindLit(k))
      case Ok(c) => Ok(WithTop(c, Top(c).(pre := KindLit(k))))
      case Refused => Refused
  }

  function OnClose(s: Writer, k: Kind): Result<Writer>
    requires s.stack != []
  {
    match (if Top(s).lit == INLINE then CloseInlineTuple(s)
           else if Top(s).pre == COMMA then Ok(AppendEmptyTuple(s)) else Ok(s))
    case Refused => Refused
    case Ok(t) => ClosePlex(t, k)
  }

  function OnComma(s: Writer): Result<Writer>
    requires s.stack != []
  {
    match (if Top(s).lit == INLINE then CloseInlineTuple(s) else Ok(s))
    case Refused => Refused
    case Ok(t) =>
      var pre := Top(t).pre;
      var u := if pre == 0 || pre == COMMA || pre == SEMICOLON then AppendEmptyTuple(t) else t;
      Ok(WithTop(u, Top(u).(lastBreak := |u.data|, pre := COMMA)))
  }

  function OnColon(s: Writer): Result<Writer>
    requires s.stack != []
  {
    var top := Top(s);
    match (if top.lit != INLINE then
             RetroOpenTuple(s, if top.lastBreak > top.lastElement then top.lastBreak else top.lastElement)
           else if top.pre == 0 || top.pre == COLON then Ok(AppendEmptyTuple(s)) else Ok(s))
    case Refused => Refused
    case Ok(t) => Ok(WithTop(t, Top(t).(pre := COLON)))
  }

  function OnSemicolon(s: Writer): Result<Writer>
    requires s.stack != []
  {
    match (if Top(s).lit != INLINE then RetroOpenTuple(s, Top(s).lastBreak) else Ok(s))
    case Refused => Refused
    case Ok(t) => CloseInlineTuple(t)
  }

  function OnRoot(s: Writer): Result<Writer>
    requires s.stack != []
  {
    if Top(s).lit == INLINE then CloseInlineTuple(s) else Ok(s)
  }

  function Step(tok: Token, s: Writer): Result<Writer> {
    if s.stack == [] then Refused
    else
      match tok
      case Scalar(x, st) =>
        (match (StampOf(st), ValueOf(x))
         case (Some(id), Some(val)) => OnScalar(s, id, val)
         case _ => Refused)
      case Open(k, st) => (match StampOf(st) case Some(id) => OnOpen(s, k, id) case None => Refused)
      case Close(k) => OnClose(s, k)
      case Comma => OnComma(s)
      case Colon => OnColon(s)
      case Semicolon => OnSemicolon(s)
      case Root => OnRoot(s)
  }

  const START: Writer := Writer([], [Mark(0, 0, 0, ROOT, 0)])

  /** A whole parse: all tokens, then the end; the stack must be back at the root. */
  function Parse(toks: seq<Token>): Result<bytes> {
    match Run(Step, toks + [Root], START)
    case Ok(s) => if |s.stack| == 1 && s.stack[0].lit == ROOT then Ok(s.data) else Refused
    case Refused => Refused
  }
}
