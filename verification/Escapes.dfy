/** String escapes of JDR. */
module Escapes {
  import opened Ids
  import opened Seqs

  const BACKSLASH: byte := 92
  const QUOTE: byte := 34
  const TAB: byte := 9
  const CR: byte := 13
  const LF: byte := 10
  const BS: byte := 8
  const FF: byte := 12

  /** One byte, escaped if it has to be. */
  function EscapeOne(a: byte): bytes {
    if a == TAB then [BACKSLASH, 't' as int]
    else if a == CR then [BACKSLASH, 'r' as int]
    else if a == LF then [BACKSLASH, 'n' as int]
    else if a == BS then [BACKSLASH, 'b' as int]
    else if a == FF then [BACKSLASH, 'f' as int]
    else if a == BACKSLASH then [BACKSLASH, BACKSLASH]
    else if a == QUOTE then [BACKSLASH, QUOTE]
    else [a]
  }

  function Escaped(val: bytes): bytes {
    if val == [] then [] else EscapeOne(val[0]) + Escaped(val[1..])
  }

  method AppendEscaped(jdr: bytes, val: bytes) returns (r: bytes)
    ensures r == jdr + Escaped(val)
  {
    r := jdr;
    var i := 0;
    while i < |val|
      invariant 0 <= i <= |val| && r + Escaped(val[i..]) == jdr + Escaped(val)
    {
      DropSplits(val, i);
      Associates(r, EscapeOne(val[i]), Escaped(val[i + 1..]));
      r := r + EscapeOne(val[i]);
      i := i + 1;
    }
  }

  function UnescapeOne(c: byte): byte {
    if c == 't' as int then TAB
    else if c == 'r' as int then CR
    else if c == 'n' as int then LF
    else if c == 'b' as int then BS
    else if c == 'f' as int then FF
    else c
  }

  /** A trailing backslash stands for itself. */
  function Unescaped(jdr: bytes): bytes {
    if jdr == [] then []
    else if jdr[0] != BACKSLASH || |jdr| == 1 then [jdr[0]] + Unescaped(jdr[1..])
    else [UnescapeOne(jdr[1])] + Unescaped(jdr[2..])
  }

  method AppendUnescaped(rdx: bytes, jdr: bytes) returns (r: bytes)
    ensures r == rdx + Unescaped(jdr)
  {
    r := rdx;
    var todo := jdr;
    while |todo| > 0
      invariant r + Unescaped(todo) == rdx + Unescaped(jdr)
      decreases |todo|
    {
      var c := todo[0];
      if c != BACKSLASH || |todo| == 1 {
        Associates(r, [c], Unescaped(todo[1..]));
        r := r + [c];
        todo := todo[1..];
      } else {
        Associates(r, [UnescapeOne(todo[1])], Unescaped(todo[2..]));
        r := r + [UnescapeOne(todo[1])];
        todo := todo[2..];
      }
    }
  }

  /** A backslash and a letter read as what they stand for, any other byte as itself. */
  lemma EscapesRead(c: byte, rest: bytes)
    ensures Unescaped(['\\' as int, c] + rest)
         == [match c as char
             case 't' => '\t' as int
             case 'r' => '\r' as int
             case 'n' => '\n' as int
             case 'b' => 8
             case 'f' => 12
             case _ => c] + Unescaped(rest)
    ensures c != '\\' as int ==> Unescaped([c] + rest) == [c] + Unescaped(rest)
    ensures Unescaped(['\\' as int]) == ['\\' as int]
  {
    var esc: bytes := ['\\' as int, c] + rest;
    assert esc[2..] == rest && ([c] + rest)[1..] == rest;
    var lone: bytes := ['\\' as int];
    assert lone[1..] == [];
  }

  /** Five bytes, the backslash and the quote are written with a backslash, all others as they are. */
  lemma EscapesWrite(c: byte, rest: bytes)
    ensures Escaped([c] + rest)
         == (match c
             case 9 => ['\\' as int, 't' as int]
             case 13 => ['\\' as int, 'r' as int]
             case 10 => ['\\' as int, 'n' as int]
             case 8 => ['\\' as int, 'b' as int]
             case 12 => ['\\' as int, 'f' as int]
             case 92 => ['\\' as int, '\\' as int]
             case 34 => ['\\' as int, '"' as int]
             case _ => [c]) + Escaped(rest)
  {
    assert ([c] + rest)[1..] == rest;
  }

  /** No tab, line end, backspace or form feed is written raw. */
  lemma {:induction false} NothingRaw(val: bytes, c: byte)
    requires c in Escaped(val)
    ensures c !in {8, 9, 10, 12, 13}
  {
    if c in Escaped(val[1..]) {
      NothingRaw(val[1..], c);
    }
  }

  /** What may stand between two quotes: anything but quote, backslash and line ends, or a known escape. */
  predicate IsQuotable(s: bytes) {
    s == [] ||
    if s[0] == BACKSLASH then
      |s| > 1 && (s[1] == BACKSLASH || s[1] == QUOTE || s[1] == '/' as int || UnescapeOne(s[1]) != s[1]) && IsQuotable(s[2..])
    else s[0] != QUOTE && s[0] != CR && s[0] != LF && IsQuotable(s[1..])
  }

  /** The two-byte escapes of the grammar, and the bytes that may stand for themselves. */
  lemma QuotableIff(c: byte)
    ensures IsQuotable(['\\' as int, c]) <==> (c as char) in "\"\\/bfnrt"
    ensures IsQuotable([c]) <==> (c as char) !in "\"\\\r\n"
  {
    assert ['\\' as int, c][2..] == [] && [c][1..] == [];
  }

  /** Escaping is undone by unescaping, and the lexer finds the closing quote where it stands. */
  lemma {:induction false} UnescapeUndoesEscape(val: bytes)
    ensures Unescaped(Escaped(val)) == val && IsQuotable(Escaped(val))
  {
    if val != [] {
      var e, rest := EscapeOne(val[0]), Escaped(val[1..]);
      UnescapeUndoesEscape(val[1..]);
      assert (e + rest)[|e|..] == rest;
      assert val == [val[0]] + val[1..];
    }
  }
}
