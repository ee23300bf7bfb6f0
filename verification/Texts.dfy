/** Which strings and terms the normalizer takes: UTF-8 by section 4 of RFC 3629, and letters of the id alphabet. */
module Texts {
  import opened Seqs
  import opened Ids
  import opened Elements
  import opened TextIds

  predicate IsTail(c: byte) { 0x80 <= c <= 0xBF }

  /** The length of the first character, or 0 if it is not well formed: overlong forms, surrogates and numbers from 0x110000 on are not. */
  function FirstLength(s: bytes): (n: nat)
    requires s != []
    ensures n <= |s|
  {
    var a := s[0];
    if a < 0x80 then 1
    else if |s| >= 2 && 0xC2 <= a <= 0xDF && IsTail(s[1]) then 2
    else if |s| >= 3 && 0xE0 <= a <= 0xEF && SecondFits(a, s[1]) && IsTail(s[2]) then 3
    else if |s| >= 4 && 0xF0 <= a <= 0xF4 && SecondFits(a, s[1]) && IsTail(s[2]) && IsTail(s[3]) then 4
    else 0
  }

  predicate SecondFits(a: byte, b: byte) {
    match a
    case 0xE0 => 0xA0 <= b <= 0xBF
    case 0xED => 0x80 <= b <= 0x9F
    case 0xF0 => 0x90 <= b <= 0xBF
    case 0xF4 => 0x80 <= b <= 0x8F
    case _ => IsTail(b)
  }

  predicate IsUtf8(s: bytes)
    decreases |s|
  {
    s == [] || (FirstLength(s) > 0 && IsUtf8(s[FirstLength(s)..]))
  }

  predicate IsClean(v: Prim) {
    match v
    case Str(s) => IsUtf8(s)
    case Term(s) => forall c | c in s :: IsLetter(c)
    case _ => true
  }

  const CLEAN: Prim -> bool := (v: Prim) => IsClean(v)

  // ---- well formed means: a sequence of encoded characters

  /** A Unicode scalar value. */
  predicate IsScalar(c: nat) { c < 0xD800 || 0xE000 <= c < 0x110000 }

  function Tail(c: nat): byte { 0x80 + c % 64 }

  /** The encoding of one character. */
  function EncodeScalar(c: nat): (s: bytes)
    requires IsScalar(c)
    ensures s != []
  {
    if c < 0x80 then [c]
    else if c < 0x800 then [0xC0 + c / 64, Tail(c)]
    else if c < 0x10000 then [0xE0 + c / 64 / 64, Tail(c / 64), Tail(c)]
    else [0xF0 + c / 64 / 64 / 64, Tail(c / 64 / 64), Tail(c / 64), Tail(c)]
  }

  function EncodeText(cs: seq<nat>): bytes
    requires forall c | c in cs :: IsScalar(c)
  {
    if cs == [] then [] else EncodeScalar(cs[0]) + EncodeText(cs[1..])
  }

  lemma FirstOfEncoded(c: nat, rest: bytes)
    requires IsScalar(c)
    ensures FirstLength(EncodeScalar(c) + rest) == |EncodeScalar(c)|
  {
    var s := EncodeScalar(c) + rest;
    assert forall i | 0 <= i < |EncodeScalar(c)| :: s[i] == EncodeScalar(c)[i];
  }

  /** Six more bits. */
  function Shifted(h: nat, t: byte): nat
    requires IsTail(t)
  {
    h * 64 + (t - 0x80)
  }

  lemma ShiftedBack(h: nat, t: byte)
    requires IsTail(t)
    ensures Shifted(h, t) / 64 == h && Tail(Shifted(h, t)) == t
  {
  }

  lemma TwoBytes(s: bytes) returns (c: nat)
    requires s != [] && FirstLength(s) == 2
    ensures IsScalar(c) && EncodeScalar(c) == s[..2]
  {
    c := Shifted(s[0] - 0xC0, s[1]);
    ShiftedBack(s[0] - 0xC0, s[1]);
  }

  lemma ThreeBytes(s: bytes) returns (c: nat)
    requires s != [] && FirstLength(s) == 3
    ensures IsScalar(c) && EncodeScalar(c) == s[..3]
  {
    var h := Shifted(s[0] - 0xE0, s[1]);
    c := Shifted(h, s[2]);
    ShiftedBack(s[0] - 0xE0, s[1]);
    ShiftedBack(h, s[2]);
  }

  lemma LongScalar(f: nat, t: byte, u: byte, v: byte)
    requires IsTail(t) && IsTail(u) && IsTail(v)
    ensures var g := Shifted(f, t);
            var h := Shifted(g, u);
            var c := Shifted(h, v);
            && c / 64 == h && c / 64 / 64 == g && c / 64 / 64 / 64 == f
            && Tail(c) == v && Tail(c / 64) == u && Tail(c / 64 / 64) == t
  {
    var g := Shifted(f, t);
    var h := Shifted(g, u);
    ShiftedBack(f, t);
    ShiftedBack(g, u);
    ShiftedBack(h, v);
  }

  lemma LongRange(f: nat, t: byte, u: byte, v: byte)
    requires f <= 4 && IsTail(t) && IsTail(u) && IsTail(v) && (f == 0 ==> t >= 0x90) && (f == 4 ==> t < 0x90)
    ensures 0x10000 <= Shifted(Shifted(Shifted(f, t), u), v) < 0x110000
  {
  }

  lemma LongEncoded(f: nat, t: byte, u: byte, v: byte) returns (c: nat)
    requires f <= 4 && IsTail(t) && IsTail(u) && IsTail(v) && (f == 0 ==> t >= 0x90) && (f == 4 ==> t < 0x90)
    ensures IsScalar(c) && EncodeScalar(c) == [0xF0 + f, t, u, v]
  {
    c := Shifted(Shifted(Shifted(f, t), u), v);
    LongRange(f, t, u, v);
    LongForm(c);
    LongScalar(f, t, u, v);
  }

  lemma LongForm(c: nat)
    requires 0x10000 <= c < 0x110000
    ensures EncodeScalar(c) == [0xF0 + c / 64 / 64 / 64, Tail(c / 64 / 64), Tail(c / 64), Tail(c)]
  {
  }

  lemma FourBytes(s: bytes) returns (c: nat)
    requires s != [] && FirstLength(s) == 4
    ensures IsScalar(c) && EncodeScalar(c) == s[..4]
  {
    c := LongEncoded(s[0] - 0xF0, s[1], s[2], s[3]);
  }

  /** A well-formed first character encodes a scalar value. */
  lemma FirstIsEncoded(s: bytes) returns (c: nat)
    requires s != [] && FirstLength(s) > 0
    ensures IsScalar(c) && EncodeScalar(c) == s[..FirstLength(s)]
  {
    match FirstLength(s)
    case 1 => c := s[0];
    case 2 => c := TwoBytes(s);
    case 3 => c := ThreeBytes(s);
    case _ => c := FourBytes(s);
  }

  lemma {:induction false} EncodedIsUtf8(cs: seq<nat>)
    requires forall c | c in cs :: IsScalar(c)
    ensures IsUtf8(EncodeText(cs))
    decreases |cs|
  {
    if cs != [] {
      FirstOfEncoded(cs[0], EncodeText(cs[1..]));
      EncodedIsUtf8(cs[1..]);
    }
  }

  lemma {:induction false} Utf8IsEncoded(s: bytes) returns (cs: seq<nat>)
    requires IsUtf8(s)
    ensures (forall c | c in cs :: IsScalar(c)) && EncodeText(cs) == s
    decreases |s|
  {
    cs := [];
    if s != [] {
      var n := FirstLength(s);
      var c := FirstIsEncoded(s);
      var rest := Utf8IsEncoded(s[n..]);
      SplitAt(s, n);
      cs := [c] + rest;
      assert cs[1..] == rest;
    }
  }

  ghost predicate IsText(s: bytes) { exists cs: seq<nat> :: (forall c | c in cs :: IsScalar(c)) && EncodeText(cs) == s }

  /** A string is taken exactly when it encodes a sequence of characters. */
  lemma Utf8Iff(s: bytes)
    ensures IsUtf8(s) <==> IsText(s)
  {
    if IsUtf8(s) {
      var cs := Utf8IsEncoded(s);
    }
    if IsText(s) {
      var cs: seq<nat> :| (forall c | c in cs :: IsScalar(c)) && EncodeText(cs) == s;
      EncodedIsUtf8(cs);
    }
  }
}
