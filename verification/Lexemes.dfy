/**
 The token classes of the JDR grammar that an id can fall into, and which of the texts the printer
 writes for a reference the lexer takes for one.
 */
module Lexemes {
  import opened Ids
  import opened Seqs
  import opened TextIds

  const DOT: byte := '.' as int
  const PLUS: byte := '+' as int
  const ZERO: byte := '0' as int

  predicate IsDecimalDigit(c: byte) { '0' as int <= c <= '9' as int }

  predicate IsDecimal(s: bytes) { s != [] && forall c | c in s :: IsDecimalDigit(c) }

  predicate IsE(c: byte) { c == 'e' as int || c == 'E' as int }

  /** Digits without a leading zero, or zero alone. */
  predicate IsWhole(s: bytes) { s == [ZERO] || (IsDecimal(s) && s[0] != ZERO) }

  predicate IsInt(s: bytes) { IsWhole(s) || (s != [] && s[0] == DASH && IsWhole(s[1..])) }

  predicate IsFraction(s: bytes) { s == [] || (s[0] == DOT && IsDecimal(s[1..])) }

  predicate IsExponent(s: bytes) {
    s == [] || (IsE(s[0]) && (IsDecimal(s[1..]) || (|s| > 1 && (s[1] == DASH || s[1] == PLUS) && IsDecimal(s[2..]))))
  }

  /** A whole part, a fraction and an exponent, the last two optional. */
  ghost predicate IsNumber(s: bytes) {
    exists i, j {:trigger s[i..j]} :: 0 <= i <= j <= |s| && IsWhole(s[..i]) && IsFraction(s[i..j]) && IsExponent(s[j..])
  }

  ghost predicate IsFloat(s: bytes) {
    !IsInt(s) && (IsNumber(s) || (s != [] && s[0] == DASH && IsNumber(s[1..])))
  }

  predicate IsLetters(s: bytes) { s != [] && forall c | c in s :: IsLetter(c) }

  ghost predicate IsTerm(s: bytes) { IsLetters(s) && !IsInt(s) && !IsFloat(s) }

  /** One run of letters, or two with a dash between. */
  ghost predicate IsId(s: bytes) {
    IsLetters(s) || exists k | 0 <= k < |s| :: s[k] == DASH && IsLetters(s[..k]) && IsLetters(s[k + 1..])
  }

  ghost predicate IsRef(s: bytes) { IsId(s) && !IsFloat(s) && !IsInt(s) && !IsTerm(s) }

  // ---- what a number looks like

  /** Digits without a needless zero, then a dot and digits or nothing, then an exponent or nothing. */
  lemma NumbersRead(a: bytes, b: bytes, c: bytes)
    requires IsWhole(a) && (b == [] || ((b[0] as char) == '.' && IsDecimal(b[1..])))
    requires c == [] || ((c[0] as char) in "eE" && (IsDecimal(c[1..]) || (|c| > 1 && (c[1] as char) in "+-" && IsDecimal(c[2..]))))
    ensures IsNumber(a + b + c)
  {
    var s, i, j := a + b + c, |a|, |a| + |b|;
    assert s[..i] == a && s[i..j] == b && s[j..] == c;
  }

  /** Nothing else is a number, and no other letters occur in one. */
  lemma NumberParts(s: bytes) returns (a: bytes, b: bytes, c: bytes)
    requires IsNumber(s)
    ensures s == a + b + c && IsWhole(a)
    ensures b == [] || ((b[0] as char) == '.' && IsDecimal(b[1..]))
    ensures c == [] || ((c[0] as char) in "eE" && (IsDecimal(c[1..]) || (|c| > 1 && (c[1] as char) in "+-" && IsDecimal(c[2..]))))
  {
    var i, j :| 0 <= i <= j <= |s| && IsWhole(s[..i]) && IsFraction(s[i..j]) && IsExponent(s[j..]);
    a, b, c := s[..i], s[i..j], s[j..];
  }

  // ---- two runs of letters

  /** The first run is a whole number and the letter `e`, the second is decimal. */
  predicate ReadsAsFloat(a: bytes, b: bytes) {
    a != [] && IsWhole(a[..|a| - 1]) && IsE(a[|a| - 1]) && IsDecimal(b)
  }

  lemma TheDash(a: bytes, b: bytes, i: nat)
    requires IsLetters(a) && IsLetters(b)
    ensures var s := a + [DASH] + b;
            i < |s| ==> (s[i] == DASH <==> i == |a|) && s[i] != DOT && s[i] != PLUS
  {
    var s := a + [DASH] + b;
    if i < |s| && i != |a| {
      assert s[i] == if i < |a| then a[i] else b[i - |a| - 1];
      assert s[i] in a || s[i] in b;
    }
  }

  lemma DecimalHasNoDash(s: bytes, i: nat)
    requires IsDecimal(s) && i < |s|
    ensures s[i] != DASH && s[i] != DOT && s[i] != PLUS
  {
    assert s[i] in s;
  }

  lemma WholeHasNoDash(s: bytes, i: nat)
    requires IsWhole(s) && i < |s|
    ensures s[i] != DASH && s[i] != DOT && s[i] != PLUS
  {
    if s != [ZERO] {
      DecimalHasNoDash(s, i);
    }
  }

  /** How two runs of letters with a dash between can split into the parts of a number. */
  lemma NumberSplits(a: bytes, b: bytes, i: nat, j: nat)
    requires IsLetters(a) && IsLetters(b)
    requires var s := a + [DASH] + b;
             i <= j <= |s| && IsWhole(s[..i]) && IsFraction(s[i..j]) && IsExponent(s[j..])
    ensures ReadsAsFloat(a, b)
  {
    var s := a + [DASH] + b;
    if i > |a| {
      WholeHasNoDash(s[..i], |a|);
    }
    if i < j {
      TheDash(a, b, i);
    }
    ExponentStartsBeforeTheDash(a, b, i);
    assert s[..i] == a[..|a| - 1] && s[i] == a[|a| - 1] && s[i + 2..] == b;
  }

  lemma ExponentStartsBeforeTheDash(a: bytes, b: bytes, i: nat)
    requires IsLetters(a) && IsLetters(b) && i <= |a| && IsExponent((a + [DASH] + b)[i..])
    ensures i == |a| - 1 && var s := a + [DASH] + b; IsE(s[i]) && IsDecimal(s[i + 2..])
  {
    var s := a + [DASH] + b;
    var e := s[i..];
    assert e != [] && e[0] == s[i];
    TheDash(a, b, i);
    assert i < |a|;
    assert e[1..] == s[i + 1..] && e[|a| - i] == DASH;
    if IsDecimal(e[1..]) {
      DecimalHasNoDash(e[1..], |a| - i - 1);
    }
    TheDash(a, b, i + 1);
    assert e[1] == s[i + 1] && e[2..] == s[i + 2..];
  }

  /** With a dash between them, two runs of letters are a reference unless they read as a float. */
  lemma PairIsRefIff(a: bytes, b: bytes)
    requires IsLetters(a) && IsLetters(b)
    ensures var s := a + [DASH] + b;
            !IsInt(s) && !IsTerm(s) && IsId(s)
            && (IsFloat(s) <==> ReadsAsFloat(a, b)) && (IsRef(s) <==> !ReadsAsFloat(a, b))
  {
    var s := a + [DASH] + b;
    var n := |a|;
    assert s[n] == DASH && s[..n] == a && s[n + 1..] == b;
    TheDash(a, b, 0);
    if IsWhole(s) {
      WholeHasNoDash(s, n);
    }
    assert s[n] in s;
    if IsNumber(s) {
      var i, j :| 0 <= i <= j <= |s| && IsWhole(s[..i]) && IsFraction(s[i..j]) && IsExponent(s[j..]);
      NumberSplits(a, b, i, j);
    }
    if ReadsAsFloat(a, b) {
      FloatSplits(a, b);
    }
  }

  lemma FloatSplits(a: bytes, b: bytes)
    requires ReadsAsFloat(a, b)
    ensures IsNumber(a + [DASH] + b)
  {
    var s := a + [DASH] + b;
    var i := |a| - 1;
    assert s[..i] == a[..i] && s[i..i] == [] && s[i..][0] == a[i] && s[i..][1] == DASH && s[i..][2..] == b;
  }

  // ---- the texts of numbers

  /** All digits to the base 64 are below ten. */
  predicate AllDecimal(u: nat) { u % 64 < 10 && (u >= 64 ==> AllDecimal(u / 64)) }

  lemma LetterIsDecimalIff(n: nat)
    requires n < 64
    ensures IsLetter(Letter(n)) && (IsDecimalDigit(Letter(n)) <==> n < 10)
    ensures (Letter(n) == ZERO <==> n == 0) && (IsE(Letter(n)) <==> n == 14 || n == 41)
  {
  }

  lemma {:induction false} TextIsDecimalIff(u: nat)
    ensures IsLetters(Text(u)) && (IsDecimal(Text(u)) <==> AllDecimal(u))
    ensures u > 0 ==> Text(u)[0] != ZERO
    ensures Text(0) == [ZERO]
    decreases u
  {
    DigitsEnd(u);
    DigitsEnd(0);
    LetterIsDecimalIff(u % 64);
    LetterIsDecimalIff(0);
    if u / 64 > 0 {
      TextIsDecimalIff(u / 64);
    }
  }

  /** A source that starts like a float: decimal digits and an `e`. */
  predicate IsFloatLike(src: u64) { (src % 64 == 14 || src % 64 == 41) && src >= 64 && AllDecimal(src / 64) }

  lemma PrintedPairReads(id: ID)
    requires id.src != 0
    ensures ReadsAsFloat(Text(id.src), Text(id.time)) <==> IsFloatLike(id.src) && AllDecimal(id.time)
  {
    LastLetter(id.src);
    LetterIsDecimalIff(id.src % 64);
    TextIsDecimalIff(id.time);
    if id.src >= 64 {
      TextIsDecimalIff(id.src / 64);
      assert id.src / 64 > 0;
    }
  }

  /** The last letter of a text, and what stands in front of it. */
  lemma LastLetter(u: nat)
    ensures var a := Text(u);
            a != [] && a[|a| - 1] == Letter(u % 64) && a[..|a| - 1] == if u < 64 then [] else Text(u / 64)
  {
    DigitsEnd(u);
  }

  /** The text printed for a reference lexes as one exactly if it has a source, and that and the time do not read as a float. */
  lemma ReferenceLexesIff(id: ID)
    ensures IsRef(RonString(id)) <==> id.src != 0 && !(IsFloatLike(id.src) && AllDecimal(id.time))
  {
    TextIsDecimalIff(id.src);
    TextIsDecimalIff(id.time);
    if id.src != 0 {
      PairIsRefIff(Text(id.src), Text(id.time));
      PrintedPairReads(id);
    }
  }

  /** Otherwise it lexes as an integer or a term, or as a float. */
  lemma OtherwiseItIsANumberOrTerm(id: ID)
    ensures id.src == 0 ==> IsInt(RonString(id)) || IsFloat(RonString(id)) || IsTerm(RonString(id))
    ensures id.src == 0 ==> (IsInt(RonString(id)) <==> AllDecimal(id.time))
    ensures id.src != 0 && IsFloatLike(id.src) && AllDecimal(id.time) ==> IsFloat(RonString(id))
  {
    TextIsDecimalIff(id.time);
    TextIsDecimalIff(id.src);
    if id.src == 0 {
      assert Text(id.time)[0] in Text(id.time);
    } else {
      PairIsRefIff(Text(id.src), Text(id.time));
      PrintedPairReads(id);
    }
  }

  /** The formal string of any id lexes as a reference: that is what its guard zeros are for. */
  lemma FormalStringIsRef(id: ID)
    ensures IsRef(FormalString(id))
  {
    var g, a := Guard(id.src), Spelled(Guard(id.src)) + Text(id.src);
    TextIsDecimalIff(id.src);
    TextIsDecimalIff(id.time);
    GuardIsZeros(id.src);
    PairIsRefIff(a, Text(id.time));
    DigitsEnd(id.src);
    LetterIsDecimalIff(id.src % 64);
    assert a[|a| - 1] == Letter(id.src % 64);
    if g != [] {
      assert a[..|a| - 1][0] == ZERO && |a[..|a| - 1]| > 1;
    }
  }

  lemma GuardIsZeros(src: u64)
    ensures var a := Spelled(Guard(src)) + Text(src);
            && IsLetters(a) && (Guard(src) != [] ==> a[0] == ZERO)
            && (Guard(src) != [] ==> |a| > 2)
  {
    var zeros, text := Spelled(Guard(src)), Text(src);
    TextIsDecimalIff(src);
    ZerosSpell();
    DigitsEnd(src);
    if src >= 64 {
      TextIsDecimalIff(src / 64);
    }
    forall c | c in zeros + text ensures IsLetter(c) {
      assert c in zeros || c in text;
    }
  }

  lemma OneDigit(u: nat)
    requires u < 64
    ensures Text(u) == [Letter(u)]
  {
    DigitsEnd(u);
  }

  /** A reference without a source may print as a term. */
  lemma SourcelessReferenceIsLost()
    ensures RonString(ID(0, 10)) == ['A' as int] && IsTerm(RonString(ID(0, 10))) && !IsRef(RonString(ID(0, 10)))
  {
    OneDigit(10);
    ReferenceLexesIff(ID(0, 10));
    OtherwiseItIsANumberOrTerm(ID(0, 10));
    NoFloatInOneLetter('A' as int);
  }

  /** And one whose source is spelled `1e` as a float. */
  lemma FloatLikeReferenceIsLost()
    ensures RonString(ID(105, 5)) == ['1' as int, 'e' as int] + [DASH] + ['5' as int]
    ensures IsFloat(RonString(ID(105, 5))) && !IsRef(RonString(ID(105, 5)))
  {
    TextOf105();
    OneDigit(5);
    FloatLikeIsLost(ID(105, 5));
  }

  lemma TextOf105()
    ensures Text(105) == ['1' as int, 'e' as int]
  {
    OneDigit(1);
    DigitsEnd(105);
    assert 105 / 64 == 1 && 105 % 64 == 41;
  }

  lemma FloatLikeIsLost(id: ID)
    requires id.src != 0 && IsFloatLike(id.src) && AllDecimal(id.time)
    ensures IsFloat(RonString(id)) && !IsRef(RonString(id))
  {
    ReferenceLexesIff(id);
    OtherwiseItIsANumberOrTerm(id);
  }

  lemma NoFloatInOneLetter(c: byte)
    requires !IsDecimalDigit(c) && c != DASH
    ensures !IsFloat([c])
  {
    forall i | 0 <= i <= 1 ensures !IsWhole([c][..i]) {
      assert i == 1 ==> c in [c][..i];
    }
  }
}
