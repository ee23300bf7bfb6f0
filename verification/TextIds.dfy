/** Ids as text: base-64 numbers, `src-time`, and the two forms that read back. */
module TextIds {
  import opened Digits
  import opened Ids
  import opened Seqs
  import opened Ron
  import opened Wire
  import opened Bits

  const DASH: byte := '-' as int
  const MAX_DIGITS := 11

  /** The 64 letters, in the order of their codes. */
  function Letter(n: nat): byte
    requires n < 64
  {
    if n < 10 then '0' as int + n
    else if n < 36 then 'A' as int + n - 10
    else if n == 36 then '_' as int
    else if n < 63 then 'a' as int + n - 37
    else '~' as int
  }

  predicate IsLetter(c: byte) {
    || '0' as int <= c <= '9' as int || 'A' as int <= c <= 'Z' as int || c == '_' as int
    || 'a' as int <= c <= 'z' as int || c == '~' as int
  }

  function LetterValue(c: byte): (n: nat)
    requires IsLetter(c)
    ensures n < 64
  {
    if c <= '9' as int then c - '0' as int
    else if c <= 'Z' as int then c - 'A' as int + 10
    else if c == '_' as int then 36
    else if c <= 'z' as int then c - 'a' as int + 37
    else 63
  }

  lemma LettersReadBack(n: nat)
    requires n < 64
    ensures IsLetter(Letter(n)) && LetterValue(Letter(n)) == n && Letter(n) != DASH
  {
  }

  const DIGITS: string := "0123456789"
  const CAPITALS: string := "ABCDEFGHIJKLMNOPQRSTUVWXYZ"
  const SMALL: string := "abcdefghijklmnopqrstuvwxyz"

  lemma LettersRun(i: nat)
    ensures i < 10 ==> |DIGITS| == 10 && DIGITS[i] as int == '0' as int + i
    ensures i < 26 ==> |CAPITALS| == 26 && CAPITALS[i] as int == 'A' as int + i
    ensures i < 26 ==> |SMALL| == 26 && SMALL[i] as int == 'a' as int + i
  {
    assert i < 26 ==> i in {0, 1, 2, 3, 4, 5, 6, 7, 8, 9, 10, 11, 12, 13, 14, 15, 16, 17, 18, 19, 20, 21, 22, 23, 24, 25};
  }

  function Alphabet(): (r: string)
    ensures |r| == 64
    ensures forall i | 0 <= i < 10 :: r[i] == DIGITS[i]
    ensures forall i | 0 <= i < 26 :: r[10 + i] == CAPITALS[i] && r[37 + i] == SMALL[i]
    ensures r[36] == '_' && r[63] == '~'
  {
    DIGITS + CAPITALS + "_" + SMALL + "~"
  }

  /** Codes are positions in the alphabet. */
  lemma LettersAreTheAlphabet(n: nat)
    requires n < 64
    ensures Letter(n) == Alphabet()[n] as int
  {
    var i := if n < 10 then n else if n < 36 then n - 10 else if 37 <= n < 63 then n - 37 else 0;
    LettersRun(i);
    assert Alphabet()[10 + i] == CAPITALS[i] && Alphabet()[37 + i] == SMALL[i];
  }

  // ---- numbers

  function Spelled(ds: seq<nat>): (r: bytes)
    requires AreDigits(ds)
    ensures |r| == |ds|
  {
    if ds == [] then [] else Spelled(ds[..|ds| - 1]) + [Letter(ds[|ds| - 1])]
  }

  /** The digits of a number, at least one. */
  function DigitsOf(u: nat): (r: seq<nat>)
    ensures AreDigits(r) && r != [] && Number(r) == u
  {
    WrittenIsNumber(u);
    if u == 0 then [0] else Written(u)
  }

  function Text(u: nat): bytes { Spelled(DigitsOf(u)) }

  /** Writes the lowest digit first, from the end of the buffer. */
  method RON64String(u0: u64) returns (ret: bytes)
    ensures ret == Text(u0)
  {
    var u: nat := u0;
    ret := [Letter(u % 64)];
    u := u / 64;
    DigitsEnd(u0);
    while u != 0
      invariant Text(u0) == (if u == 0 then [] else Text(u)) + ret
      decreases u
    {
      DigitsEnd(u);
      Associates(if u / 64 == 0 then [] else Text(u / 64), [Letter(u % 64)], ret);
      ret := [Letter(u % 64)] + ret;
      u := u / 64;
    }
    assert [] + ret == ret;
  }

  /** The text of a number ends in its lowest digit. */
  lemma DigitsEnd(u: nat)
    ensures Text(u) == (if u / 64 == 0 then [] else Text(u / 64)) + [Letter(u % 64)]
  {
    var ds := DigitsOf(u);
    if u >= 64 {
      assert Shortest(Six, u)[1..] == Shortest(Six, u / 64);
      assert ds == DigitsOf(u / 64) + [u % 64];
    } else if u > 0 {
      assert Shortest(Six, u / 64) == [];
      assert ds == [u];
    }
    assert ds[..|ds| - 1] == if u / 64 == 0 then [] else DigitsOf(u / 64);
  }

  /** The digits at the front of a text, at most so many. */
  function Taken(ron: bytes, limit: nat): (r: seq<nat>)
    ensures |r| <= |ron| && |r| <= limit
  {
    if ron == [] || limit == 0 || !IsLetter(ron[0]) then []
    else [LetterValue(ron[0])] + Taken(ron[1..], limit - 1)
  }

  datatype Parse<T> = Parse(val: T, rest: bytes)

  /** A number at the front of a text, of at most so many digits. */
  function ParsedUpTo(ron: bytes, limit: nat): Parse<u64> {
    var ds := Taken(ron, limit);
    Parse(Number(ds) % TWO64, ron[|ds|..])
  }

  /** Digits beyond the eleventh are not looked at. */
  function Parsed(ron: bytes): Parse<u64> { ParsedUpTo(ron, MAX_DIGITS) }

  method ParseRON64(ron: bytes) returns (val: u64, rest: bytes)
    ensures Parse(val, rest) == Parsed(ron)
  {
    rest := ron;
    val := 0;
    var l := 0;
    ghost var ds: seq<nat> := [];
    while |rest| > 0 && l <= 10 && IsLetter(rest[0])
      invariant 0 <= l <= MAX_DIGITS && |ds| == l && l <= |ron| && rest == ron[l..]
      invariant Taken(ron, MAX_DIGITS) == ds + Taken(rest, MAX_DIGITS - l)
      invariant val == Number(ds) % TWO64
      decreases |rest|
    {
      var n := LetterValue(rest[0]);
      Associates(ds, [n], Taken(rest[1..], MAX_DIGITS - l - 1));
      assert (ds + [n])[..l] == ds;
      ShiftDigit(Number(ds), n);
      val := (val * 64) % TWO64 + n;
      ds := ds + [n];
      assert rest[1..] == ron[l + 1..];
      rest := rest[1..];
      l := l + 1;
    }
    assert Taken(rest, MAX_DIGITS - l) == [];
    assert ds + [] == ds;
  }

  lemma ShiftDigit(g: nat, d: nat)
    requires d < 64
    ensures ((g % TWO64) * 64) % TWO64 + d == (64 * g + d) % TWO64
  {
    var v, t := g % TWO64, g / TWO64;
    var s, r := v / 0x400_0000_0000_0000, v % 0x400_0000_0000_0000;
    Remainder(v * 64, s, 64 * r);
    Remainder(64 * g + d, 64 * t + s, 64 * r + d);
  }

  /** No digit follows. */
  predicate Ends(rest: bytes) { rest != [] ==> !IsLetter(rest[0]) }

  lemma {:induction false} TakenOfSpelled(ds: seq<nat>, rest: bytes, limit: nat)
    requires AreDigits(ds) && |ds| <= limit && (|ds| == limit || Ends(rest))
    ensures Taken(Spelled(ds) + rest, limit) == ds
    decreases |ds|
  {
    if ds == [] {
      assert Spelled(ds) + rest == rest;
    } else {
      var text := Spelled(ds) + rest;
      SpelledHead(ds);
      LettersReadBack(ds[0]);
      assert text[0] == Letter(ds[0]) && text[1..] == Spelled(ds[1..]) + rest;
      TakenOfSpelled(ds[1..], rest, limit - 1);
      assert ds == [ds[0]] + ds[1..];
    }
  }

  lemma {:induction false} SpelledHead(ds: seq<nat>)
    requires AreDigits(ds) && ds != []
    ensures Spelled(ds) == [Letter(ds[0])] + Spelled(ds[1..])
    decreases |ds|
  {
    var n := |ds| - 1;
    if n == 0 {
      assert ds[..0] == [] && ds[1..] == [];
    } else {
      SpelledHead(ds[..n]);
      assert ds[..n][1..] == ds[1..][..n - 1] && ds[1..][n - 1] == ds[n];
    }
  }

  /** Any digit string of a number reads as that number, leading zeros included. */
  lemma {:induction false} ParseUndoesSpelling(ds: seq<nat>, rest: bytes)
    requires AreDigits(ds) && |ds| <= MAX_DIGITS && Number(ds) < TWO64 && Ends(rest)
    ensures Parsed(Spelled(ds) + rest) == Parse(Number(ds), rest)
  {
    SpellingReads(ds, rest, MAX_DIGITS);
  }

  lemma {:induction false} SpellingReads(ds: seq<nat>, rest: bytes, limit: nat)
    requires AreDigits(ds) && |ds| <= limit && Number(ds) < TWO64 && Ends(rest)
    ensures ParsedUpTo(Spelled(ds) + rest, limit) == Parse(Number(ds), rest)
  {
    TakenOfSpelled(ds, rest, limit);
    JoinedParts(Spelled(ds), rest);
    var text := Spelled(ds) + rest;
    var t := Taken(text, limit);
    assert Number(t) == Number(ds) && text[|t|..] == rest;
    Remainder(Number(ds), 0, Number(ds));
    assert ParsedUpTo(text, limit) == Parse(Number(t) % TWO64, text[|t|..]);
  }

  lemma TextLength(u: nat)
    ensures u < TWO60 ==> |Text(u)| <= 10
    ensures u < TWO64 ==> |Text(u)| <= 11
    ensures u >= TWO60 ==> |Text(u)| >= 11
  {
    PowersOfSix();
    if u < TWO60 {
      ShortestLength(Six, u, 10);
    } else {
      if u < TWO64 {
        ShortestLength(Six, u, 11);
      }
      ShortestIsShortest(Six, u);
      ValueBound(Six, Shortest(Six, u));
      if |Shortest(Six, u)| <= 10 {
        PowMonotone(Six, |Shortest(Six, u)|, 10);
      }
    }
  }

  // ---- ids

  function RonString(id: ID): bytes {
    if id.src == 0 then Text(id.time) else Text(id.src) + [DASH] + Text(id.time)
  }

  /** Zeros in front of a source that would read as the start of a float: its last letter is `e`. */
  function Guard(src: u64): seq<nat> {
    if src % 64 != 14 && src % 64 != 41 then [] else if src == 14 || src == 41 then [0, 0] else [0]
  }

  function FormalString(id: ID): bytes {
    Spelled(Guard(id.src)) + Text(id.src) + [DASH] + Text(id.time)
  }

  /** The text of a number is its digits to the base 64, the highest first. */
  lemma {:induction false} TextIsDigits(u: nat, i: nat)
    requires i < |Text(u)|
    ensures Text(u)[|Text(u)| - 1 - i] == Letter(DigitOf(Six, u, i))
    decreases i
  {
    DigitsEnd(u);
    NextDigit(u, i);
    if i > 0 {
      TextIsDigits(u / 64, i - 1);
    }
  }

  /** Ids print as source, dash and time; without a source as time alone. */
  lemma IdsPrint(id: ID)
    ensures id.src == 0 ==> RonString(id) == Text(id.time)
    ensures id.src != 0 ==> RonString(id) == Text(id.src) + ['-' as int] + Text(id.time)
  {
  }

  predicate EndsInE(s: bytes) { s != [] && (s[|s| - 1] as char) in "eE" }

  /** The formal string always has a source; one that ends in `e` has a zero in front, and two if it is that letter alone. */
  lemma FormalPrints(id: ID)
    ensures var s := Text(id.src);
            var zeros := if !EndsInE(s) then [] else if |s| > 1 then ['0' as int] else ['0' as int, '0' as int];
            FormalString(id) == zeros + s + ['-' as int] + Text(id.time)
  {
    GuardSpells(id.src);
  }

  lemma GuardSpells(src: u64)
    ensures Spelled(Guard(src))
         == if !EndsInE(Text(src)) then [] else if |Text(src)| > 1 then ['0' as int] else ['0' as int, '0' as int]
  {
    ZerosSpell();
    LastLetter(src);
    LetterIsE(src % 64);
  }

  lemma LastLetter(u: nat)
    ensures var s := Text(u); s[|s| - 1] == Letter(u % 64) && (|s| > 1 <==> u >= 64)
  {
    DigitsEnd(u);
  }

  lemma LetterIsE(n: nat)
    requires n < 64
    ensures (Letter(n) as char) in "eE" <==> n == 14 || n == 41
  {
  }

  lemma ZerosSpell()
    ensures Spelled([0]) == ['0' as int] && Spelled([0, 0]) == ['0' as int, '0' as int]
  {
    assert [0, 0][..1] == [0] && [0][..0] == [];
    assert Spelled([0]) == [] + ['0' as int];
  }

  function ParseID(txt: bytes): Parse<ID> {
    var Parse(u, rest) := Parsed(txt);
    if rest != [] && rest[0] == DASH then
      var Parse(time, rest2) := Parsed(rest[1..]); Parse(ID(u, time), rest2)
    else Parse(ID(0, u), rest)
  }

  function NewID(txt: bytes): Option<ID> {
    var Parse(u, rest) := Parsed(txt);
    if |txt| - |rest| > 11 || u >= TWO60 then None
    else if rest == [] then Some(ID(0, u))
    else if rest[0] != DASH || |rest| > 11 then None
    else
      var Parse(time, rest2) := Parsed(rest[1..]);
      if rest2 != [] || time >= TWO60 then None else Some(ID(u, time))
  }

  lemma TextReads(u: u64, rest: bytes)
    requires Ends(rest)
    ensures Parsed(Text(u) + rest) == Parse(u, rest)
  {
    TextLength(u);
    ParseUndoesSpelling(DigitsOf(u), rest);
  }

  /** A number, a dash and another number read as the two. */
  lemma PairReads(head: bytes, src: u64, time: u64, rest: bytes)
    requires Parsed(head + ([DASH] + (Text(time) + rest))) == Parse(src, [DASH] + (Text(time) + rest)) && Ends(rest)
    ensures ParseID(head + [DASH] + Text(time) + rest) == Parse(ID(src, time), rest)
  {
    TextReads(time, rest);
    var tail := [DASH] + (Text(time) + rest);
    assert tail[1..] == Text(time) + rest;
    Regroups(head, [DASH], Text(time), rest);
    Associates([DASH], Text(time), rest);
  }

  /** ParseID inverts RonString for all ids, whatever comes behind. */
  lemma ParseIDUndoesRonString(id: ID, rest: bytes)
    requires Ends(rest) && (rest != [] ==> rest[0] != DASH)
    ensures ParseID(RonString(id) + rest) == Parse(id, rest)
  {
    if id.src == 0 {
      TextReads(id.time, rest);
    } else {
      TextReads(id.src, [DASH] + (Text(id.time) + rest));
      PairReads(Text(id.src), id.src, id.time, rest);
    }
  }

  lemma {:induction false} LeadingZero(ds: seq<nat>)
    ensures Number([0] + ds) == Number(ds)
    decreases |ds|
  {
    var all := [0] + ds;
    if ds == [] {
      assert all[..0] == [];
    } else {
      assert all[..|all| - 1] == [0] + ds[..|ds| - 1];
      LeadingZero(ds[..|ds| - 1]);
    }
  }

  lemma {:induction false} SpelledConcat(a: seq<nat>, b: seq<nat>)
    requires AreDigits(a) && AreDigits(b)
    ensures AreDigits(a + b) && Spelled(a + b) == Spelled(a) + Spelled(b)
    decreases |b|
  {
    if b == [] {
      assert a + b == a;
    } else {
      var n := |b| - 1;
      SpelledConcat(a, b[..n]);
      assert (a + b)[..|a| + n] == a + b[..n] && (a + b)[|a| + n] == b[n];
    }
  }

  function Guarded(src: u64): (r: seq<nat>)
    ensures AreDigits(r)
  {
    var g, ds := Guard(src), DigitsOf(src);
    assert AreDigits(g) && AreDigits(ds);
    g + ds
  }

  /** The digits of a guarded source are still at most eleven, and the same number. */
  lemma GuardKeepsNumber(src: u64)
    ensures Number(Guarded(src)) == src && Spelled(Guarded(src)) == Spelled(Guard(src)) + Text(src)
    ensures src < TWO60 ==> |Guarded(src)| <= 11
  {
    SpelledConcat(Guard(src), DigitsOf(src));
    GuardIsZero(Guard(src), DigitsOf(src));
    GuardedLength(src);
  }

  lemma GuardedLength(src: u64)
    ensures src < TWO60 ==> |Guarded(src)| <= 11
  {
    TextLength(src);
    if src == 14 || src == 41 {
      assert Shortest(Six, src / 64) == [];
    }
  }

  lemma {:induction false} GuardIsZero(g: seq<nat>, ds: seq<nat>)
    requires g == [] || g == [0] || g == [0, 0]
    ensures Number(g + ds) == Number(ds)
  {
    LeadingZero(ds);
    LeadingZero([0] + ds);
    assert [0, 0] + ds == [0] + ([0] + ds) && [] + ds == ds;
  }

  /** The condition NewID checks on the second part. */
  lemma NewIDOfPair(head: bytes, src: u64, time: u64)
    requires Parsed(head + ([DASH] + Text(time))) == Parse(src, [DASH] + Text(time)) && |head| <= 11
    ensures NewID(head + [DASH] + Text(time)) == if src < TWO60 && time < TWO60 then Some(ID(src, time)) else None
  {
    var tail := [DASH] + Text(time);
    Associates(head, [DASH], Text(time));
    TextReads(time, []);
    TextLength(time);
    assert tail[1..] == Text(time) && Text(time) + [] == Text(time);
  }

  /** NewID reads back FormalString for ids of 60-bit parts, and refuses every other. */
  lemma NewIDUndoesFormalString(id: ID)
    ensures NewID(FormalString(id)) == if id.src < TWO60 && id.time < TWO60 then Some(id) else None
  {
    var ds, tail := Guarded(id.src), [DASH] + Text(id.time);
    GuardKeepsNumber(id.src);
    if |ds| <= 11 {
      ParseUndoesSpelling(ds, tail);
      NewIDOfPair(Spelled(ds), id.src, id.time);
    } else {
      TooManyDigits(ds, tail);
      Associates(Spelled(ds), [DASH], Text(id.time));
    }
  }

  /** With more than eleven digits, the reader stops at a digit, where no dash is. */
  lemma {:induction false} TooManyDigits(ds: seq<nat>, tail: bytes)
    requires AreDigits(ds) && |ds| > 11
    ensures NewID(Spelled(ds) + tail) == None
  {
    var front, back := ds[..11], ds[11..];
    SplitAt(ds, 11);
    SpelledConcat(front, back);
    SpelledHead(back);
    LettersReadBack(back[0]);
    TakenOfSpelled(front, Spelled(back) + tail, MAX_DIGITS);
    Associates(Spelled(front), Spelled(back), tail);
    JoinedParts(Spelled(front), Spelled(back) + tail);
  }

  /** A printed stamp reads back exactly when both parts of the id fit sixty bits. */
  lemma StampReadsBackIff(id: ID)
    ensures NewID(RonString(id)) == if id.src < TWO60 && id.time < TWO60 then Some(id) else None
  {
    TextLength(id.time);
    TextLength(id.src);
    if id.src == 0 {
      TextReads(id.time, []);
      assert Text(id.time) + [] == Text(id.time);
    } else {
      TextReads(id.src, [DASH] + Text(id.time));
      NewIDOfPair(Text(id.src), id.src, id.time);
    }
  }

  // ---- what the strict reader takes

  /** Up to eleven letters for the number, modulo 2^64; no letters stand for zero. */
  ghost predicate Spells(txt: bytes, n: u64) {
    exists ds :: AreDigits(ds) && |ds| <= 11 && Spelled(ds) == txt && Number(ds) % TWO64 == n
  }

  lemma SpelledReads(txt: bytes, n: u64, rest: bytes)
    requires Spells(txt, n) && Ends(rest)
    ensures Parsed(txt + rest) == Parse(n, rest)
  {
    var ds :| AreDigits(ds) && |ds| <= 11 && Spelled(ds) == txt && Number(ds) % TWO64 == n;
    TakenOfSpelled(ds, rest, 11);
    JoinedParts(txt, rest);
  }

  lemma {:induction false} TakenAreDigits(ron: bytes, limit: nat)
    ensures AreDigits(Taken(ron, limit))
    decreases limit
  {
    var ds := Taken(ron, limit);
    if ds != [] {
      TakenAreDigits(ron[1..], limit - 1);
      assert forall i | 0 < i < |ds| :: ds[i] == Taken(ron[1..], limit - 1)[i - 1];
    }
  }

  lemma {:induction false} TakenSpells(ron: bytes, limit: nat)
    requires AreDigits(Taken(ron, limit))
    ensures var ds := Taken(ron, limit); Spelled(ds) == ron[..|ds|] && (|ds| == limit || Ends(ron[|ds|..]))
    decreases limit
  {
    var ds := Taken(ron, limit);
    if ds != [] {
      var more := Taken(ron[1..], limit - 1);
      TakenAreDigits(ron[1..], limit - 1);
      TakenSpells(ron[1..], limit - 1);
      SpelledHead(ds);
      assert ds[1..] == more;
      HeadBack(ron, |ds|);
      LetterOfValue(ron[0]);
      assert Spelled(ds) == [ron[0]] + Spelled(more);
    }
  }

  lemma LetterOfValue(c: byte)
    requires IsLetter(c)
    ensures Letter(LetterValue(c)) == c
  {
  }

  lemma HeadBack(s: bytes, n: nat)
    requires 0 < n <= |s|
    ensures s[..n] == [s[0]] + s[1..][..n - 1] && s[1..][n - 1..] == s[n..]
  {
  }

  lemma ParsedSpells(ron: bytes)
    ensures var Parse(n, rest) := Parsed(ron);
            |rest| <= |ron| && Spells(ron[..|ron| - |rest|], n) && rest == ron[|ron| - |rest|..]
  {
    TakenAreDigits(ron, 11);
    TakenSpells(ron, 11);
  }

  /** A number, a dash at position k and a number of at most ten letters. */
  ghost predicate IsPairAt(txt: bytes, k: nat, id: ID) {
    k < |txt| <= k + 11 && txt[k] == '-' as int && Spells(txt[..k], id.src) && Spells(txt[k + 1..], id.time)
  }

  /** One number or, with a dash between, two, none above sixty bits. */
  ghost predicate IsIdText(txt: bytes, id: ID) {
    && id.src < TWO60 && id.time < TWO60
    && ((id.src == 0 && Spells(txt, id.time)) || exists k :: IsPairAt(txt, k, id))
  }

  lemma NewIDIff(txt: bytes, id: ID)
    ensures NewID(txt) == Some(id) <==> IsIdText(txt, id)
  {
    if NewID(txt) == Some(id) {
      IdTextIsRead(txt, id);
    }
    if IsIdText(txt, id) {
      if id.src == 0 && Spells(txt, id.time) {
        SpelledReads(txt, id.time, []);
        assert txt + [] == txt;
        SpelledIsShort(txt, id.time);
      } else {
        var k :| IsPairAt(txt, k, id);
        PairIsRead(txt, k, id);
      }
    }
  }

  lemma IdTextIsRead(txt: bytes, id: ID)
    requires NewID(txt) == Some(id)
    ensures IsIdText(txt, id)
  {
    ParsedSpells(txt);
    var rest := Parsed(txt).rest;
    var k := |txt| - |rest|;
    if rest == [] {
      assert txt[..k] == txt;
    } else {
      ParsedSpells(rest[1..]);
      assert rest[1..] == txt[k + 1..] && rest[1..][..|rest| - 1] == txt[k + 1..];
      assert IsPairAt(txt, k, id);
    }
  }

  lemma SpelledIsShort(txt: bytes, n: u64)
    requires Spells(txt, n)
    ensures |txt| <= 11
  {
  }

  lemma PairIsRead(txt: bytes, k: nat, id: ID)
    requires id.src < TWO60 && id.time < TWO60 && IsPairAt(txt, k, id)
    ensures NewID(txt) == Some(id)
  {
    SpelledReads(txt[..k], id.src, txt[k..]);
    SpelledReads(txt[k + 1..], id.time, []);
    SpelledIsShort(txt[..k], id.src);
    assert txt[..k] + txt[k..] == txt && txt[k..][1..] == txt[k + 1..] && txt[k + 1..] + [] == txt[k + 1..];
  }
}
