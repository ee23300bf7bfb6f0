/** Type-length-value records: writing, reading, and the record iterator. */
module Tlv {
  import opened Ids
  import opened Digits
  import opened Seqs
  import opened Zip

  const CASE_BIT: byte := 32
  const MAX_ITER_LEN := 0x4000_0000

  predicate IsUpper(lit: byte) { 'A' as int <= lit <= 'Z' as int }

  predicate IsLower(lit: byte) { 'a' as int <= lit <= 'z' as int }

  /** A record: its type, the bytes of its id, its payload. */
  datatype Rec = Rec(lit: byte, key: bytes, val: bytes)

  predicate IsRec(r: Rec) {
    IsUpper(r.lit) && |r.key| <= 16 && |r.key| + |r.val| + 1 < MAX_ITER_LEN
  }

  /** Long form over 255 bytes, short form otherwise. */
  function Header(lit: byte, n: nat): bytes
    requires IsUpper(lit)
  {
    if n > 0xff then [lit] + Put(n, 4) else [lit + CASE_BIT, n]
  }

  function TLV(lit: byte, body: bytes): bytes
    requires IsUpper(lit)
  {
    Header(lit, |body|) + body
  }

  function Body(key: bytes, val: bytes): bytes {
    var k := if |key| > 0xff then key[..0xff] else key;
    [|k| as byte] + k + val
  }

  function WriteTLKV(data: bytes, lit: byte, key: bytes, val: bytes): bytes
    requires IsUpper(lit)
  {
    data + TLV(lit, Body(key, val))
  }

  function Encode(r: Rec): bytes
    requires IsRec(r)
  {
    WriteTLKV([], r.lit, r.key, r.val)
  }

  function EncodeAll(rs: seq<Rec>): bytes
    requires forall r | r in rs :: IsRec(r)
  {
    if rs == [] then [] else Encode(rs[0]) + EncodeAll(rs[1..])
  }

  // ---- reading

  datatype Reading =
    | End
    | Got(lit: byte, key: bytes, val: bytes, rest: bytes)
    | Incomplete
    | BadRecord
    | Overrun

  /** As the code has it; `Overrun` is a long record whose slice passes the end of the data. */
  function ReadTLV(data: bytes): Reading {
    if data == [] then End
    else if IsLower(data[0]) then
      if |data| < 2 then Incomplete
      else
        var e: int := data[1];
        if |data| < 2 + e then Incomplete
        else Got(data[0] - CASE_BIT, [], data[2..2 + e], data[2 + e..])
    else if IsUpper(data[0]) then
      if |data| < 5 then Incomplete
      else
        var bl := Get(data[1..5]);
        if bl > 0x7fff_ffff then BadRecord
        else if bl > |data| + 5 then Incomplete
        else if bl + 5 > |data| then Overrun
        else Got(data[0], [], data[5..5 + bl], data[5 + bl..])
    else BadRecord
  }

  function ReadTLKV(data: bytes): Reading {
    match ReadTLV(data)
    case Got(lit, _, value, rest) =>
      if value == [] then Got(lit, [], value, rest)
      else
        var n: int := value[0];
        if |value| < n + 1 then BadRecord
        else Got(lit, value[1..1 + n], value[1 + n..], rest)
    case other => other
  }

  /** What Iter.Read makes of the next bytes. */
  datatype Head =
    | Head(lit: byte, hdrlen: byte, idlen: byte, vallen: int)
    | HeadIncomplete
    | HeadBad

  predicate HasCaseBit(c: byte) { (c / 32) % 2 == 1 }

  function ParseHead(data: bytes): Head
    requires data != []
  {
    var short := HasCaseBit(data[0]);
    var lit := if short then data[0] - CASE_BIT else data[0];
    var hdrlen := if short then 3 else 6;
    if |data| < hdrlen then HeadIncomplete
    else
      var len := if short then data[1] else Get(data[1..5]);
      if !short && len >= MAX_ITER_LEN then HeadBad
      else if |data| < hdrlen + len - 1 then HeadIncomplete
      else if data[hdrlen - 1] > len then HeadBad
      else Head(lit, hdrlen, data[hdrlen - 1], len - data[hdrlen - 1] - 1)
  }

  lemma HeaderParts(lit: byte, n: nat, rest: bytes)
    requires IsUpper(lit) && n < 0x8000_0000
    ensures var d := Header(lit, n) + rest;
            if n > 0xff then |Header(lit, n)| == 5 && d[0] == lit && Get(d[1..5]) == n && d[5..] == rest
            else |Header(lit, n)| == 2 && d[0] == lit + CASE_BIT && d[1] == n && d[2..] == rest
  {
    if n > 0xff {
      PowersOfByte();
      ValueOfLow(Byte, n, 4);
      var d := Header(lit, n) + rest;
      assert d[1..5] == Put(n, 4);
    }
  }

  lemma SliceOfTail(d: bytes, a: nat, n: nat)
    requires a + n <= |d|
    ensures d[a..][..n] == d[a..a + n] && d[a..][n..] == d[a + n..]
  {
  }

  /** The two forms: a lower-case letter and one length byte, or the letter and four, least first; then the length of the id, the id, the payload. */
  lemma RecordsOutright(r: Rec)
    requires IsRec(r)
    ensures var n, k := |r.key| + |r.val| + 1, |r.key|;
            Encode(r) == if n < 256 then [r.lit + ('a' as int - 'A' as int), n, k] + r.key + r.val
                         else [r.lit, n % 256, n / 256 % 256, n / 65536 % 256, n / 16777216 % 256] + [k] + r.key + r.val
    ensures |r.key| + |r.val| + 1 < 1073741824
  {
    var n := |r.key| + |r.val| + 1;
    FourBytes(n);
  }

  lemma FourBytes(n: nat)
    ensures Put(n, 4) == [n % 256, n / 256 % 256, n / 65536 % 256, n / 16777216 % 256]
  {
    assert Low(Byte, n, 4) == [n % 256] + Low(Byte, n / 256, 3);
    assert Low(Byte, n / 256, 3) == [n / 256 % 256] + Low(Byte, n / 256 / 256, 2);
    assert Low(Byte, n / 256 / 256, 2) == [n / 256 / 256 % 256] + Low(Byte, n / 256 / 256 / 256, 1);
    assert Low(Byte, n / 256 / 256 / 256, 1) == [n / 256 / 256 / 256 % 256];
  }

  /** Reading a written record, with anything after it, gives the record back. */
  lemma ReadUndoesWrite(r: Rec, rest: bytes)
    requires IsRec(r)
    ensures ReadTLKV(Encode(r) + rest) == Got(r.lit, r.key, r.val, rest)
  {
    var body := Body(r.key, r.val);
    var d := Encode(r) + rest;
    HeaderParts(r.lit, |body|, body + rest);
    assert d == Header(r.lit, |body|) + (body + rest);
    assert (body + rest)[..|body|] == body && (body + rest)[|body|..] == rest;
    if |body| > 0xff {
      SliceOfTail(d, 5, |body|);
    } else {
      SliceOfTail(d, 2, |body|);
    }
    assert body[1..1 + |r.key|] == r.key && body[1 + |r.key|..] == r.val;
  }

  /** Without a look at the id: any body below 2^31 bytes, empty ones included, reads back. */
  lemma ReadTLVUndoesTLV(lit: byte, body: bytes, rest: bytes)
    requires IsUpper(lit) && |body| < 0x8000_0000
    ensures ReadTLV(TLV(lit, body) + rest) == Got(lit, [], body, rest)
  {
    var d := TLV(lit, body) + rest;
    assert d == Header(lit, |body|) + (body + rest);
    assert (body + rest)[..|body|] == body && (body + rest)[|body|..] == rest;
    HeaderParts(lit, |body|, body + rest);
    if |body| > 0xff {
      SliceOfTail(d, 5, |body|);
    } else {
      SliceOfTail(d, 2, |body|);
    }
  }

  /** A record without its id: a lower-case letter and one length byte, or the letter and four, which a short body may use too. */
  predicate IsFrame(data: bytes, lit: byte, val: bytes, rest: bytes) {
    && 'A' as int <= lit <= 'Z' as int && |val| < 0x8000_0000
    && ((|val| < 256 && data == [lit + 32, |val|] + val + rest) || data == [lit] + Put(|val|, 4) + val + rest)
  }

  /** Reading succeeds on these and on nothing else. */
  lemma ReadTLVIff(data: bytes, lit: byte, val: bytes, rest: bytes)
    ensures ReadTLV(data) == Got(lit, [], val, rest) <==> IsFrame(data, lit, val, rest)
  {
    if IsFrame(data, lit, val, rest) {
      FrameReads(data, lit, val, rest);
    }
    if ReadTLV(data) == Got(lit, [], val, rest) {
      if IsLower(data[0]) {
        assert data == [lit + 32, |val|] + val + rest;
      } else {
        PowersOfByte();
        LowOfValue(Byte, data[1..5]);
        assert data == [lit] + data[1..5] + val + rest;
      }
    }
  }

  lemma FrameReads(data: bytes, lit: byte, val: bytes, rest: bytes)
    requires IsFrame(data, lit, val, rest)
    ensures ReadTLV(data) == Got(lit, [], val, rest)
  {
    if data[0] == lit {
      PowersOfByte();
      ValueOfLow(Byte, |val|, 4);
      assert data[1..5] == Put(|val|, 4) && data[5..5 + |val|] == val && data[5 + |val|..] == rest;
    } else {
      assert data[2..2 + |val|] == val && data[2 + |val|..] == rest;
    }
  }

  /** The body is empty, or made of the length of the id, the id and the payload. */
  predicate IsBody(body: bytes, key: bytes, val: bytes) {
    (key == [] && val == [] && body == []) || (|key| < 256 && body == [|key|] + key + val)
  }

  lemma ReadTLKVIff(data: bytes, lit: byte, body: bytes, rest: bytes, key: bytes, val: bytes)
    requires ReadTLV(data) == Got(lit, [], body, rest)
    ensures ReadTLKV(data) == Got(lit, key, val, rest) <==> IsBody(body, key, val)
    ensures ReadTLKV(data) == BadRecord <==> body != [] && |body| - 1 < body[0]
  {
    if body != [] && |body| > body[0] {
      assert body == [body[0]] + body[1..1 + body[0]] + body[1 + body[0]..];
    }
    if IsBody(body, key, val) && body != [] {
      assert body[1..1 + |key|] == key && body[1 + |key|..] == val;
    }
  }

  /** Bytes are no record if they do not start with a letter, or if the length takes more than 31 bits. */
  lemma BadRecordIff(data: bytes)
    ensures ReadTLV(data) == BadRecord <==>
            data != [] && !('a' as int <= data[0] <= 'z' as int)
            && ('A' as int <= data[0] <= 'Z' as int ==> |data| >= 5 && data[4] >= 128)
  {
    if |data| >= 5 {
      var b := data[1..5];
      assert b[1..][1..] == b[2..] && b[2..][1..] == b[3..] && b[3..][1..] == [];
      assert Get(b) == b[0] + 256 * Get(b[1..]) && Get(b[1..]) == b[1] + 256 * Get(b[2..]);
      assert Get(b[2..]) == b[2] + 256 * Get(b[3..]) && Get(b[3..]) == b[3] + 256 * Get(b[3..][1..]);
    }
  }

  /** The iterator takes lengths below 2^30 only. */
  lemma LongRecordsAreBad(data: bytes)
    requires |data| >= 6 && 'A' as int <= data[0] <= 'Z' as int
    ensures Get(data[1..5]) >= 1073741824 ==> ParseHead(data) == HeadBad
    ensures Get(data[1..5]) < 1073741824 ==> (ParseHead(data) == HeadIncomplete <==> |data| < 5 + Get(data[1..5]))
  {
  }

  /** The iterator parses a written record into the same parts. */
  lemma ParseUndoesWrite(r: Rec, rest: bytes)
    requires IsRec(r)
    ensures var d := Encode(r) + rest;
            && ParseHead(d).Head? && ParseHead(d).lit == r.lit
            && ParseHead(d).idlen == |r.key| && ParseHead(d).vallen == |r.val|
            && var h := ParseHead(d).hdrlen + |r.key|;
               && h + |r.val| == |Encode(r)|
               && d[ParseHead(d).hdrlen..h] == r.key && d[h..h + |r.val|] == r.val && d[h + |r.val|..] == rest
  {
    var body := Body(r.key, r.val);
    var hdr := Header(r.lit, |body|);
    HeaderParts(r.lit, |body|, body + rest);
    assert Encode(r) + rest == hdr + (body + rest) by { Associates(hdr, body, rest); }
    RecordParts(hdr, r.key, r.val, rest);
  }

  lemma RecordParts(hdr: bytes, key: bytes, val: bytes, rest: bytes)
    requires |key| <= 16
    ensures var d := hdr + (Body(key, val) + rest);
            var h := |hdr| + 1 + |key|;
            && |d| == h + |val| + |rest| && d[|hdr|] == |key| && d[|hdr| + 1..h] == key
            && d[h..h + |val|] == val && d[h + |val|..] == rest
  {
  }

  /** The length of a record with a body of n bytes. */
  function Framed(n: nat): nat { if n > 0xff then n + 5 else n + 2 }

  /** `uint8` addition. */
  function Add8(a: byte, b: byte): byte { (a + b) % 256 }

  function RecordLength(data: bytes): nat
    requires data != [] && ParseHead(data).Head?
  {
    if HasCaseBit(data[0]) then data[1] else Get(data[1..5])
  }

  /** The slice that the iterator takes for the value stays inside the data. */
  predicate ValueInRange(data: bytes, h: Head)
    requires h.Head?
  {
    Add8(h.hdrlen, h.idlen) <= Add8(h.hdrlen, h.idlen) + h.vallen <= |data|
  }

  /** It does unless the id takes up the whole record and one byte more: then the slice runs backwards. */
  lemma ValueInRangeIff(data: bytes)
    requires data != [] && ParseHead(data).Head?
    ensures ValueInRange(data, ParseHead(data)) <==> ParseHead(data).idlen < RecordLength(data)
  {
  }

  /** And it is the end of the record exactly when header and id together fit a byte. */
  lemma ValueIsPayloadIff(data: bytes)
    requires data != [] && ParseHead(data).Head?
    ensures var h := ParseHead(data);
            var end := h.hdrlen + RecordLength(data) - 1;
            end <= |data| && (Add8(h.hdrlen, h.idlen) == end - h.vallen <==> h.hdrlen + h.idlen < 256)
  {
  }

  /** The slice that the iterator takes for the id, with the same wrapped sum as its end, runs forwards and stays inside the data. */
  predicate IdInRange(data: bytes, h: Head)
    requires h.Head?
  {
    h.hdrlen <= Add8(h.hdrlen, h.idlen) <= |data|
  }

  /** It does exactly when header and id together fit a byte and, if the id takes up the whole record and one byte more, that byte is there. */
  lemma IdInRangeIff(data: bytes)
    requires data != [] && ParseHead(data).Head?
    ensures var h := ParseHead(data);
            var end := h.hdrlen + RecordLength(data) - 1;
            IdInRange(data, h) <==> h.hdrlen + h.idlen < 256 && (h.idlen < RecordLength(data) || end < |data|)
    ensures var h := ParseHead(data); IdInRange(data, h) ==> Add8(h.hdrlen, h.idlen) - h.hdrlen == h.idlen
  {
  }

  /** Reading on from a record starts inside the data, but for one case: an id of a whole record whose end wraps to zero. */
  lemma RestInRangeIff(data: bytes)
    requires data != [] && ParseHead(data).Head?
    ensures var h := ParseHead(data);
            0 <= Add8(h.hdrlen, h.idlen) + h.vallen <= |data| <==> h.hdrlen + h.idlen != 256 || h.idlen < RecordLength(data)
  {
  }

  /** A short record with 253 bytes of id and the value 7: the value handed out is the type letter, and the id slice runs backwards. */
  lemma LongIdHidesTheValue()
    ensures var d := ['s' as int, 255, 253] + Zeroes(253) + [7];
            && ParseHead(d) == Head('S' as int, 3, 253, 1) && d[256..257] == [7]
            && Add8(3, 253) == 0 && d[Add8(3, 253)..Add8(3, 253) + 1] == ['s' as int]
            && !IdInRange(d, ParseHead(d))
  {
    var d: bytes := ['s' as int, 255, 253] + Zeroes(253) + [7];
    assert d[0] == 's' as int && d[1] == 255 && d[2] == 253 && |d| == 257;
  }

  /** An empty record, whose one byte is taken for the length of an id: the value would have length -1. */
  lemma EmptyRecordHasNoValue()
    ensures ParseHead(['p' as int, 0, 0]) == Head('P' as int, 3, 0, -1)
    ensures !ValueInRange(['p' as int, 0, 0], ParseHead(['p' as int, 0, 0]))
  {
  }

  /**
   The next record as the iterator hands it out: its parts; or, where reading succeeds all the same,
   a value slice that runs backwards, or one that starts too early.
   */
  datatype Next =
    | AtEnd
    | Piece(lit: byte, key: bytes, val: bytes, rest: bytes)
    | NoValue
    | WrongValue
    | Broken

  function Cut(data: bytes): (r: Next)
    ensures r.Piece? ==> |data| - |r.rest| >= Framed(1 + |r.key| + |r.val|)
  {
    if data == [] then AtEnd
    else
      match ParseHead(data)
      case Head(lit, hdrlen, idlen, vallen) =>
        var b: int := hdrlen + idlen;
        if vallen < 0 then NoValue
        else if b > 0xff then WrongValue
        else Piece(lit, data[hdrlen..b], data[b..b + vallen], data[b + vallen..])
      case _ => Broken
  }

  lemma CutUndoesWrite(r: Rec, rest: bytes)
    requires IsRec(r)
    ensures Cut(Encode(r) + rest) == Piece(r.lit, r.key, r.val, rest)
  {
    ParseUndoesWrite(r, rest);
  }

  /** A record whose end the iterator finds: any letter without the case bit, and a length below 2^30. */
  predicate IsPiece(data: bytes, lit: byte, key: bytes, val: bytes, rest: bytes) {
    && (lit / 32) % 2 == 0
    && ((|key| < 253 && |key| + |val| < 255 && data == [lit + 32, 1 + |key| + |val|, |key|] + key + val + rest)
        || (|key| < 250 && |key| + |val| < 1073741823
            && data == [lit] + Put(1 + |key| + |val|, 4) + [|key|] + key + val + rest))
  }

  /** The iterator hands out type, id, payload and rest for exactly these bytes. */
  lemma CutIff(data: bytes, lit: byte, key: bytes, val: bytes, rest: bytes)
    ensures Cut(data) == Piece(lit, key, val, rest) <==> IsPiece(data, lit, key, val, rest)
  {
    if Cut(data) == Piece(lit, key, val, rest) {
      CutParts(data, lit, key, val, rest);
    }
    if IsPiece(data, lit, key, val, rest) {
      PartsCut(data, lit, key, val, rest);
    }
  }

  lemma CutParts(data: bytes, lit: byte, key: bytes, val: bytes, rest: bytes)
    requires Cut(data) == Piece(lit, key, val, rest)
    ensures IsPiece(data, lit, key, val, rest)
  {
    var h, n := if HasCaseBit(data[0]) then 3 else 6, 1 + |key| + |val|;
    ThreeParts(data, h, h + |key|, h + |key| + |val|);
    if HasCaseBit(data[0]) {
      assert data[..3] == [lit + 32, n, |key|];
    } else {
      PowersOfByte();
      LowOfValue(Byte, data[1..5]);
      assert data[..6] == [lit] + Put(n, 4) + [|key|];
    }
  }

  lemma ThreeParts(d: bytes, a: nat, b: nat, c: nat)
    requires a <= b <= c <= |d|
    ensures d == d[..a] + d[a..b] + d[b..c] + d[c..]
  {
  }

  lemma PartsCut(data: bytes, lit: byte, key: bytes, val: bytes, rest: bytes)
    requires IsPiece(data, lit, key, val, rest)
    ensures Cut(data) == Piece(lit, key, val, rest)
  {
    if data[0] == lit {
      LongPartsCut(data, lit, key, val, rest);
    } else {
      PartsOf([lit + 32, 1 + |key| + |val|, |key|], key, val, rest);
    }
  }

  lemma LongPartsCut(data: bytes, lit: byte, key: bytes, val: bytes, rest: bytes)
    requires IsPiece(data, lit, key, val, rest) && data[0] == lit
    ensures Cut(data) == Piece(lit, key, val, rest)
  {
    var n := 1 + |key| + |val|;
    var head := [lit] + Put(n, 4) + [|key|];
    PartsOf(head, key, val, rest);
    PowersOfByte();
    ValueOfLow(Byte, n, 4);
    assert data[1..5] == head[1..5] == Put(n, 4);
    assert ParseHead(data) == Head(lit, 6, |key|, |val|);
  }

  lemma PartsOf(head: bytes, key: bytes, val: bytes, rest: bytes)
    ensures var d, k := head + key + val + rest, |head| + |key|;
            && d[|head|..k] == key && d[k..k + |val|] == val && d[k + |val|..] == rest
            && |d| == k + |val| + |rest| && forall i | 0 <= i < |head| :: d[i] == head[i]
  {
  }

  /** All records of a buffer, read one by one; what is not a record ends the walk. */
  function Walk(data: bytes): seq<Rec>
    decreases |data|
  {
    match ReadTLKV(data)
    case Got(lit, key, val, rest) => if |rest| < |data| then [Rec(lit, key, val)] + Walk(rest) else []
    case _ => []
  }

  /** Decoding any list of records undoes encoding it. */
  lemma {:induction false} WalkUndoesEncode(rs: seq<Rec>)
    requires forall r | r in rs :: IsRec(r)
    ensures Walk(EncodeAll(rs)) == rs
  {
    if rs != [] {
      ReadUndoesWrite(rs[0], EncodeAll(rs[1..]));
      WalkUndoesEncode(rs[1..]);
    }
  }

  // ---- the iterator

  class Iter {
    var data: bytes
    var vallen: int
    var hdrlen: byte
    var idlen: byte
    var lit: byte
    var errndx: nat

    /** The record under the iterator lies within the data. */
    ghost predicate Valid()
      reads this
    {
      errndx == 0 ==> 0 <= Add8(hdrlen, idlen) + vallen <= |data|
    }

    constructor (data: bytes)
      ensures Valid() && this.data == data && hdrlen == 0 && idlen == 0 && vallen == 0 && errndx == 0
    {
      this.data := data;
      vallen, hdrlen, idlen, lit, errndx := 0, 0, 0, 0, 0;
    }

    function Rest(): bytes
      requires Valid() && errndx == 0
      reads this
    {
      data[Add8(hdrlen, idlen) + vallen..]
    }

    function Record(): bytes
      requires Valid() && errndx == 0
      reads this
    {
      data[..Add8(hdrlen, idlen) + vallen]
    }

    predicate HasData()
      reads this
    {
      data != []
    }

    /** Moves to the next record. */
    method Read() returns (ok: bool)
      requires Valid()
      modifies this
      ensures ok ==> -1 <= vallen && hdrlen + idlen + vallen <= |data|
      ensures ok ==> (Add8(hdrlen, idlen) == hdrlen + idlen <==> hdrlen + idlen < 256)
      ensures ok ==> (Valid() <==> hdrlen + idlen != 256 || vallen >= 0)
      ensures !ok ==> Valid()
      ensures old(data == [] || errndx > 0) ==> !ok && data == old(data) && errndx == old(errndx)
      ensures old(data != [] && errndx == 0) ==> data == old(Rest())
      ensures old(data != [] && errndx == 0 && Rest() == []) ==> !ok && hdrlen == 0 && errndx == 0
      ensures old(data != [] && errndx == 0 && Rest() != []) ==>
                match ParseHead(old(Rest()))
                case Head(l, h, i, v) => ok && errndx == 0 && lit == l && hdrlen == h && idlen == i && vallen == v
                case HeadIncomplete => !ok && errndx == 1
                case HeadBad => !ok && errndx == 2
    {
      if |data| == 0 || errndx > 0 {
        return false;
      }
      data := data[Add8(hdrlen, idlen) + vallen..];
      if |data| == 0 {
        vallen, hdrlen, idlen, lit := 0, 0, 0, 0;
        return false;
      }
      lit := data[0];
      if HasCaseBit(lit) {
        lit := lit - CASE_BIT;
        hdrlen := 3;
        if |data| < hdrlen {
          errndx := 1;
          return false;
        }
        vallen := data[1];
      } else {
        hdrlen := 6;
        if |data| < hdrlen {
          errndx := 1;
          return false;
        }
        var de := Get(data[1..5]);
        if de >= MAX_ITER_LEN {
          errndx := 2;
          return false;
        }
        vallen := de;
      }
      if |data| < hdrlen + vallen - 1 {
        errndx := 1;
        return false;
      }
      idlen := data[hdrlen - 1];
      if idlen > vallen {
        errndx := 2;
        return false;
      }
      vallen := vallen - (idlen + 1);
      return true;
    }

    /** The iterator stands before the records rs. */
    ghost predicate Before(rs: seq<Rec>)
      reads this
    {
      && Valid() && errndx == 0 && (forall r | r in rs :: IsRec(r))
      && Rest() == EncodeAll(rs)
    }

    /** The iterator stands on record r, with the records rs behind it. */
    ghost predicate On(r: Rec, rs: seq<Rec>)
      reads this
    {
      && Before(rs) && IsRec(r) && HasData()
      && lit == r.lit && Add8(hdrlen, idlen) == hdrlen + idlen && idlen == |r.key| && vallen == |r.val|
      && hdrlen + idlen + vallen <= |data|
      && data[hdrlen..hdrlen + idlen] == r.key && data[hdrlen + idlen..hdrlen + idlen + vallen] == r.val
      && Record() == Encode(r)
    }
  }

  /** Reading walks over the encoding of any list of records, one record at a time, to its end. */
  method ReadNext(it: Iter, ghost rs: seq<Rec>) returns (ok: bool)
    requires it.Before(rs) && it.HasData()
    modifies it
    ensures ok == (rs != [])
    ensures rs == [] ==> !it.HasData() && it.errndx == 0
    ensures rs != [] ==> it.On(rs[0], rs[1..])
  {
    ghost var d := it.Rest();
    if rs != [] {
      HeadOfEncoding(rs);
    }
    ok := it.Read();
    assert rs != [] ==> it.data == d;
  }

  // ---- truncated input

  lemma PrefixParts(hdr: bytes, body: bytes, n: nat)
    requires n <= |hdr + body|
    ensures (hdr + body)[..n] == if n <= |hdr| then hdr[..n] else hdr + body[..n - |hdr|]
  {
  }

  /** A record cut short is reported as incomplete, except a long one that lacks at most ten bytes. */
  lemma TruncationIsNoticedIff(r: Rec, n: nat)
    requires IsRec(r) && 0 < n < |Encode(r)|
    ensures ReadTLV(Encode(r)[..n])
         == if IsUpper(Encode(r)[0]) && n >= 5 && |Encode(r)| - n <= 10 then Overrun else Incomplete
  {
    var body := Body(r.key, r.val);
    var hdr := Header(r.lit, |body|);
    var p := Encode(r)[..n];
    assert Encode(r) == hdr + body;
    PrefixParts(hdr, body, n);
    HeaderParts(r.lit, |body|, body);
    assert p[0] == (hdr + body)[0];
    if n > |hdr| {
      HeaderParts(r.lit, |body|, body[..n - |hdr|]);
    } else if n == 5 {
      assert hdr[..5] == hdr && hdr + [] == hdr;
      HeaderParts(r.lit, |body|, []);
    }
  }

  /** The iterator notices every truncation. */
  lemma IteratorNoticesTruncation(r: Rec, n: nat)
    requires IsRec(r) && 0 < n < |Encode(r)|
    ensures ParseHead(Encode(r)[..n]) == HeadIncomplete
  {
    var body := Body(r.key, r.val);
    var hdr := Header(r.lit, |body|);
    assert Encode(r) == hdr + body;
    PrefixParts(hdr, body, n);
    HeaderParts(r.lit, |body|, body);
    assert Encode(r)[..n][0] == (hdr + body)[0];
    if n > |hdr| {
      HeaderParts(r.lit, |body|, body[..n - |hdr|]);
    }
  }

  /** What the iterator will make of the first record. */
  lemma {:induction false} HeadOfEncoding(rs: seq<Rec>)
    requires rs != [] && forall r | r in rs :: IsRec(r)
    ensures var d, r := EncodeAll(rs), rs[0];
            && d != [] && ParseHead(d).Head? && IsRec(r) && (forall x | x in rs[1..] :: IsRec(x))
            && var h, b := ParseHead(d), ParseHead(d).hdrlen + |r.key|;
               && h.lit == r.lit && h.idlen == |r.key| && h.vallen == |r.val| && b + |r.val| <= |d| && b < 256
               && d[h.hdrlen..b] == r.key && d[b..b + |r.val|] == r.val
               && d[..b + |r.val|] == Encode(r) && d[b + |r.val|..] == EncodeAll(rs[1..])
  {
    ParseUndoesWrite(rs[0], EncodeAll(rs[1..]));
    assert forall r | r in rs[1..] :: r in rs;
  }
}
