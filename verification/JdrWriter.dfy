/** The printer over buffers: records are cut off the front and their tokens appended. */
module JdrWriter {
  import opened Ids
  import opened Elements
  import opened Seqs
  import opened Zip
  import opened Tlv
  import opened Wire
  import opened Jdr
  import opened JdrPrint

  /** What reading the first record of an encoding gives. */
  lemma {:induction false} FirstRecord(d: Doc)
    requires d != [] && |EncodeDoc(d)| < MAX_ITER_LEN
    ensures ReadTLKV(EncodeDoc(d)) == Got(Lit(d[0]), ZipID(d[0].id), Payload(d[0]), EncodeDoc(d[1..]))
    ensures |EncodeDoc(d[1..])| + |Payload(d[0])| < |EncodeDoc(d)|
    ensures DecodeElem(Lit(d[0]), ZipID(d[0].id), Payload(d[0])) == Some(d[0])
  {
    ElemIsRec(d[0]);
    ReadUndoesWrite(Rec(Lit(d[0]), ZipID(d[0].id), Payload(d[0])), EncodeDoc(d[1..]));
    ElemReadsBack(d[0]);
  }

  /** `IsTupleAllFIRST`: the loop over the records of a tuple. */
  method IsTupleAllFIRST(data: bytes, ghost d: Doc) returns (r: bool)
    requires data == EncodeDoc(d) && |data| < MAX_ITER_LEN
    ensures r == IsAllFirst(d)
  {
    var rdx := data;
    var l := 0;
    while |rdx| > 0
      invariant 0 <= l <= |d| && rdx == EncodeDoc(d[l..]) && |rdx| <= |data|
      invariant forall x | x in d[..l] :: x.First? || IsEmptyTuple(x)
      decreases |d| - l
    {
      ghost var e := d[l];
      DropSplits(d, l);
      TakeGrows(d, l);
      FirstRecord(d[l..]);
      EmptyPayload(e);
      match ReadTLKV(rdx)
      case Got(lit, _, val, rest) =>
        if IsPlexLit(lit) && !(lit == KindLit(P) && |val| == 0) {
          assert e in d && e.Plex? && !IsEmptyTuple(e);
          return false;
        }
        rdx := rest;
      l := l + 1;
      assert d[l - 1..][1..] == d[l..];
    }
    EmptyEncoding(d[l..]);
    assert d[..l] == d;
    r := l >= 2;
  }

  lemma {:induction false} EmptyEncoding(d: Doc)
    ensures EncodeDoc(d) == [] <==> d == []
  {
    if d != [] {
      ElemSize(d[0]);
    }
  }

  lemma {:induction false} EmptyPayload(e: Elem)
    ensures e.Plex? ==> (Payload(e) == [] <==> e.kids == [])
  {
    if e.Plex? {
      EmptyEncoding(e.kids);
    }
  }

  /** Prints the first record and returns what is behind it. */
  method WriteJDR(jdr: seq<Token>, rdx: bytes, bracket: bool, ghost d: Doc) returns (jdr2: seq<Token>, rest: bytes)
    requires d != [] && rdx == EncodeDoc(d) && |rdx| < MAX_ITER_LEN
    ensures jdr2 == jdr + Printed(d[0], bracket) && rest == EncodeDoc(d[1..])
    decreases |rdx|, 1
  {
    FirstRecord(d);
    match ReadTLKV(rdx)
    case Got(lit, key, val, behind) =>
      rest := behind;
      var id := UnzipID(key);
      if !IsPlexLit(lit) {
        return jdr + [Scalar(LexemeFor(PrimOf(lit, val).value), StampFor(id))], rest;
      }
      var inline := false;
      if lit == KindLit(P) && !bracket && id == ID0 {
        inline := IsTupleAllFIRST(val, d[0].kids);
      }
      if inline {
        jdr2 := AppendJoined(jdr, val, true, Colon, d[0].kids);
      } else {
        var k := KindOf(lit);
        jdr2 := AppendJoined(jdr + [Open(k, StampFor(id))], val, bracket, Comma, d[0].kids);
        jdr2 := jdr2 + [Close(k)];
        Regroups(jdr, [Open(k, StampFor(id))], Joined(d[0].kids, bracket, Comma), [Close(k)]);
        Associates([Open(k, StampFor(id))], Joined(d[0].kids, bracket, Comma), [Close(k)]);
      }
  }

  /** `appendJDRList` and `appendInlineTuple`: the records with a separator between any two. */
  method AppendJoined(jdr: seq<Token>, data: bytes, bracket: bool, sep: Token, ghost d: Doc) returns (res: seq<Token>)
    requires data == EncodeDoc(d) && |data| < MAX_ITER_LEN
    ensures res == jdr + Joined(d, bracket, sep)
    decreases |data|, 2
  {
    res := jdr;
    var rdx := data;
    ghost var todo := d;
    while |rdx| > 0
      invariant rdx == EncodeDoc(todo) && |rdx| <= |data|
      invariant res + Joined(todo, bracket, sep) == jdr + Joined(d, bracket, sep)
      decreases |todo|
    {
      EmptyEncoding(todo);
      FirstRecord(todo);
      ghost var before := res;
      res, rdx := WriteJDR(res, rdx, bracket, todo);
      EmptyEncoding(todo[1..]);
      if |rdx| > 0 {
        res := res + [sep];
      }
      JoinedStep(before, todo, bracket, sep);
      todo := todo[1..];
    }
    EmptyEncoding(todo);
  }

  lemma {:induction false} JoinedStep(res: seq<Token>, todo: Doc, bracket: bool, sep: Token)
    requires todo != []
    ensures var one := res + Printed(todo[0], bracket);
            (if todo[1..] != [] then one + [sep] else one) + Joined(todo[1..], bracket, sep)
            == res + Joined(todo, bracket, sep)
  {
    var p, rest := Printed(todo[0], bracket), Joined(todo[1..], bracket, sep);
    if |todo| > 1 {
      Regroups(res, p, [sep], rest);
      Associates(p, [sep], rest);
    }
  }

  /** Prints a whole buffer. */
  method WriteAllJDR(data: bytes, ghost d: Doc) returns (jdr: seq<Token>)
    requires data == EncodeDoc(d) && |data| < MAX_ITER_LEN
    ensures jdr == PrintedDoc(d)
  {
    jdr := [];
    var rdx := data;
    ghost var todo := d;
    while |rdx| > 0
      invariant rdx == EncodeDoc(todo) && |rdx| <= |data| && jdr + PrintedDoc(todo) == PrintedDoc(d)
      decreases |todo|
    {
      EmptyEncoding(todo);
      FirstRecord(todo);
      Associates(jdr, Printed(todo[0], false), PrintedDoc(todo[1..]));
      jdr, rdx := WriteJDR(jdr, rdx, false, todo);
      todo := todo[1..];
    }
    EmptyEncoding(todo);
  }
}
