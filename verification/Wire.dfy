/** The binary form of a document, the reader that undoes it, and the size of what merging writes. */
module Wire {
  import opened Ids
  import opened Elements
  import opened Merge
  import opened Batch
  import opened Zip
  import opened Seqs
  import opened Tlv

  datatype Option<+T> = None | Some(value: T)

  function PrimBytes(v: Prim): bytes {
    match v
    case Float(f) => ZipFloat(f)
    case Integer(i) => ZipInteger(i)
    case Reference(r) => ZipID(r)
    case Str(s) => s
    case Term(t) => t
  }

  function Payload(e: Elem): bytes
    decreases e, 0
  {
    match e
    case First(_, val) => PrimBytes(val)
    case Plex(_, _, kids) => EncodeDoc(kids)
  }

  function EncodeElem(e: Elem): bytes
    decreases e, 1
  {
    WriteTLKV([], Lit(e), ZipID(e.id), Payload(e))
  }

  function EncodeDoc(d: Doc): bytes {
    if d == [] then [] else EncodeElem(d[0]) + EncodeDoc(d[1..])
  }

  // ---- reading

  function PrimOf(lit: byte, val: bytes): Option<Prim> {
    if lit == 'F' as int then
      if |val| <= 8 && !IsNaN(UnzipFloat(val)) then Some(Float(UnzipFloat(val))) else None
    else if lit == 'I' as int then
      if |val| <= 8 then Some(Integer(UnzipInteger(val))) else None
    else if lit == 'R' as int then
      if |val| <= 16 then Some(Reference(UnzipID(val))) else None
    else if lit == 'S' as int then Some(Str(val))
    else if lit == 'T' as int then Some(Term(val))
    else None
  }

  /** One record as an element; numbers and ids may come in any of their encodings. */
  function DecodeElem(lit: byte, key: bytes, val: bytes): Option<Elem>
    decreases |val|, 1
  {
    if IsPlexLit(lit) then
      match Decode(val)
      case Some(kids) => Some(Plex(KindOf(lit), UnzipID(key), kids))
      case None => None
    else
      match PrimOf(lit, val)
      case Some(v) => Some(First(UnzipID(key), v))
      case None => None
  }

  /** A buffer as a document, or nothing if some record is malformed. */
  function Decode(data: bytes): Option<Doc>
    decreases |data|, 0
  {
    match Cut(data)
    case AtEnd => Some([])
    case Piece(lit, key, val, rest) =>
      (match (DecodeElem(lit, key, val), Decode(rest))
       case (Some(e), Some(es)) => Some([e] + es)
       case _ => None)
    case _ => None
  }

  lemma PrimReadsBack(v: Prim)
    ensures PrimOf(PrimLit(v), PrimBytes(v)) == Some(v)
  {
    match v
    case Float(f) => ZipFloatIsABijection(f, []);
    case Integer(i) => ZipIntegerIsABijection(i, []);
    case Reference(r) => UnzipInvertsZipID(r);
    case _ =>
  }

  lemma {:induction false} ElemIsRec(e: Elem)
    requires |EncodeElem(e)| < MAX_ITER_LEN
    ensures IsRec(Rec(Lit(e), ZipID(e.id), Payload(e)))
    ensures EncodeElem(e) == Encode(Rec(Lit(e), ZipID(e.id), Payload(e)))
    ensures |Payload(e)| + 3 <= |EncodeElem(e)|
  {
    var body := Body(ZipID(e.id), Payload(e));
    assert EncodeElem(e) == [] + TLV(Lit(e), body);
    assert |Header(Lit(e), |body|)| >= 2 && |body| == 1 + |ZipID(e.id)| + |Payload(e)|;
  }

  /** Reading undoes writing, for every document below the iterator's record limit. */
  lemma {:induction false} DecodeUndoesEncode(d: Doc)
    requires |EncodeDoc(d)| < MAX_ITER_LEN
    ensures Decode(EncodeDoc(d)) == Some(d)
    decreases d, 1
  {
    if d != [] {
      var rest := EncodeDoc(d[1..]);
      ElemIsRec(d[0]);
      CutUndoesWrite(Rec(Lit(d[0]), ZipID(d[0].id), Payload(d[0])), rest);
      ElemReadsBack(d[0]);
      DecodeUndoesEncode(d[1..]);
      assert d == [d[0]] + d[1..];
    }
  }

  lemma {:induction false} ElemReadsBack(e: Elem)
    requires |Payload(e)| < MAX_ITER_LEN
    ensures DecodeElem(Lit(e), ZipID(e.id), Payload(e)) == Some(e)
    decreases e, 0
  {
    UnzipInvertsZipID(e.id);
    match e
    case First(_, val) =>
      PrimReadsBack(val);
      assert !IsPlexLit(Lit(e)) && PrimOf(Lit(e), Payload(e)) == Some(val);
    case Plex(kind, _, kids) =>
      DecodeUndoesEncode(kids);
      assert IsPlexLit(Lit(e)) && KindOf(Lit(e)) == kind && Decode(Payload(e)) == Some(kids);
  }

  lemma {:induction false} EncodeConcat(a: Doc, b: Doc)
    ensures EncodeDoc(a + b) == EncodeDoc(a) + EncodeDoc(b)
    decreases |a|
  {
    if a == [] {
      assert a + b == b;
    } else {
      assert (a + b)[1..] == a[1..] + b && (a + b)[0] == a[0];
      EncodeConcat(a[1..], b);
      Associates(EncodeElem(a[0]), EncodeDoc(a[1..]), EncodeDoc(b));
    }
  }

  lemma {:induction false} EncodeOne(e: Elem)
    ensures EncodeDoc([e]) == EncodeElem(e)
  {
    assert [e][1..] == [];
  }

  lemma {:induction false} ElemIsTLV(e: Elem)
    ensures EncodeElem(e) == TLV(Lit(e), Body(ZipID(e.id), Payload(e)))
  {
    assert [] + TLV(Lit(e), Body(ZipID(e.id), Payload(e))) == TLV(Lit(e), Body(ZipID(e.id), Payload(e)));
  }

  // ---- size

  lemma {:induction false} ElemSize(e: Elem)
    ensures |EncodeElem(e)| == Framed(1 + |ZipID(e.id)| + |Payload(e)|)
  {
    var body := Body(ZipID(e.id), Payload(e));
    assert EncodeElem(e) == [] + TLV(Lit(e), body);
    assert |body| == 1 + |ZipID(e.id)| + |Payload(e)|;
  }

  /** What a spot writes is no longer than its two inputs, even when only the result needs the long header. */
  lemma {:induction false} SpotShrinks(a: Elem, b: Elem)
    ensures |EncodeElem(Spot(a, b))| <= |EncodeElem(a)| + |EncodeElem(b)|
    decreases a, 0
  {
    ElemSize(a);
    ElemSize(b);
    ElemSize(Spot(a, b));
    if a.Plex? && b.Plex? && IsSame(a, b) {
      MergeShrinks(a.kind, a.kids, b.kids);
    }
  }

  /** A merge is never longer than its inputs together. */
  lemma {:induction false} MergeShrinks(k: Kind, xs: Doc, ys: Doc)
    ensures |EncodeDoc(MergeList(k, xs, ys))| <= |EncodeDoc(xs)| + |EncodeDoc(ys)|
    decreases xs, 1, ys
  {
    if xs != [] && ys != [] {
      match Compare(k, xs[0], ys[0])
      case Less => MergeShrinks(k, xs[1..], ys);
      case Grtr => MergeShrinks(k, xs, ys[1..]);
      case Eq =>
        SpotShrinks(xs[0], ys[0]);
        MergeShrinks(k, xs[1..], ys[1..]);
    }
  }

  function DocSize(d: Doc): nat { |EncodeDoc(d)| }

  function TotalSize(ss: seq<Doc>): nat { Sum<Doc>(DocSize, ss) }

  lemma {:induction false} BatchShrinks(k: Kind, ss: seq<Doc>)
    ensures |EncodeDoc(FoldMerge(k, ss))| <= TotalSize(ss)
    decreases |ss|
  {
    if ss != [] {
      var n := |ss| - 1;
      var front, last := ss[..n], ss[n];
      BatchShrinks(k, front);
      SplitLast(ss);
      FoldMergeGrows(k, front, last);
      MergeShrinks(k, FoldMerge(k, front), last);
    }
  }
}
