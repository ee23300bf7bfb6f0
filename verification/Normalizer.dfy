/** The normalizer on buffers: records appended under a stack of marks, runs cut out and merged. */
module Normalizer {
  import opened Ids
  import opened Elements
  import opened Merge
  import opened Layouts
  import opened Worlds
  import opened Batch
  import opened Seqs
  import opened Zip
  import opened Tlv
  import opened Wire
  import opened Normal
  import opened Engine
  import opened EngineSize
  import opened EngineNormal
  import opened FixedPoints
  import opened EngineValues
  import opened Texts
  import opened TopMerge
  import Marks
  import TextIds

  // ---- which inputs are accepted

  predicate IsKnown(lit: byte) {
    IsPlexLit(lit) || lit == 'F' as int || lit == 'I' as int || lit == 'R' as int || lit == 'S' as int || lit == 'T' as int
  }

  /** Whole records of known types, at every level. */
  predicate WellFramed(data: bytes)
    decreases |data|
  {
    match Cut(data)
    case AtEnd => true
    case Piece(lit, _, val, rest) => IsKnown(lit) && (IsPlexLit(lit) ==> WellFramed(val)) && WellFramed(rest)
    case _ => false
  }

  /** One record as far as it is well formed. */
  function SeenElem(lit: byte, key: bytes, val: bytes): Option<Elem>
    decreases |val|, 1
  {
    if IsPlexLit(lit) then Some(Plex(KindOf(lit), UnzipID(key), Seen(val)))
    else
      match PrimOf(lit, val)
      case Some(v) => Some(First(UnzipID(key), v))
      case None => None
  }

  /** What a reader sees before it stops at the first bad value. */
  function Seen(data: bytes): Doc
    decreases |data|, 0
  {
    match Cut(data)
    case Piece(lit, key, val, rest) =>
      (match SeenElem(lit, key, val)
       case Some(e) => [e] + (if DecodeElem(lit, key, val).Some? then Seen(rest) else [])
       case None => [])
    case _ => []
  }

  lemma {:induction false} SeenIsDecoded(data: bytes)
    ensures Decode(data).Some? ==> Decode(data).value == Seen(data)
    decreases |data|, 0
  {
    match Cut(data)
    case Piece(lit, key, val, rest) =>
      SeenElemIsDecoded(lit, key, val);
      SeenIsDecoded(rest);
    case _ =>
  }

  lemma {:induction false} SeenElemIsDecoded(lit: byte, key: bytes, val: bytes)
    ensures DecodeElem(lit, key, val).Some? ==> SeenElem(lit, key, val) == DecodeElem(lit, key, val)
    decreases |val|, 1
  {
    if IsPlexLit(lit) {
      SeenIsDecoded(val);
    }
  }

  /** The document that the normalizer takes the buffer for: records well formed, strings and terms of the right characters. */
  function Accept(data: bytes): Option<Doc> {
    match Decode(data)
    case Some(d) => if AllHold(CLEAN, d) then Some(d) else None
    case None => None
  }

  function AcceptElem(lit: byte, key: bytes, val: bytes): Option<Elem> {
    match DecodeElem(lit, key, val)
    case Some(e) => if Holds(CLEAN, e) then Some(e) else None
    case None => None
  }

  // ---- re-encoding never lengthens

  lemma PrimShrinks(lit: byte, val: bytes)
    requires PrimOf(lit, val).Some?
    ensures |PrimBytes(PrimOf(lit, val).value)| <= |val|
  {
    if lit == 'F' as int {
      ZipFloatIsABijection(0, val);
    } else if lit == 'I' as int {
      ZipIntegerIsABijection(0, val);
    } else if lit == 'R' as int {
      ZipIsShortest(val);
    }
  }

  lemma {:induction false} ElemShrinks(e: Elem, key: bytes, val: bytes)
    requires e.id == UnzipID(key) && |Payload(e)| <= |val|
    ensures |EncodeElem(e)| <= Framed(1 + |key| + |val|)
  {
    ElemSize(e);
    ZipIsShortest(key);
  }

  // ---- the loop, one record behind the reader

  /** The pass over `done`, with the cut before the next element already made. */
  function Cutting(k: Kind, done: Doc, todo: Doc): Pass {
    var p := Passed(HEAP, k, done);
    if done != [] && todo != [] && Cuts(k, done[|done| - 1], todo[0]) then Pass(p.chunks + [p.last], []) else p
  }

  lemma {:induction false} CuttingStep(k: Kind, done: Doc, todo: Doc)
    requires todo != []
    ensures var p := Cutting(k, done, todo);
            Passed(HEAP, k, done + [todo[0]]) == Pass(p.chunks, p.last + NormIn(HEAP, k, todo[0]))
  {
    assert (done + [todo[0]])[..|done|] == done;
    assert [] + NormIn(HEAP, k, todo[0]) == NormIn(HEAP, k, todo[0]);
  }

  lemma {:induction false} ChunkedGrows(chunks: seq<bytes>, runs: seq<Doc>, limit: nat, chunk: bytes, run: Doc)
    requires Chunked(chunks, runs, limit) && chunk == EncodeDoc(run) && |chunk| <= limit
    ensures Chunked(chunks + [chunk], runs + [run], limit)
  {
  }

  ghost predicate MarksFit(buf: Marks.TlvBuffer)
    reads buf
  {
    forall m | m in buf.stack :: m.start <= |buf.data|
  }

  /** The innermost open record is a set exactly when the container at hand is one. */
  ghost predicate Under(buf: Marks.TlvBuffer, k: Kind)
    reads buf
  {
    k == E <==> buf.stack != [] && buf.stack[|buf.stack| - 1].lit == KindLit(E)
  }

  /** Part of the input is done; the reader stands at the start of `cur`. */
  ghost predicate Reading(rdx: bytes, cur: bytes, done: Doc) {
    && WellFramed(cur) && |cur| <= |rdx| < MAX_ITER_LEN
    && Seen(rdx) == done + Seen(cur)
    && Accept(rdx) == match Accept(cur) { case Some(d) => Some(done + d) case None => None }
  }

  lemma {:induction false} ReadingStep(rdx: bytes, cur: bytes, done: Doc, at: Next)
    requires Reading(rdx, cur, done) && at == Cut(cur) && at.Piece?
    requires AcceptElem(at.lit, at.key, at.val).Some?
    ensures var e := AcceptElem(at.lit, at.key, at.val).value;
            && SeenElem(at.lit, at.key, at.val) == Some(e) && Seen(cur) == [e] + Seen(at.rest)
            && Reading(rdx, at.rest, done + [e]) && |at.rest| < |cur|
  {
    SeenElemIsDecoded(at.lit, at.key, at.val);
    var e := AcceptElem(at.lit, at.key, at.val).value;
    Associates(done, [e], Seen(at.rest));
    if Accept(at.rest).Some? {
      Associates(done, [e], Accept(at.rest).value);
    }
  }

  /** The buffer behind `start` holds the finished chunks and, from oc on, the run under way. */
  ghost predicate Built(p: Pass, start: bytes, data: bytes, chunks: seq<bytes>, oc: nat, limit: nat) {
    && |start| <= oc <= |data| <= |start| + limit < |start| + MAX_ITER_LEN
    && data[..|start|] == start && data[oc..] == EncodeDoc(p.last)
    && Chunked(chunks, p.chunks, MAX_ITER_LEN - 1) && oc == |start| + TotalSize(p.chunks)
  }

  lemma {:induction false} BuiltGrows(p: Pass, start: bytes, data: bytes, chunks: seq<bytes>, oc: nat, limit: nat, es: Doc, more: nat)
    requires Built(p, start, data, chunks, oc, limit) && |EncodeDoc(es)| <= more && limit + more < MAX_ITER_LEN
    ensures Built(Pass(p.chunks, p.last + es), start, data + EncodeDoc(es), chunks, oc, limit + more)
  {
    EncodeConcat(p.last, es);
    SliceGrows(data, EncodeDoc(es), oc);
    SliceGrows(data, EncodeDoc(es), |start|);
  }

  lemma BuiltCut(p: Pass, start: bytes, data: bytes, chunks: seq<bytes>, oc: nat, limit: nat)
    requires Built(p, start, data, chunks, oc, limit)
    ensures Built(Pass(p.chunks + [p.last], []), start, data, chunks + [data[oc..]], |data|, limit)
  {
    ChunkedGrows(chunks, p.chunks, MAX_ITER_LEN - 1, data[oc..], p.last);
    SumGrows<Doc>(DocSize, p.chunks, p.last);
  }

  /** Does the input fail to ascend from one record to the next? */
  function CutsAt(k: Kind, at: Next, next: Next): bool
    requires at.Piece? && next.Piece?
  {
    match (SeenElem(at.lit, at.key, at.val), SeenElem(next.lit, next.key, next.val))
    case (Some(a), Some(b)) => Cuts(k, a, b)
    case _ => false
  }

  /** Appends the normal form of the records of rdx; false if some value is malformed. */
  method NormalizeInto(buf: Marks.TlvBuffer, k: Kind, rdx: bytes) returns (ok: bool)
    requires WellFramed(rdx) && |rdx| < MAX_ITER_LEN
    requires MarksFit(buf) && Under(buf, k)
    modifies buf
    ensures ok == Accept(rdx).Some?
    ensures ok ==> buf.stack == old(buf.stack)
    ensures ok ==> buf.data == old(buf.data) + EncodeDoc(NormKids(HEAP, k, Accept(rdx).value))
    ensures ok ==> |buf.data| <= |old(buf.data)| + |rdx|
    decreases |rdx|, 2
  {
    ghost var start := buf.data;
    var ol := |buf.data|;
    var chunks, oc;
    ok, chunks, oc := NormalizeAll(buf, k, rdx);
    if ok {
      SeenIsDecoded(rdx);
      MergeRuns(buf, k, ol, chunks, oc, Seen(rdx), start, |rdx|);
    }
  }

  /** The loop over the records. */
  method NormalizeAll(buf: Marks.TlvBuffer, k: Kind, rdx: bytes) returns (ok: bool, chunks: seq<bytes>, oc: nat)
    requires WellFramed(rdx) && |rdx| < MAX_ITER_LEN
    requires MarksFit(buf) && Under(buf, k)
    modifies buf
    ensures ok == Accept(rdx).Some?
    ensures ok ==> buf.stack == old(buf.stack)
    ensures ok ==> Built(Passed(HEAP, k, Seen(rdx)), old(buf.data), buf.data, chunks, oc, |rdx|)
    decreases |rdx|, 1
  {
    ghost var start, stack := buf.data, buf.stack;
    chunks, oc := [], |buf.data|;
    var at := Cut(rdx);
    ghost var cur, done := rdx, [];
    AtTheStart(k, rdx, start);
    while at.Piece?
      invariant at == Cut(cur) && buf.stack == stack && Halfway(k, rdx, cur, done, start, buf.data, chunks, oc)
      decreases |cur|
    {
      ok, chunks, oc, done := NormalizeNext(buf, k, at, chunks, oc, rdx, cur, done, start);
      if !ok {
        return;
      }
      cur := at.rest;
      at := Cut(at.rest);
    }
    AtTheEnd(rdx, cur, done);
    ok := true;
  }

  /** The finished pass: a single run stays where it is, several are merged. */
  method MergeRuns(buf: Marks.TlvBuffer, k: Kind, ol: nat, chunks: seq<bytes>, oc: nat,
                   ghost raw: Doc, ghost start: bytes, ghost limit: nat)
    requires ol == |start| && Built(Passed(HEAP, k, raw), start, buf.data, chunks, oc, limit)
    modifies buf`data
    ensures buf.data == start + EncodeDoc(NormKids(HEAP, k, raw)) && |buf.data| <= |start| + limit
  {
    ghost var p := Passed(HEAP, k, raw);
    if |chunks| > 0 {
      BuiltCut(p, start, buf.data, chunks, oc, limit);
      SplitAt(buf.data, oc);
      var sorted := MergeStreams(buf.data[..ol], k, chunks + [buf.data[oc..]], p.chunks + [p.last]);
      buf.data := sorted;
    } else {
      SplitAt(buf.data, oc);
    }
  }

  /** Between two records: what is done is in the chunks, what is to come is in `cur`. */
  ghost predicate Halfway(k: Kind, rdx: bytes, cur: bytes, done: Doc, start: bytes, data: bytes, chunks: seq<bytes>, oc: nat) {
    && Reading(rdx, cur, done)
    && Built(Cutting(k, done, Seen(cur)), start, data, chunks, oc, |rdx| - |cur|)
  }

  lemma {:induction false} AtTheStart(k: Kind, rdx: bytes, start: bytes)
    requires WellFramed(rdx) && |rdx| < MAX_ITER_LEN
    ensures Halfway(k, rdx, rdx, [], start, start, [], |start|)
  {
    assert [] + Seen(rdx) == Seen(rdx);
    assert Accept(rdx).Some? ==> [] + Accept(rdx).value == Accept(rdx).value;
    assert start[..|start|] == start && start[|start|..] == [];
  }

  lemma {:induction false} AtTheEnd(rdx: bytes, cur: bytes, done: Doc)
    requires Reading(rdx, cur, done) && !Cut(cur).Piece?
    ensures cur == [] && Seen(cur) == [] && Seen(rdx) == done && Accept(rdx) == Some(done)
  {
    assert done + [] == done;
  }

  /** One turn of the loop: append the record at hand, and cut if the next one does not ascend. */
  method NormalizeNext(buf: Marks.TlvBuffer, k: Kind, at: Next, chunks: seq<bytes>, oc: nat,
                       ghost rdx: bytes, ghost cur: bytes, ghost done: Doc, ghost start: bytes)
    returns (ok: bool, chunks': seq<bytes>, oc': nat, ghost done': Doc)
    requires at.Piece? && at == Cut(cur) && Halfway(k, rdx, cur, done, start, buf.data, chunks, oc)
    requires MarksFit(buf) && Under(buf, k)
    modifies buf
    ensures ok == AcceptElem(at.lit, at.key, at.val).Some?
    ensures !ok ==> Accept(rdx) == None
    ensures ok ==>
              && done' == done + [AcceptElem(at.lit, at.key, at.val).value]
              && buf.stack == old(buf.stack) && |at.rest| < |cur|
              && Halfway(k, rdx, at.rest, done', start, buf.data, chunks', oc')
    decreases |cur|, 0
  {
    ghost var before, p := buf.data, Cutting(k, done, Seen(cur));
    ok := AppendNorm(buf, k, at.lit, at.key, at.val);
    chunks', oc', done' := chunks, oc, done;
    if ok {
      ReadingStep(rdx, cur, done, at);
      ghost var e := AcceptElem(at.lit, at.key, at.val).value;
      done' := done + [e];
      BuiltGrows(p, start, before, chunks, oc, |rdx| - |cur|, NormIn(HEAP, k, e), |cur| - |at.rest|);
      CuttingStep(k, done, Seen(cur));
      var next := Cut(at.rest);
      NextCuts(k, done + [e], at, next);
      if next.Piece? && CutsAt(k, at, next) {
        BuiltCut(Passed(HEAP, k, done + [e]), start, buf.data, chunks, oc, |rdx| - |at.rest|);
        chunks', oc' := chunks + [buf.data[oc..]], |buf.data|;
      }
    }
  }

  /** The decision of the loop is the cut of the pass. */
  lemma {:induction false} NextCuts(k: Kind, done: Doc, at: Next, next: Next)
    requires at.Piece? && next == Cut(at.rest) && done != []
    requires SeenElem(at.lit, at.key, at.val) == Some(done[|done| - 1])
    ensures var p := Passed(HEAP, k, done);
            Cutting(k, done, Seen(at.rest))
            == if next.Piece? && CutsAt(k, at, next) then Pass(p.chunks + [p.last], []) else p
  {
  }

  /** Appends the normal form of one record. */
  method AppendNorm(buf: Marks.TlvBuffer, ghost k: Kind, lit: byte, key: bytes, val: bytes) returns (ok: bool)
    requires IsKnown(lit) && |val| < MAX_ITER_LEN
    requires IsPlexLit(lit) ==> WellFramed(val)
    requires MarksFit(buf) && Under(buf, k)
    modifies buf
    ensures ok == AcceptElem(lit, key, val).Some?
    ensures ok ==> buf.stack == old(buf.stack)
    ensures ok ==> buf.data == old(buf.data) + EncodeDoc(NormIn(HEAP, k, AcceptElem(lit, key, val).value))
    ensures ok ==> |EncodeDoc(NormIn(HEAP, k, AcceptElem(lit, key, val).value))| <= Framed(1 + |key| + |val|)
    decreases |val|, 4
  {
    if !IsPlexLit(lit) {
      ok := AppendFirst(buf, k, lit, key, val);
    } else {
      ok := AppendPlex(buf, k, lit, key, val);
    }
  }

  /** The loop over the characters of a term. */
  method AllLetters(val: bytes) returns (ok: bool)
    ensures ok <==> forall c | c in val :: TextIds.IsLetter(c)
  {
    var i := 0;
    while i < |val|
      invariant 0 <= i <= |val| && forall c | c in val[..i] :: TextIds.IsLetter(c)
    {
      if !TextIds.IsLetter(val[i]) {
        assert val[i] in val;
        return false;
      }
      i := i + 1;
    }
    ok := true;
  }

  method AppendFirst(buf: Marks.TlvBuffer, ghost k: Kind, lit: byte, key: bytes, val: bytes) returns (ok: bool)
    requires IsKnown(lit) && !IsPlexLit(lit)
    modifies buf`data
    ensures ok == AcceptElem(lit, key, val).Some?
    ensures ok ==>
              var es := NormIn(HEAP, k, AcceptElem(lit, key, val).value);
              buf.data == old(buf.data) + EncodeDoc(es) && |EncodeDoc(es)| <= Framed(1 + |key| + |val|)
  {
    match PrimOf(lit, val)
    case None => ok := false;
    case Some(v) =>
      ok := true;
      if lit == 'S' as int {
        ok := IsUtf8(val);
      } else if lit == 'T' as int {
        ok := AllLetters(val);
      }
      if ok {
        ghost var e := First(UnzipID(key), v);
        PrimShrinks(lit, val);
        ElemShrinks(e, key, val);
        EncodeOne(e);
        ElemIsTLV(e);
        buf.data := WriteTLKV(buf.data, lit, ZipID(UnzipID(key)), PrimBytes(v));
      }
  }

  method AppendPlex(buf: Marks.TlvBuffer, ghost k: Kind, lit: byte, key: bytes, val: bytes) returns (ok: bool)
    requires IsPlexLit(lit) && |val| < MAX_ITER_LEN && WellFramed(val)
    requires MarksFit(buf) && Under(buf, k)
    modifies buf
    ensures ok == Accept(val).Some?
    ensures ok ==> buf.stack == old(buf.stack)
    ensures ok ==>
              var es := NormIn(HEAP, k, Plex(KindOf(lit), UnzipID(key), Accept(val).value));
              buf.data == old(buf.data) + EncodeDoc(es) && |EncodeDoc(es)| <= Framed(1 + |key| + |val|)
    decreases |val|, 3
  {
    ghost var start, outer := buf.data, buf.stack;
    var plit, l := OpenPlex(buf, k, lit, UnzipID(key));
    ghost var stack := buf.stack;
    ok := NormalizeInto(buf, KindOf(lit), val);
    if ok {
      ClosePlex(buf, k, lit, plit, l, start, Plex(KindOf(lit), UnzipID(key), Accept(val).value), key, |val|);
      SplitLast(stack);
    }
  }

  /** Opens a record and writes the id; notes the type of the record around it. */
  method OpenPlex(buf: Marks.TlvBuffer, ghost k: Kind, lit: byte, id: ID) returns (plit: byte, l: nat)
    requires IsPlexLit(lit) && MarksFit(buf) && Under(buf, k)
    modifies buf
    ensures k == E <==> plit == KindLit(E)
    ensures buf.stack == old(buf.stack) + [Marks.OpenMark(old(buf.data), lit, false)]
    ensures buf.data == old(buf.data) + Marks.OpenHeader(lit, false) + [|ZipID(id)| as byte] + ZipID(id)
    ensures l == |buf.data| && MarksFit(buf) && Under(buf, KindOf(lit))
  {
    plit := if |buf.stack| == 0 then 0 else buf.stack[|buf.stack| - 1].lit;
    buf.OpenTLV(lit);
    var idbytes := ZipID(id);
    buf.data := buf.data + [|idbytes|] + idbytes;
    l := |buf.data|;
  }

  /** A tuple that stayed empty is taken back if it stands in a set; any other record is closed. */
  method ClosePlex(buf: Marks.TlvBuffer, ghost k: Kind, lit: byte, plit: byte, l: nat,
                   ghost start: bytes, ghost e: Elem, ghost key: bytes, ghost size: nat)
    requires e.Plex? && lit == Lit(e) && e.id == UnzipID(key) && (k == E <==> plit == KindLit(E))
    requires buf.stack != [] && buf.stack[|buf.stack| - 1] == Marks.OpenMark(start, lit, false)
    requires MarksFit(buf) && |EncodeDoc(NormKids(HEAP, e.kind, e.kids))| <= size
    requires var zip := ZipID(e.id);
             var head := start + Marks.OpenHeader(lit, false) + [|zip| as byte] + zip;
             l == |head| && buf.data == head + EncodeDoc(NormKids(HEAP, e.kind, e.kids))
    modifies buf
    ensures buf.stack == old(buf.stack)[..|old(buf.stack)| - 1]
    ensures buf.data == start + EncodeDoc(NormIn(HEAP, k, e)) && |EncodeDoc(NormIn(HEAP, k, e))| <= Framed(1 + |key| + size)
  {
    EmptyTupleWritesNothing(e);
    if lit == KindLit(P) && plit == KindLit(E) && l == |buf.data| {
      assert buf.data[..|start|] == start && start + [] == start;
      var ok := buf.CancelTLV(lit);
    } else {
      PlexCloses(start, e, key, size, buf.stack[|buf.stack| - 1], buf.data);
      var ok := buf.CloseTLV(lit);
    }
  }

  lemma EmptyTupleWritesNothing(e: Elem)
    requires e.Plex?
    ensures e.kind == P ==> (EncodeDoc(NormKids(HEAP, P, e.kids)) == [] <==> e.kids == [])
  {
    if e.kind == P {
      PassedPositional(HEAP, P, e.kids);
    }
  }

  lemma HeaderAndBody(start: bytes, head: bytes, zip: bytes, kids: bytes)
    requires |zip| <= 0xff
    ensures start + head + [|zip| as byte] + zip + kids == start + head + Body(zip, kids)
  {
  }

  /** Header, id and normal contents close into the normal form of the element. */
  lemma {:induction false} PlexCloses(start: bytes, e: Elem, key: bytes, size: nat, mark: Marks.Mark, data: bytes)
    requires e.Plex? && e.id == UnzipID(key) && mark == Marks.OpenMark(start, Lit(e), false)
    requires |EncodeDoc(NormKids(HEAP, e.kind, e.kids))| <= size
    requires var zip := ZipID(e.id);
             data == start + Marks.OpenHeader(Lit(e), false) + [|zip| as byte] + zip + EncodeDoc(NormKids(HEAP, e.kind, e.kids))
    ensures Marks.Closed(data, mark, Lit(e)) == Marks.Ok(start + EncodeDoc([NormElem(HEAP, e)]))
    ensures |EncodeDoc([NormElem(HEAP, e)])| <= Framed(1 + |key| + size)
  {
    var n := NormElem(HEAP, e);
    var zip, kids := ZipID(e.id), EncodeDoc(NormKids(HEAP, e.kind, e.kids));
    HeaderAndBody(start, Marks.OpenHeader(Lit(e), false), zip, kids);
    Marks.CloseMakesRecord(start, Lit(e), false, Body(zip, kids), mark);
    ElemIsTLV(n);
    EncodeOne(n);
    ElemSize(n);
    ZipIsShortest(key);
  }

  // ---- what an encoded document looks like to the normalizer

  /** Every encoded document is whole records of known types, at every level. */
  lemma {:induction false} EncodedIsWellFramed(d: Doc)
    requires |EncodeDoc(d)| < MAX_ITER_LEN
    ensures WellFramed(EncodeDoc(d))
    decreases d
  {
    if d != [] {
      var e, rest := d[0], EncodeDoc(d[1..]);
      ElemIsRec(e);
      CutUndoesWrite(Rec(Lit(e), ZipID(e.id), Payload(e)), rest);
      EncodedIsWellFramed(d[1..]);
      if e.Plex? {
        EncodedIsWellFramed(e.kids);
      }
    }
  }

  /**
   The normalizer: accepts exactly the well-formed buffers, never writes more than it read, and what
   it wrote it takes again. Exactly the normal buffers stay as they are, byte for byte, and up to seven
   runs in every container, the output is one of them.
   */
  method Normalize(rdx: bytes) returns (ok: bool, norm: bytes)
    requires WellFramed(rdx) && |rdx| < MAX_ITER_LEN
    ensures ok == Accept(rdx).Some?
    ensures ok ==> norm == EncodeDoc(Normalized(Accept(rdx).value)) && |norm| <= |rdx|
    ensures ok ==> WellFramed(norm) && Accept(norm) == Some(Normalized(Accept(rdx).value))
    ensures ok && Few(SEVEN, P, Accept(rdx).value) ==> NormalKids(P, Accept(norm).value) && InPlace(P, Accept(norm).value)
    ensures ok && Sortable(P, Accept(rdx).value) ==> norm == EncodeDoc(NormDoc(Accept(rdx).value))
    ensures ok && rdx == EncodeDoc(Accept(rdx).value) ==> (norm == rdx <==> NormalKids(P, Accept(rdx).value))
  {
    var buf := new Marks.TlvBuffer();
    ok := NormalizeInto(buf, P, rdx);
    norm := buf.data;
    if ok {
      ghost var d := Accept(rdx).value;
      assert [] + EncodeDoc(Normalized(d)) == norm;
      DecodeUndoesEncode(Normalized(d));
      EncodedIsWellFramed(Normalized(d));
      NormKidsHold(CLEAN, P, d);
      if Few(SEVEN, P, d) {
        NormalizedIsNormal(d);
      }
      FixedIff(P, d);
      if Sortable(P, d) {
        SortableIsFold(P, d);
      }
    }
  }

  /** Normalizing what was normalized changes nothing, bit for bit, exactly when it is normal by then. */
  method NormalizeTwice(rdx: bytes) returns (ok: bool, once: bytes, twice: bytes)
    requires WellFramed(rdx) && |rdx| < MAX_ITER_LEN
    ensures ok == Accept(rdx).Some?
    ensures ok ==> once == EncodeDoc(Normalized(Accept(rdx).value))
    ensures ok ==> (twice == once <==> NormalKids(P, Normalized(Accept(rdx).value)))
    ensures ok && Few(SEVEN, P, Accept(rdx).value) ==> twice == once
  {
    ok, once := Normalize(rdx);
    twice := [];
    if ok {
      ok, twice := Normalize(once);
    }
  }

  /** Merging up to seven normalized buffers gives a buffer that normalizing leaves as it is, bit for bit. */
  method MergeNormalized(bare: seq<bytes>, ghost docs: seq<Doc>) returns (ret: bytes, norm: bytes)
    requires Chunked(bare, docs, MAX_ITER_LEN - 1) && |docs| <= 7 && AllNormal(P, docs) && forall d | d in docs :: AllHold(CLEAN, d)
    requires TotalSize(docs) < MAX_ITER_LEN
    ensures norm == ret == EncodeDoc(HeapMerged(P, docs))
  {
    ret := MergeStreams([], P, bare, docs);
    MergedIsNormalBytes(docs, ret);
    var ok;
    ok, norm := Normalize(ret);
  }

  lemma {:induction false} MergedIsNormalBytes(docs: seq<Doc>, ret: bytes)
    requires |docs| <= 7 && AllNormal(P, docs) && TotalSize(docs) < MAX_ITER_LEN && forall d | d in docs :: AllHold(CLEAN, d)
    requires ret == [] + EncodeDoc(HeapMerged(P, docs)) && |ret| <= TotalSize(docs)
    ensures ret == EncodeDoc(HeapMerged(P, docs)) && WellFramed(ret)
    ensures Accept(ret) == Some(HeapMerged(P, docs)) && NormalKids(P, HeapMerged(P, docs))
  {
    var m := HeapMerged(P, docs);
    assert ret == EncodeDoc(m);
    EngineKeepsNormal(P, docs);
    EncodedIsWellFramed(m);
    DecodeUndoesEncode(m);
    MergeHolds(CLEAN, P, docs);
  }

  // ---- when the normal form is the one made by the two-way merge

  /** The runs of every container fit one world, and there are at most seven. */
  ghost predicate Sortable(k: Kind, raw: Doc)
    decreases raw
  {
    var p := Passed(FOLD, k, raw);
    && (p.chunks != [] ==> exists w, c :: Mergeable(w, c, k, Start, p.chunks + [p.last]))
    && forall e | e in raw && e.Plex? :: Sortable(e.kind, e.kids)
  }

  lemma {:induction false} SortablePass(k: Kind, raw: Doc)
    requires forall e | e in raw && e.Plex? :: Sortable(e.kind, e.kids)
    ensures Passed(HEAP, k, raw) == Passed(FOLD, k, raw)
    decreases raw, 0
  {
    if raw != [] {
      var n := |raw| - 1;
      assert raw[n] in raw && forall e | e in raw[..n] :: e in raw;
      SortablePass(k, raw[..n]);
      if raw[n].Plex? {
        SortableIsFold(raw[n].kind, raw[n].kids);
      }
      assert NormElem(HEAP, raw[n]) == NormElem(FOLD, raw[n]);
    }
  }

  /** Then the output holds, at every key, the folded spot-merge of all input elements with that key. */
  lemma {:induction false} SortableIsFold(k: Kind, raw: Doc)
    requires Sortable(k, raw)
    ensures NormKids(HEAP, k, raw) == NormKids(FOLD, k, raw)
    decreases raw, 1
  {
    SortablePass(k, raw);
    var p := Passed(FOLD, k, raw);
    if p.chunks != [] {
      var w, c :| Mergeable(w, c, k, Start, p.chunks + [p.last]);
      MergedIsFold(w, c, k, Start, p.chunks + [p.last]);
    }
  }
}
