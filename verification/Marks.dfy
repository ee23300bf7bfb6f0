/** Nested records written in place: within long or short, closed by moving the body. */
module Marks {
  import opened Ids
  import opened Seqs
  import opened Zip
  import opened Tlv

  /** An open record: where it starts, and what the text parser remembers about its last child. */
  datatype Mark = Mark(start: nat, lastBreak: nat, lastElement: nat, lit: byte, pre: byte)

  datatype Result<+T> = Ok(value: T) | Refused

  function Upper(c: byte): byte { if HasCaseBit(c) then c - CASE_BIT else c }

  function OpenHeader(lit: byte, short: bool): bytes
    requires IsUpper(lit)
  {
    if short then [lit + CASE_BIT, 0] else [lit, 0, 0, 0, 0]
  }

  function OpenMark(data: bytes, lit: byte, short: bool): Mark
    requires IsUpper(lit)
  {
    Mark(|data|, 0, 0, if short then lit + CASE_BIT else lit, 0)
  }

  /** The buffer after closing the record of mark `last`; the mark itself is popped in any case. */
  function Closed(data: bytes, last: Mark, lit: byte): Result<bytes> {
    var s := last.start;
    if Upper(last.lit) != lit || s + 2 > |data| || Upper(data[s]) != lit then Refused
    else if !HasCaseBit(data[s]) then
      var fact := |data| - s - 5;
      if fact < 0 then Refused
      else if fact < 0x100 then Ok(data[..s] + [data[s] + CASE_BIT, fact] + data[s + 5..])
      else Ok(data[..s + 1] + Put(fact, 4) + data[s + 5..])
    else
      var fact := |data| - s - 2;
      if fact < 0x100 then Ok(data[..s + 1] + [fact] + data[s + 2..])
      else Ok(data[..s] + [data[s] - CASE_BIT] + Put(fact, 4) + data[s + 2..])
  }

  /** Closing turns header and body into a record, long or short as its length demands. */
  lemma CloseMakesRecord(pre: bytes, lit: byte, short: bool, body: bytes, last: Mark)
    requires IsUpper(lit) && last.start == |pre| && last.lit == (if short then lit + CASE_BIT else lit)
    ensures Closed(pre + OpenHeader(lit, short) + body, last, lit) == Ok(pre + TLV(lit, body))
  {
    var up: byte := lit + CASE_BIT;
    Pieces(pre, OpenHeader(lit, short), body);
    assert !HasCaseBit(lit) && HasCaseBit(up) && up - CASE_BIT == lit;
    if |body| > 0xff {
      Regroups(pre, [lit], Put(|body|, 4), body);
    } else {
      var n: byte := |body|;
      assert [up] + [n] == [up, n];
      Regroups(pre, [up], [n], body);
      Associates(pre, [up, n], body);
    }
  }

  class TlvBuffer {
    var data: bytes
    var stack: seq<Mark>

    constructor ()
      ensures data == [] && stack == []
    {
      data, stack := [], [];
    }

    method OpenTLV(lit: byte)
      requires IsUpper(lit)
      modifies this
      ensures data == old(data) + OpenHeader(lit, false)
      ensures stack == old(stack) + [OpenMark(old(data), lit, false)]
    {
      stack := stack + [Mark(|data|, 0, 0, lit, 0)];
      data := data + [lit, 0, 0, 0, 0];
    }

    method OpenShortTLV(lit: byte)
      requires IsUpper(lit)
      modifies this
      ensures data == old(data) + OpenHeader(lit, true)
      ensures stack == old(stack) + [OpenMark(old(data), lit, true)]
    {
      var low := lit + CASE_BIT;
      stack := stack + [Mark(|data|, 0, 0, low, 0)];
      data := data + [low, 0];
    }

    /** Drops the open record altogether. */
    method CancelTLV(lit: byte) returns (ok: bool)
      requires forall m | m in stack :: m.start <= |data|
      modifies this
      ensures ok == (old(stack) != [] && Upper(old(stack)[|old(stack)| - 1].lit) == lit)
      ensures !ok ==> data == old(data) && stack == old(stack)
      ensures ok ==> data == old(data)[..old(stack)[|old(stack)| - 1].start] && stack == old(stack)[..|old(stack)| - 1]
    {
      if |stack| == 0 {
        return false;
      }
      var nl := |stack| - 1;
      var last := stack[nl];
      if Upper(last.lit) != lit {
        return false;
      }
      data := data[..last.start];
      stack := stack[..nl];
      return true;
    }

    /** Closes the open record: the body moves to fit the header it needs. */
    method CloseTLV(lit: byte) returns (ok: bool)
      modifies this
      ensures old(stack) == [] ==> !ok && stack == [] && data == old(data)
      ensures old(stack) != [] ==>
                && stack == old(stack)[..|old(stack)| - 1]
                && match Closed(old(data), old(stack)[|old(stack)| - 1], lit)
                   case Ok(d) => ok && data == d
                   case Refused => !ok && data == old(data)
    {
      if |stack| == 0 {
        return false;
      }
      var nl := |stack| - 1;
      var last := stack[nl];
      var s := last.start;
      stack := stack[..nl];
      if Upper(last.lit) != lit || s + 2 > |data| || Upper(data[s]) != lit {
        return false;
      }
      ghost var was := data;
      var fact: int := |data| - s;
      if !HasCaseBit(data[s]) {
        fact := fact - 5;
        if fact < 0 {
          return false;
        }
        if fact < 0x100 {
          data := data[..s + 2] + data[s + 5..];
          data := data[s := data[s] + CASE_BIT];
        }
      } else {
        fact := fact - 2;
        if fact >= 0x100 {
          data := data[..s + 2] + [0, 0, 0] + data[s + 2..];
          data := data[s := data[s] - CASE_BIT];
        }
      }
      if fact < 0x100 {
        data := data[s + 1 := fact];
      } else {
        data := data[..s + 1] + Put(fact, 4) + data[s + 5..];
      }
      assert Closed(was, last, lit).Ok? && data == Closed(was, last, lit).value;
      return true;
    }

    /** `AppendPLEX`: a container record written around its payload. */
    method AppendPLEX(lit: byte, id: ID, val: bytes)
      requires IsUpper(lit)
      modifies this
      ensures data == old(data) + TLV(lit, Body(ZipID(id), val)) && stack == old(stack)
    {
      ghost var pre := data;
      var short := |val| <= 0xff;
      if short {
        OpenShortTLV(lit);
      } else {
        OpenTLV(lit);
      }
      var zip := ZipID(id);
      data := data + [|zip|];
      data := data + zip;
      data := data + val;
      assert data == pre + OpenHeader(lit, short) + Body(zip, val);
      CloseMakesRecord(pre, lit, short, Body(zip, val), stack[|stack| - 1]);
      var ok := CloseTLV(lit);
      assert stack == old(stack);
    }
  }

  // ---- any nesting of writes

  type Letter = c: int | 'A' as int <= c <= 'Z' as int witness 'P' as int

  /** A properly nested program of writes: raw bytes, or a record with its contents. */
  datatype Item = Raw(b: bytes) | Node(lit: Letter, id: ID, short: bool, items: seq<Item>)

  /** What the program should leave: the recursive encoding. */
  function Render(items: seq<Item>): bytes {
    if items == [] then [] else RenderOne(items[0]) + Render(items[1..])
  }

  function RenderOne(item: Item): bytes {
    match item
    case Raw(b) => b
    case Node(lit, id, _, inner) => TLV(lit, Body(ZipID(id), Render(inner)))
  }

  datatype Op = Begin(lit: Letter, id: ID, short: bool) | Append(b: bytes) | Finish(lit: Letter)

  /** The calls the program makes, in order. */
  function Calls(items: seq<Item>): seq<Op> {
    if items == [] then [] else CallsOf(items[0]) + Calls(items[1..])
  }

  function CallsOf(item: Item): seq<Op> {
    match item
    case Raw(b) => [Append(b)]
    case Node(lit, id, short, inner) => [Begin(lit, id, short)] + (Calls(inner) + [Finish(lit)])
  }

  /** A machine run over the calls. */
  function Run<O, S>(step: (O, S) -> Result<S>, ops: seq<O>, s: S): Result<S> {
    if ops == [] then Ok(s)
    else
      match step(ops[0], s)
      case Ok(t) => Run(step, ops[1..], t)
      case Refused => Refused
  }

  lemma {:induction false} RunConcat<O, S>(step: (O, S) -> Result<S>, a: seq<O>, b: seq<O>, s: S, t: S)
    requires Run(step, a, s) == Ok(t)
    ensures Run(step, a + b, s) == Run(step, b, t)
    decreases |a|
  {
    if a == [] {
      assert a + b == b;
    } else {
      assert (a + b)[1..] == a[1..] + b;
      RunConcat(step, a[1..], b, step(a[0], s).value, t);
    }
  }

  lemma {:induction false} RunFails<O, S>(step: (O, S) -> Result<S>, a: seq<O>, b: seq<O>, s: S)
    requires Run(step, a, s) == Refused
    ensures Run(step, a + b, s) == Refused
    decreases |a|
  {
    assert (a + b)[1..] == a[1..] + b;
    if step(a[0], s).Ok? {
      RunFails(step, a[1..], b, step(a[0], s).value);
    }
  }

  lemma RunOne<O, S>(step: (O, S) -> Result<S>, op: O, s: S)
    ensures Run(step, [op], s) == step(op, s)
  {
    assert [op][1..] == [];
  }

  /** A record in three parts: opening, contents, closing. */
  lemma {:induction false} RunNode<S>(step: (Op, S) -> Result<S>, n: Item, s: S, t: S, u: S, v: S)
    requires n.Node? && step(Begin(n.lit, n.id, n.short), s) == Ok(t)
    requires Run(step, Calls(n.items), t) == Ok(u) && step(Finish(n.lit), u) == Ok(v)
    ensures Run(step, CallsOf(n), s) == Ok(v)
  {
    RunOne(step, Begin(n.lit, n.id, n.short), s);
    RunOne(step, Finish(n.lit), u);
    RunConcat(step, Calls(n.items), [Finish(n.lit)], t, u);
    RunConcat(step, [Begin(n.lit, n.id, n.short)], Calls(n.items) + [Finish(n.lit)], s, t);
  }

  datatype Writer = Writer(data: bytes, stack: seq<Mark>)

  /** The calls on a buffer and its mark stack. */
  function MarkStep(op: Op, w: Writer): Result<Writer> {
    match op
    case Append(b) => Ok(w.(data := w.data + b))
    case Begin(lit, id, short) =>
      Ok(Writer(w.data + OpenHeader(lit, short) + Body(ZipID(id), []), w.stack + [OpenMark(w.data, lit, short)]))
    case Finish(lit) =>
      if w.stack == [] then Refused
      else
        match Closed(w.data, w.stack[|w.stack| - 1], lit)
        case Ok(d) => Ok(Writer(d, w.stack[..|w.stack| - 1]))
        case Refused => Refused
  }

  /** The calls on a builder: a stack of byte strings, the innermost last. */
  function BuilderStep(op: Op, b: seq<bytes>): Result<seq<bytes>> {
    if b == [] then Refused
    else
      match op
      case Append(add) => Ok(b[|b| - 1 := b[|b| - 1] + add])
      case Begin(lit, id, _) => Ok(Into(b, lit, id))
      case Finish(_) => Outo(b)
  }

  function Into(b: seq<bytes>, lit: byte, id: ID): seq<bytes>
    requires b != []
  {
    var last := |b| - 1;
    b[last := b[last] + [lit] + ZipID(id) + [|ZipID(id)|]] + [[]]
  }

  /** Reads the id back from the end of the outer string, then writes the header over it. */
  function Outo(b: seq<bytes>): Result<seq<bytes>> {
    if |b| < 2 || b[|b| - 2] == [] then Refused
    else
      var inner := b[|b| - 1];
      var outer := b[|b| - 2];
      var ll := |outer|;
      var idlen: int := outer[ll - 1];
      if ll - idlen - 1 < 1 then Refused
      else
        var id := outer[ll - idlen - 1..ll - 1];
        var head := outer[..ll - idlen - 1];
        var tl := |inner| + 1 + idlen;
        Ok(b[..|b| - 2] + [Sized(head, tl) + [idlen] + id + inner])
  }

  function Sized(head: bytes, tl: nat): bytes
    requires head != []
  {
    var l := head[|head| - 1];
    if tl <= 0xff then head[..|head| - 1] + [if HasCaseBit(l) then l else l + CASE_BIT] + [tl]
    else head + Put(tl, 4)
  }

  /** Any properly nested calls write the recursive encoding; outer bytes and marks stay as they are. */
  lemma {:induction false} MarksRender(items: seq<Item>, w: Writer)
    ensures Run(MarkStep, Calls(items), w) == Ok(w.(data := w.data + Render(items)))
    decreases items, 1
  {
    if items == [] {
      assert w.data + [] == w.data;
    } else {
      var v := w.(data := w.data + RenderOne(items[0]));
      MarksRenderOne(items[0], w);
      MarksRender(items[1..], v);
      RunConcat(MarkStep, CallsOf(items[0]), Calls(items[1..]), w, v);
      Associates(w.data, RenderOne(items[0]), Render(items[1..]));
    }
  }

  lemma {:induction false} MarksRenderOne(n: Item, w: Writer)
    ensures Run(MarkStep, CallsOf(n), w) == Ok(w.(data := w.data + RenderOne(n)))
    decreases n, 0
  {
    match n
    case Raw(b) => RunOne(MarkStep, Append(b), w);
    case Node(lit, id, short, inner) =>
      var mark := OpenMark(w.data, lit, short);
      var t := MarkStep(Begin(lit, id, short), w).value;
      MarksRender(inner, t);
      var u := t.(data := t.data + Render(inner));
      var body := Body(ZipID(id), Render(inner));
      assert u.data == w.data + OpenHeader(lit, short) + body;
      CloseMakesRecord(w.data, lit, short, body, mark);
      assert u.stack[..|u.stack| - 1] == w.stack && u.stack[|u.stack| - 1] == mark;
      RunNode(MarkStep, n, w, t, u, w.(data := w.data + TLV(lit, body)));
  }

  /** The builder writes the same bytes. */
  lemma {:induction false} BuilderRenders(items: seq<Item>, b: seq<bytes>)
    requires b != []
    ensures Run(BuilderStep, Calls(items), b) == Ok(b[|b| - 1 := b[|b| - 1] + Render(items)])
    decreases items, 1
  {
    var last := |b| - 1;
    if items == [] {
      assert b[last] + [] == b[last] && b[last := b[last]] == b;
    } else {
      var c := b[last := b[last] + RenderOne(items[0])];
      BuilderRendersOne(items[0], b);
      BuilderRenders(items[1..], c);
      RunConcat(BuilderStep, CallsOf(items[0]), Calls(items[1..]), b, c);
      LastGrowsTwice(b, RenderOne(items[0]), Render(items[1..]));
    }
  }

  lemma LastGrowsTwice(b: seq<bytes>, x: bytes, y: bytes)
    requires b != []
    ensures var last := |b| - 1;
            var c := b[last := b[last] + x];
            c[last := c[last] + y] == b[last := b[last] + (x + y)]
  {
    Associates(b[|b| - 1], x, y);
  }

  lemma {:induction false} BuilderRendersOne(n: Item, b: seq<bytes>)
    requires b != []
    ensures Run(BuilderStep, CallsOf(n), b) == Ok(b[|b| - 1 := b[|b| - 1] + RenderOne(n)])
    decreases n, 0
  {
    match n
    case Raw(add) => RunOne(BuilderStep, Append(add), b);
    case Node(lit, id, short, inner) =>
      var t := Into(b, lit, id);
      BuilderRenders(inner, t);
      assert t[|t| - 1] + Render(inner) == Render(inner);
      var u := t[|t| - 1 := Render(inner)];
      OutoUndoesInto(b, lit, id, Render(inner));
      RunNode(BuilderStep, n, b, t, u, b[|b| - 1 := b[|b| - 1] + RenderOne(n)]);
  }

  lemma SizedHead(pre: bytes, lit: Letter, n: nat)
    ensures Sized(pre + [lit], n) == pre + Header(lit, n)
  {
    var head := pre + [lit];
    assert head[..|head| - 1] == pre && head[|head| - 1] == lit;
    if n <= 0xff {
      var up: byte := lit + CASE_BIT;
      assert pre + [up] + [n as byte] == pre + [up, n as byte];
    } else {
      assert head + Put(n, 4) == pre + ([lit] + Put(n, 4));
    }
  }

  lemma OutoUndoesInto(b: seq<bytes>, lit: Letter, id: ID, inner: bytes)
    requires b != []
    ensures var t := Into(b, lit, id);
            Outo(t[|t| - 1 := inner]) == Ok(b[|b| - 1 := b[|b| - 1] + TLV(lit, Body(ZipID(id), inner))])
  {
    var zip := ZipID(id);
    var last := |b| - 1;
    var lead := b[last] + [lit];
    var outer := lead + zip + [|zip|];
    var t := Into(b, lit, id);
    var u := t[|t| - 1 := inner];
    InnermostTwo(b, outer, inner);
    OutoReadsBack(u, lead, zip);
    OutoWrites(b[last], lit, zip, inner);
    var whole := b[last] + TLV(lit, Body(zip, inner));
    assert Outo(u) == Ok(b[..last] + [whole]);
    LastReplaced(b, whole);
  }

  lemma OutoReadsBack(u: seq<bytes>, lead: bytes, zip: bytes)
    requires |u| > 1 && lead != [] && |zip| <= 16 && u[|u| - 2] == lead + zip + [|zip| as byte]
    ensures var inner := u[|u| - 1];
            Outo(u) == Ok(u[..|u| - 2] + [Sized(lead, |inner| + 1 + |zip|) + [|zip|] + zip + inner])
  {
    OuterParts(lead, zip);
  }

  lemma InnermostTwo(b: seq<bytes>, outer: bytes, inner: bytes)
    requires b != []
    ensures var u := (b[|b| - 1 := outer] + [[]])[|b| := inner];
            |u| == |b| + 1 && u[|u| - 2] == outer && u[|u| - 1] == inner && u[..|u| - 2] == b[..|b| - 1]
  {
  }

  lemma OuterParts(lead: bytes, zip: bytes)
    requires |zip| <= 0xff
    ensures var outer := lead + zip + [|zip| as byte];
            var ll := |outer|;
            outer[ll - |zip| - 1..ll - 1] == zip && outer[..ll - |zip| - 1] == lead && outer[ll - 1] == |zip|
  {
  }

  lemma LastReplaced(b: seq<bytes>, x: bytes)
    requires b != []
    ensures b[..|b| - 1] + [x] == b[|b| - 1 := x]
  {
  }

  lemma OutoWrites(pre: bytes, lit: Letter, zip: bytes, inner: bytes)
    requires |zip| <= 16
    ensures Sized(pre + [lit], |inner| + 1 + |zip|) + [|zip|] + zip + inner == pre + TLV(lit, Body(zip, inner))
  {
    var tl := |inner| + 1 + |zip|;
    var body := Body(zip, inner);
    SizedHead(pre, lit, tl);
    assert |body| == tl && body == [|zip|] + zip + inner;
    Regroups(pre + Header(lit, tl), [|zip|], zip, inner);
    Associates(pre, Header(lit, tl), body);
  }

  /** The two serializers agree on every properly nested sequence of calls. */
  lemma {:induction false} SerializersAgree(items: seq<Item>)
    ensures Run(MarkStep, Calls(items), Writer([], [])) == Ok(Writer(Render(items), []))
    ensures Run(BuilderStep, Calls(items), [[]]) == Ok([Render(items)])
  {
    MarksRender(items, Writer([], []));
    BuilderRenders(items, [[]]);
    assert [] + Render(items) == Render(items);
    assert [[]][0 := Render(items)] == [Render(items)];
  }
}
