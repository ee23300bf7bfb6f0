/** The second serializer: a stack of byte strings, one per open record. */
module Builder {
  import opened Ids
  import opened Elements
  import opened Seqs
  import opened Zip
  import opened Tlv
  import opened Wire
  import Marks

  class Builder {
    var b: seq<bytes>

    constructor ()
      ensures b == [[]]
    {
      b := [[]];
    }

    /** One more call on the stack of byte strings. */
    ghost predicate Did(op: Marks.Op, was: seq<bytes>)
      reads this
    {
      Marks.BuilderStep(op, was) == Marks.Ok(b)
    }

    method Append(bs: bytes)
      requires b != []
      modifies this
      ensures b == old(b)[|old(b)| - 1 := old(b)[|old(b)| - 1] + bs]
    {
      var last := |b| - 1;
      b := b[last := b[last] + bs];
    }

    method Stream(add: bytes)
      requires b != []
      modifies this
      ensures Did(Marks.Append(add), old(b))
    {
      Append(add);
    }

    /** Opens a record: the id is parked behind the letter, to be read back at the end. */
    method Into(lit: Marks.Letter, id: ID)
      requires b != []
      modifies this
      ensures b == Marks.Into(old(b), lit, id)
      ensures forall short :: Did(Marks.Begin(lit, id, short), old(b))
    {
      var idb := ZipID(id);
      ghost var was := b;
      Append([lit]);
      Append(idb);
      Append([|idb|]);
      b := b + [[]];
      assert b == Marks.Into(was, lit, id);
    }

    method Into0(lit: Marks.Letter)
      requires b != []
      modifies this
      ensures b == Marks.Into(old(b), lit, ID0)
    {
      ghost var was := b;
      assert ZipID(ID0) == [];
      Append([lit as byte, 0]);
      b := b + [[]];
      assert was[|was| - 1] + [lit as byte, 0] == was[|was| - 1] + [lit] + [] + [0];
    }

    /** Closes a record: cuts the id off, writes the header in its place, then id and contents. */
    method Outo(lit: Marks.Letter)
      requires Marks.Outo(b).Ok?
      modifies this
      ensures Did(Marks.Finish(lit), old(b))
    {
      ghost var was := b;
      var inner := b[|b| - 1];
      b := b[..|b| - 1];
      var s := b[|b| - 1];
      var ll := |s|;
      var idlen: int := s[ll - 1];
      var id := s[ll - idlen - 1..ll - 1];
      s := WriteHeader(s[..ll - idlen - 1], |inner| + 1 + idlen);
      s := s + [idlen];
      s := s + id;
      s := s + inner;
      b := b[|b| - 1 := s];
      assert b == was[..|was| - 2] + [s];
    }

    /** The letter becomes a short header, or gets its four length bytes. */
    method WriteHeader(head: bytes, tl: nat) returns (s: bytes)
      requires head != []
      ensures s == Marks.Sized(head, tl)
    {
      s := head;
      if tl <= 0xff {
        if !HasCaseBit(s[|s| - 1]) {
          s := s[|s| - 1 := s[|s| - 1] + CASE_BIT];
        }
        s := s + [tl];
        SplitLast(head);
      } else {
        s := s + Put(tl, 4);
      }
    }

    /** A value element, header first. */
    method FIRST(lit: Marks.Letter, val: bytes, id: ID)
      requires b != []
      modifies this
      ensures b == old(b)[|old(b)| - 1 := old(b)[|old(b)| - 1] + TLV(lit, Body(ZipID(id), val))]
    {
      ghost var was := b[|b| - 1];
      var idb := ZipID(id);
      var kvlen := |val| + |idb| + 1;
      if kvlen <= 0xff {
        Append([lit + CASE_BIT, kvlen]);
      } else {
        Append([lit]);
        Append(Put(kvlen, 4));
      }
      Append([|idb|]);
      Append(idb);
      Append(val);
      RecordAppended(was, lit, idb, val);
    }
  }

  lemma RecordAppended(was: bytes, lit: Marks.Letter, idb: bytes, val: bytes)
    requires |idb| <= 16
    ensures var n := |val| + |idb| + 1;
            var rec := was + TLV(lit, Body(idb, val));
            && (n <= 0xff ==> was + [lit + CASE_BIT, n as byte] + [|idb| as byte] + idb + val == rec)
            && (n > 0xff ==> was + [lit] + Put(n, 4) + [|idb| as byte] + idb + val == rec)
  {
    var n := |val| + |idb| + 1;
    var body := Body(idb, val);
    assert |body| == n;
    if n <= 0xff {
      var head: bytes := [lit + CASE_BIT, n];
      Regroups(was + head, [|idb| as byte], idb, val);
      Associates(was, head, body);
    } else {
      Associates(was, [lit], Put(n, 4));
      Regroups(was + ([lit] + Put(n, 4)), [|idb| as byte], idb, val);
      Associates(was, [lit] + Put(n, 4), body);
    }
  }

  function Joined(vals: seq<bytes>): bytes {
    if vals == [] then [] else Joined(vals[..|vals| - 1]) + vals[|vals| - 1]
  }

  /** `MakePLEXOf` behind its sort: opened by a guess of the size, closed by the true size. */
  method MakePLEXOf(k: Kind, id: ID, vals: seq<bytes>) returns (ret: bytes)
    ensures ret == TLV(KindLit(k), Body(ZipID(id), Joined(vals)))
  {
    var lit := KindLit(k);
    var l := 0;
    var i := 0;
    while i < |vals|
      invariant 0 <= i <= |vals|
    {
      l := l + |vals[i]|;
      i := i + 1;
    }
    var buf := new Marks.TlvBuffer();
    var short := l <= 0xff;
    if short {
      buf.OpenShortTLV(lit);
    } else {
      buf.OpenTLV(lit);
    }
    var zip := ZipID(id);
    buf.data := buf.data + [|zip|];
    buf.data := buf.data + zip;
    ghost var head := buf.data;
    i := 0;
    assert head + [] == head;
    while i < |vals|
      invariant 0 <= i <= |vals| && buf.data == head + Joined(vals[..i]) && buf.stack == [Marks.OpenMark([], lit, short)]
    {
      TakeGrows(vals, i);
      assert vals[..i + 1][..i] == vals[..i];
      Associates(head, Joined(vals[..i]), vals[i]);
      buf.data := buf.data + vals[i];
      i := i + 1;
    }
    assert vals[..|vals|] == vals;
    PlexFinished(lit, short, zip, Joined(vals), buf.data, buf.stack[0]);
    var ok := buf.CloseTLV(lit);
    ret := buf.data;
  }

  lemma PlexFinished(lit: byte, short: bool, zip: bytes, kids: bytes, data: bytes, mark: Marks.Mark)
    requires IsUpper(lit) && |zip| <= 16 && mark == Marks.OpenMark([], lit, short)
    requires data == [] + Marks.OpenHeader(lit, short) + [|zip| as byte] + zip + kids
    ensures Marks.Closed(data, mark, lit) == Marks.Ok(TLV(lit, Body(zip, kids)))
  {
    var head, body := Marks.OpenHeader(lit, short), Body(zip, kids);
    Regroups([] + head, [|zip| as byte], zip, kids);
    Marks.CloseMakesRecord([], lit, short, body, mark);
    assert [] + TLV(lit, body) == TLV(lit, body);
  }
}
