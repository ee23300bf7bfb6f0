/** Two-way merge: merge sort on lists of elements, last-write-wins or recursion at one spot. */
module Merge {
  import opened Ids
  import opened Elements

  /** The larger of two equal-type values; the first one on a tie. */
  function MergeValues(v: Prim, w: Prim): Prim {
    if ComparePrim(v, w) == Less then w else v
  }

  /** Two elements contending for one spot. */
  function Spot(a: Elem, b: Elem): Elem
    decreases a, 0
  {
    if a.Plex? && b.Plex? && IsSame(a, b) then
      Plex(a.kind, MaxID(a.id, b.id), MergeList(a.kind, a.kids, b.kids))
    else
      match CompareLWW(a, b)
      case Less => b
      case Grtr => a
      case Eq => if a.First? && b.First? then First(MaxID(a.id, b.id), MergeValues(a.val, b.val)) else a
  }

  /** A parallel pass over two lists: the lower head goes out, equal heads merge. */
  function MergeList(k: Kind, xs: Doc, ys: Doc): Doc
    decreases xs, 1, ys
  {
    if xs == [] then ys
    else if ys == [] then xs
    else
      match Compare(k, xs[0], ys[0])
      case Less => [xs[0]] + MergeList(k, xs[1..], ys)
      case Grtr => [ys[0]] + MergeList(k, xs, ys[1..])
      case Eq => [Spot(xs[0], ys[0])] + MergeList(k, xs[1..], ys[1..])
  }

  /** Documents merge as tuples do: position by position. */
  function MergeDocs(a: Doc, b: Doc): Doc { MergeList(P, a, b) }

  // ---- which encodings are unique

  predicate ExactPrim(v: Prim) {
    match v
    case Float(f) => f != NEGATIVE_ZERO
    case Reference(r) => r.Rev() == 0
    case _ => true
  }

  /** No value that ties with a different one: no -0.0, no revision inside a reference value. */
  predicate Exact(e: Elem) {
    match e
    case First(_, val) => ExactPrim(val)
    case Plex(_, _, kids) => forall x | x in kids :: Exact(x)
  }

  predicate ExactDoc(xs: Doc) { forall x | x in xs :: Exact(x) }

  lemma ExactTie(v: Prim, w: Prim)
    requires ComparePrim(v, w) == Eq && PrimLit(v) == PrimLit(w)
    requires ExactPrim(v) && ExactPrim(w)
    ensures v == w
  {
    match v
    case Str(s) => CompareBytesIsAnOrder(s, w.s);
    case Term(t) => CompareBytesIsAnOrder(t, w.t);
    case Reference(r) => assert r.time == w.ref.time by { assert r.time == 64 * r.Stem() + r.Rev(); }
    case _ =>
  }

  /** Elements that tie under last-write-wins and are not one container are identical. */
  lemma {:induction false} TieIsIdentity(a: Elem, b: Elem)
    requires CompareLWW(a, b) == Eq && Exact(a) && Exact(b)
    requires !(a.Plex? && b.Plex? && IsSame(a, b))
    ensures a == b && a.First?
  {
    assert a.id == b.id && Lit(a) == Lit(b);
    if a.First? {
      ExactTie(a.val, b.val);
    }
  }

  lemma ComparePrimFlips(v: Prim, w: Prim)
    ensures ComparePrim(w, v) == ComparePrim(v, w).Flip()
  {
    match (v, w)
    case (Str(s), Str(t)) => CompareBytesIsAnOrder(s, t);
    case (Term(s), Term(t)) => CompareBytesIsAnOrder(s, t);
    case _ =>
  }

  lemma LWWFlips(a: Elem, b: Elem)
    ensures CompareLWW(b, a) == CompareLWW(a, b).Flip()
  {
    if a.First? && b.First? {
      ComparePrimFlips(a.val, b.val);
    }
  }

  /** The result carries the larger id; unless both are one container, the later write is the result. */
  lemma {:induction false} LastWriteWins(a: Elem, b: Elem)
    ensures Spot(a, b).id == MaxID(a.id, b.id)
    ensures !(a.Plex? && b.Plex? && IsSame(a, b)) && a.id.LessThan(b.id) ==> Spot(a, b) == b
    ensures !(a.Plex? && b.Plex? && IsSame(a, b)) && b.id.LessThan(a.id) ==> Spot(a, b) == a
  {
    RevCompareIsLess(a.id, b.id);
    if !(a.Plex? && b.Plex? && IsSame(a, b)) {
      match CompareLWW(a, b)
      case Less => assert Spot(a, b) == b;
      case Grtr => assert Spot(a, b) == a;
      case Eq => assert a.id == b.id;
    }
  }

  lemma RevCompareIsLess(a: ID, b: ID)
    ensures a.RevCompare(b) == Less <==> a.LessThan(b)
    ensures a.RevCompare(b) == Grtr <==> b.LessThan(a)
    ensures a.RevCompare(b) == Eq <==> a == b
  {
  }

  // ---- every merge keeps the key of the elements it merges

  /** The identity of the result is the identity of one of the two elements. */
  lemma {:induction false} SpotKeepsShell(a: Elem, b: Elem)
    ensures var c := Spot(a, b);
            || (c.id == a.id && Lit(c) == Lit(a))
            || (c.id == b.id && Lit(c) == Lit(b))
  {
  }

  lemma {:induction false} SpotKeepsValueKey(a: Elem, b: Elem)
    requires ValueKey(a) == ValueKey(b)
    ensures ValueKey(Spot(a, b)) == ValueKey(a)
  {
    PairOrder(a.id.Stem(), a.id.src, b.id.Stem(), b.id.src);
    PairOrder(b.id.Stem(), b.id.src, a.id.Stem(), a.id.src);
  }

  lemma {:induction false} SpotKeepsKey(k: Kind, a: Elem, b: Elem)
    requires KeyOf(k, a) == KeyOf(k, b)
    ensures KeyOf(k, Spot(a, b)) == KeyOf(k, a)
  {
    match k
    case P =>
    case L =>
      if a.Plex? && b.Plex? && IsSame(a, b) {
        SpotKeepsShell(a, b);
      }
    case E =>
      if a.Plex? && b.Plex? && IsSame(a, b) && a.kind == P && a.kids != [] && b.kids != [] {
        SpotKeepsValueKey(a.kids[0], b.kids[0]);
      } else {
        SpotKeepsEulerKey(a, b);
      }
    case X =>
  }

  lemma {:induction false} SpotKeepsEulerKey(a: Elem, b: Elem)
    requires KeyOf(E, a) == KeyOf(E, b)
    requires !(a.Plex? && b.Plex? && IsSame(a, b) && a.kind == P && a.kids != [] && b.kids != [])
    ensures KeyOf(E, Spot(a, b)) == KeyOf(E, a)
  {
    if a.Plex? && b.Plex? && IsSame(a, b) {
      if a.kind != P {
        SpotKeepsValueKey(a, b);
      }
    } else if CompareLWW(a, b) == Eq {
      assert a.First? && b.First?;
      SpotKeepsValueKey(a, b);
    }
  }

  lemma {:induction false} SpotKeepsExact(a: Elem, b: Elem)
    requires Exact(a) && Exact(b)
    ensures Exact(Spot(a, b))
    decreases a, 0
  {
    if a.Plex? && b.Plex? && IsSame(a, b) {
      MergeListKeepsExact(a.kind, a.kids, b.kids);
    }
  }

  lemma {:induction false} MergeListKeepsExact(k: Kind, xs: Doc, ys: Doc)
    requires ExactDoc(xs) && ExactDoc(ys)
    ensures ExactDoc(MergeList(k, xs, ys))
    decreases xs, 1, ys
  {
    if xs != [] && ys != [] {
      match Compare(k, xs[0], ys[0])
      case Less => MergeListKeepsExact(k, xs[1..], ys);
      case Grtr => MergeListKeepsExact(k, xs, ys[1..]);
      case Eq =>
        SpotKeepsExact(xs[0], ys[0]);
        MergeListKeepsExact(k, xs[1..], ys[1..]);
    }
  }

  // ---- commutativity and idempotence: on any lists, sorted or not

  /** Every value in it is one of these. */
  predicate Over(ok: Prim -> bool, e: Elem) {
    match e
    case First(_, val) => ok(val)
    case Plex(_, _, kids) => forall x | x in kids :: Over(ok, x)
  }

  predicate DocOver(ok: Prim -> bool, xs: Doc) { forall x | x in xs :: Over(ok, x) }

  /** No two of these values tie. */
  ghost predicate TieFree(ok: Prim -> bool) { forall v, u | ok(v) && ok(u) && ComparePrim(v, u) == Eq :: v == u }

  lemma {:induction false} SpotCommutesOver(ok: Prim -> bool, a: Elem, b: Elem)
    requires TieFree(ok) && Over(ok, a) && Over(ok, b)
    ensures Spot(a, b) == Spot(b, a)
    decreases a, 0
  {
    if a.Plex? && b.Plex? && IsSame(a, b) {
      MergeListCommutesOver(ok, a.kind, a.kids, b.kids);
      assert MaxID(a.id, b.id) == MaxID(b.id, a.id);
    } else {
      LWWFlips(a, b);
      if CompareLWW(a, b) == Eq {
        RevCompareIsLess(a.id, b.id);
        assert a == b;
      }
    }
  }

  lemma {:induction false} MergeListCommutesOver(ok: Prim -> bool, k: Kind, xs: Doc, ys: Doc)
    requires TieFree(ok) && DocOver(ok, xs) && DocOver(ok, ys)
    ensures MergeList(k, xs, ys) == MergeList(k, ys, xs)
    decreases xs, 1, ys
  {
    if xs != [] && ys != [] {
      CompareFlips(k, xs[0], ys[0]);
      match Compare(k, xs[0], ys[0])
      case Less => MergeListCommutesOver(ok, k, xs[1..], ys);
      case Grtr => MergeListCommutesOver(ok, k, xs, ys[1..]);
      case Eq =>
        SpotCommutesOver(ok, xs[0], ys[0]);
        MergeListCommutesOver(ok, k, xs[1..], ys[1..]);
    }
  }

  const EXACT: Prim -> bool := (v: Prim) => ExactPrim(v)

  lemma {:induction false} ExactIsOver(e: Elem)
    ensures Exact(e) <==> Over(EXACT, e)
    decreases e
  {
    if e.Plex? {
      forall x | x in e.kids ensures Exact(x) <==> Over(EXACT, x) { ExactIsOver(x); }
    }
  }

  lemma ExactIsTieFree()
    ensures TieFree(EXACT)
  {
    forall v, u | EXACT(v) && EXACT(u) && ComparePrim(v, u) == Eq ensures v == u { ExactTie(v, u); }
  }

  lemma {:induction false} SpotCommutes(a: Elem, b: Elem)
    requires Exact(a) && Exact(b)
    ensures Spot(a, b) == Spot(b, a)
  {
    ExactIsTieFree();
    ExactIsOver(a);
    ExactIsOver(b);
    SpotCommutesOver(EXACT, a, b);
  }

  lemma {:induction false} MergeListCommutes(k: Kind, xs: Doc, ys: Doc)
    requires ExactDoc(xs) && ExactDoc(ys)
    ensures MergeList(k, xs, ys) == MergeList(k, ys, xs)
  {
    ExactIsTieFree();
    forall x | x in xs || x in ys ensures Over(EXACT, x) { ExactIsOver(x); }
    MergeListCommutesOver(EXACT, k, xs, ys);
  }

  lemma CompareFlips(k: Kind, a: Elem, b: Elem)
    ensures Compare(k, b, a) == Compare(k, a, b).Flip()
  {
    CompareIsKeyOrder(k, a, b);
    CompareIsKeyOrder(k, b, a);
    KeysAreTotallyOrdered(KeyOf(k, a), KeyOf(k, b));
  }

  lemma {:induction false} SpotIdempotent(a: Elem)
    ensures Spot(a, a) == a
    decreases a, 0
  {
    if a.Plex? {
      MergeListIdempotent(a.kind, a.kids);
    } else {
      ComparePrimFlips(a.val, a.val);
    }
  }

  lemma {:induction false} MergeListIdempotent(k: Kind, xs: Doc)
    ensures MergeList(k, xs, xs) == xs
    decreases xs, 1
  {
    if xs != [] {
      CompareFlips(k, xs[0], xs[0]);
      SpotIdempotent(xs[0]);
      MergeListIdempotent(k, xs[1..]);
    }
  }

  /** The README's first two laws, for whole documents. */
  lemma MergeIsCommutative(a: Doc, b: Doc)
    requires ExactDoc(a) && ExactDoc(b)
    ensures MergeDocs(a, b) == MergeDocs(b, a)
  {
    MergeListCommutes(P, a, b);
  }

  /** Whatever values are allowed: all documents over them commute exactly when no two of them tie. */
  lemma MergeCommutesIff(ok: Prim -> bool)
    ensures (forall a, b | DocOver(ok, a) && DocOver(ok, b) :: MergeDocs(a, b) == MergeDocs(b, a)) <==> TieFree(ok)
  {
    if TieFree(ok) {
      forall a, b | DocOver(ok, a) && DocOver(ok, b) ensures MergeDocs(a, b) == MergeDocs(b, a) {
        MergeListCommutesOver(ok, P, a, b);
      }
    } else {
      var v, u :| ok(v) && ok(u) && ComparePrim(v, u) == Eq && v != u;
      var a, b := [First(ID0, v)], [First(ID0, u)];
      TiesDoNotCommute(v, u);
      assert DocOver(ok, a) && DocOver(ok, b);
    }
  }

  /** Of two values that tie, the one that comes first stays. */
  lemma TiesDoNotCommute(v: Prim, u: Prim)
    requires ComparePrim(v, u) == Eq && v != u
    ensures MergeDocs([First(ID0, v)], [First(ID0, u)]) == [First(ID0, v)]
    ensures MergeDocs([First(ID0, u)], [First(ID0, v)]) == [First(ID0, u)]
  {
    var a, b := First(ID0, v), First(ID0, u);
    ComparePrimFlips(v, u);
    assert [a][1..] == [] && [b][1..] == [];
    assert Spot(a, b) == a && Spot(b, a) == b;
    assert MergeList(P, [a], [b]) == [Spot(a, b)] + MergeList(P, [], []);
    assert MergeList(P, [b], [a]) == [Spot(b, a)] + MergeList(P, [], []);
  }

  lemma MergeIsIdempotent(a: Doc)
    ensures MergeDocs(a, a) == a
  {
    MergeListIdempotent(P, a);
  }
}
