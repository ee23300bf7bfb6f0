/**
 The laws the README promises for merge, on whole documents, and exactly what they need.
 */
module Laws {
  import opened Ids
  import opened Elements
  import opened Merge
  import opened Layouts
  import opened Worlds

  /** Documents of one calm world form a semilattice. */
  lemma MergeIsAssociative(w: World, a: Doc, b: Doc, c: Doc)
    requires CalmWorld(w) && DocBelongs(w, a) && DocBelongs(w, b) && DocBelongs(w, c)
    ensures MergeDocs(MergeDocs(a, b), c) == MergeDocs(a, MergeDocs(b, c))
  {
    MergeListAssociates(w, [], P, Start, a, b, c);
  }

  lemma MergeStaysInTheWorld(w: World, a: Doc, b: Doc)
    requires forall p: Path :: Closed(w.roster(p))
    requires DocBelongs(w, a) && DocBelongs(w, b)
    ensures DocBelongs(w, MergeDocs(a, b)) && MergeDocs(a, b) == MergeDocs(b, a)
  {
    MergeListLaid(w, [], P, Start, a, b);
    LaidIsExact(w, [], P, Start, a);
    LaidIsExact(w, [], P, Start, b);
    MergeIsCommutative(a, b);
  }

  /** Receiving an update twice, or late, changes nothing: the merge absorbs what it has seen. */
  lemma MergeAbsorbs(w: World, a: Doc, b: Doc)
    requires CalmWorld(w) && DocBelongs(w, a) && DocBelongs(w, b)
    ensures MergeDocs(MergeDocs(a, b), a) == MergeDocs(a, b)
    ensures MergeDocs(MergeDocs(a, b), b) == MergeDocs(a, b)
  {
    MergeStaysInTheWorld(w, a, b);
    MergeStaysInTheWorld(w, MergeDocs(a, b), a);
    MergeIsAssociative(w, a, a, b);
    MergeIsAssociative(w, a, b, b);
    MergeIsIdempotent(a);
    MergeIsIdempotent(b);
  }

  // ---- exactness: when two values tie

  /** Two FIRST elements merge the same way round both ways unless they tie without being equal. */
  lemma {:induction false} FirstsCommuteIff(a: Elem, b: Elem)
    requires a.First? && b.First?
    ensures Spot(a, b) == Spot(b, a) <==> (CompareLWW(a, b) == Eq ==> a == b)
  {
    LWWFlips(a, b);
    ComparePrimFlips(a.val, b.val);
  }

  /** 0.0 and -0.0 tie, and the one that comes first stays. */
  lemma SignedZerosDoNotCommute()
    ensures MergeDocs([First(ID0, Float(0))], [First(ID0, Float(NEGATIVE_ZERO))])
         != MergeDocs([First(ID0, Float(NEGATIVE_ZERO))], [First(ID0, Float(0))])
  {
    TiesDoNotCommute(Float(0), Float(NEGATIVE_ZERO));
  }

  // ---- exactness: calm places

  predicate IsLit(lit: byte) {
    IsPlexLit(lit) || lit == 'F' as int || lit == 'I' as int || lit == 'R' as int || lit == 'S' as int || lit == 'T' as int
  }

  function SampleValue(lit: byte): (v: Prim)
    requires IsLit(lit) && !IsPlexLit(lit)
    ensures PrimLit(v) == lit && ExactPrim(v)
  {
    if lit == 'F' as int then Float(0)
    else if lit == 'I' as int then Integer(0)
    else if lit == 'R' as int then Reference(ID0)
    else if lit == 'S' as int then Str([])
    else Term([])
  }

  const F0: Elem := First(ID0, Integer(0))
  const F1: Elem := First(ID(1, 0), Integer(1))

  function Sample(s: Shell, kids: Doc): (e: Elem)
    requires IsLit(s.lit)
    ensures ShellOf(e) == s && (ExactDoc(kids) ==> Exact(e))
  {
    if IsPlexLit(s.lit) then Plex(KindOf(s.lit), s.id, kids) else First(s.id, SampleValue(s.lit))
  }

  ghost predicate Associates(a: Elem, b: Elem, c: Elem) {
    Spot(Spot(a, b), c) == Spot(a, Spot(b, c))
  }

  /** The elements of a place that are not three revisions of one container. */
  ghost predicate Contend(allowed: Shells, a: Elem, b: Elem, c: Elem) {
    && Exact(a) && Exact(b) && Exact(c)
    && allowed(ShellOf(a)) && allowed(ShellOf(b)) && allowed(ShellOf(c))
    && !(AreOne(a, b) && AreOne(b, c))
  }

  lemma {:induction false} KidsAdd(k: Kind)
    ensures MergeList(k, [F0, F1], [F0]) == [F0, F1]
  {
    CompareFlips(k, F0, F0);
    SpotIdempotent(F0);
    assert [F0, F1][1..] == [F1] && [F0][1..] == [];
    assert MergeList(k, [F1], []) == [F1];
  }

  /** An identity between two revisions of a container makes the outcome depend on the grouping. */
  lemma InterleavingBreaksGrouping(x: Shell, y: Shell, z: Shell) returns (a: Elem, b: Elem, c: Elem)
    requires IsLit(x.lit) && IsLit(y.lit) && IsLit(z.lit)
    requires OneContainer(x, z) && !OneContainer(x, y) && Between(x, y, z)
    ensures ShellOf(a) == x && ShellOf(b) == y && ShellOf(c) == z
    ensures Exact(a) && Exact(b) && Exact(c) && !AreOne(a, b) && !Associates(a, b, c)
  {
    a, c := Sample(x, [F0, F1]), Sample(z, [F0]);
    b := Sample(y, if Under(x, y) && Under(y, z) then [F0] else []);
    KidsAdd(a.kind);
    assert CompareLWW(a, b) == Less && CompareLWW(b, c) == Less;
    assert Spot(a, c).kids == [F0, F1];
  }

  /** A place is associative exactly when it is calm. */
  lemma CalmIff(allowed: Shells)
    requires forall s :: allowed(s) ==> IsLit(s.lit)
    ensures Calm(allowed) <==> forall a, b, c :: Contend(allowed, a, b, c) ==> Associates(a, b, c)
  {
    if Calm(allowed) {
      forall a, b, c | Contend(allowed, a, b, c) ensures Associates(a, b, c) {
        ShallowAssociates(allowed, a, b, c);
      }
    } else {
      var x, y, z :| allowed(x) && allowed(y) && allowed(z)
                     && OneContainer(x, z) && !OneContainer(x, y) && Between(x, y, z);
      var a, b, c := InterleavingBreaksGrouping(x, y, z);
      assert Contend(allowed, a, b, c) && !Associates(a, b, c);
    }
  }

  /** A stamp discipline that keeps every place calm: what may share one `time / 64`. */
  datatype StemUse = OneIdentity(src: u64, lit: byte) | OneRevision(rev: int)

  predicate Follows(use: StemUse, s: Shell) {
    match use
    case OneIdentity(src, lit) => s.id.src == src && s.lit == lit
    case OneRevision(rev) => s.id.Rev() == rev
  }

  lemma DisciplineIsCalm(use: int -> StemUse, allowed: Shells)
    requires forall s :: allowed(s) ==> Follows(use(s.id.Stem()), s)
    ensures Calm(allowed)
  {
    forall x, y, z | allowed(x) && allowed(y) && allowed(z) && OneContainer(x, z) && !OneContainer(x, y)
      ensures !Between(x, y, z)
    {
      assert Between(x, y, z) ==> x.id.Stem() == y.id.Stem() == z.id.Stem();
      assert x.id.time - y.id.time == 64 * (x.id.Stem() - y.id.Stem()) + x.id.Rev() - y.id.Rev();
      assert y.id.time - z.id.time == 64 * (y.id.Stem() - z.id.Stem()) + y.id.Rev() - z.id.Rev();
    }
  }
}
