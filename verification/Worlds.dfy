/**
 Worlds: what any number of documents must agree on for their merge to be a join.

 A world says, for every place in a document, which identities may contend there and how linear
 containers are laid out there. The one demand on a world is that it is calm: at no place does
 an identity stand between two revisions of one container. The associative law is proved for
 documents of a calm world; Laws.dfy shows that calm is also necessary.
 */
module Worlds {
  import opened Ids
  import opened Elements
  import opened Merge
  import opened Layouts

  /** What an element shows to last-write-wins before its value: its type and its id. */
  datatype Shell = Shell(lit: byte, id: ID)

  function ShellOf(e: Elem): Shell { Shell(Lit(e), e.id) }

  /** Two revisions of one container. */
  predicate OneContainer(x: Shell, z: Shell) {
    IsPlexLit(x.lit) && x.lit == z.lit && x.id.src == z.id.src && x.id.Stem() == z.id.Stem()
  }

  predicate Under(x: Shell, y: Shell) {
    match x.id.RevCompare(y.id)
    case Less => true
    case Eq => CompareLit(x.lit, y.lit) == Less
    case Grtr => false
  }

  /** y stands between x and z: by id and type, or, as an empty tuple, by id alone. */
  predicate Between(x: Shell, y: Shell, z: Shell) {
    || (Under(x, y) && Under(y, z))
    || (y.lit == KindLit(P) && x.id.RevCompare(y.id) == Less && y.id.RevCompare(z.id) != Grtr)
  }

  type Shells = Shell -> bool

  ghost predicate Calm(allowed: Shells) {
    forall x, y, z {:trigger Between(x, y, z)} |
      allowed(x) && allowed(y) && allowed(z) && OneContainer(x, z) && !OneContainer(x, y) :: !Between(x, y, z)
  }

  datatype Step = Into(kind: Kind, stem: int, src: u64) | At(slot: Slot)

  type Path = seq<Step>

  /** For every place: what identities may stand there, how lists are laid out, and a list of who may stand there. */
  datatype World = World(shells: Path -> Shells, layout: Path -> Layout, roster: Path -> (Elem -> bool))

  /** Two elements on a list of who may stand somewhere merge to one on that list. */
  ghost predicate Closed(roster: Elem -> bool) {
    forall a, b | roster(a) && roster(b) :: roster(Spot(a, b))
  }

  ghost predicate CalmWorld(w: World) {
    forall p: Path :: Calm(w.shells(p)) && Closed(w.roster(p))
  }

  /** The same world, without any such list. */
  ghost function Opened(w: World): World { w.(roster := (p: Path) => (e: Elem) => true) }

  const POSITIONS: Layout := Rows((i: nat) => NO_KEY)

  function LayoutAt(w: World, c: Path, k: Kind): Layout {
    match k
    case P => POSITIONS
    case L => w.layout(c)
    case E => Sorted
    case X => Sorted
  }

  function Inside(c: Path, e: Elem): Path
    requires e.Plex?
  {
    c + [Into(e.kind, e.id.Stem(), e.id.src)]
  }

  /** The element may stand at place p, and all it holds may stand where it stands. */
  ghost predicate Belongs(w: World, p: Path, e: Elem)
    decreases e, 0
  {
    && w.shells(p)(ShellOf(e)) && w.roster(p)(e)
    && match e
       case First(_, val) => ExactPrim(val)
       case Plex(k, _, kids) => Laid(w, Inside(p, e), k, Start, kids)
  }

  /** The children of a container, from cursor q on, belong to their slots. */
  ghost predicate Laid(w: World, c: Path, k: Kind, q: Cursor, xs: Doc)
    decreases xs, 1
  {
    xs == [] ||
    var lay, key := LayoutAt(w, c, k), KeyOf(k, xs[0]);
    HasSlot(lay, q, key) &&
    var s := SlotOf(lay, q, key);
    Belongs(w, c + [At(s)], xs[0]) && Laid(w, c, k, After(s), xs[1..])
  }

  ghost predicate DocBelongs(w: World, d: Doc) { Laid(w, [], P, Start, d) }

  lemma {:induction false} LaidIsPlaced(w: World, c: Path, k: Kind, q: Cursor, xs: Doc)
    requires Laid(w, c, k, q, xs)
    ensures Placed(LayoutAt(w, c, k), k, q, xs)
    decreases |xs|
  {
    if xs != [] {
      LaidIsPlaced(w, c, k, After(SlotOf(LayoutAt(w, c, k), q, KeyOf(k, xs[0]))), xs[1..]);
    }
  }

  lemma {:induction false} LaidElemsBelong(w: World, c: Path, k: Kind, q: Cursor, xs: Doc, s: Slot)
    requires Laid(w, c, k, q, xs) && Placed(LayoutAt(w, c, k), k, q, xs)
    requires Look(LayoutAt(w, c, k), k, q, xs, s).SomeElem?
    ensures Belongs(w, c + [At(s)], Look(LayoutAt(w, c, k), k, q, xs, s).e)
    decreases |xs|
  {
    var t := SlotOf(LayoutAt(w, c, k), q, KeyOf(k, xs[0]));
    if s != t {
      LaidElemsBelong(w, c, k, After(t), xs[1..], s);
    }
  }

  /** Laid is: placed, and each element belongs to its slot. */
  lemma {:induction false} PlacedIsLaid(w: World, c: Path, k: Kind, q: Cursor, xs: Doc)
    requires Placed(LayoutAt(w, c, k), k, q, xs)
    requires forall s | Look(LayoutAt(w, c, k), k, q, xs, s).SomeElem? ::
               Belongs(w, c + [At(s)], Look(LayoutAt(w, c, k), k, q, xs, s).e)
    ensures Laid(w, c, k, q, xs)
    decreases |xs|
  {
    if xs != [] {
      var lay := LayoutAt(w, c, k);
      var t := SlotOf(lay, q, KeyOf(k, xs[0]));
      assert Look(lay, k, q, xs, t) == SomeElem(xs[0]);
      NotBehind(lay, k, t, xs[1..]);
      forall s | Look(lay, k, After(t), xs[1..], s).SomeElem?
        ensures Belongs(w, c + [At(s)], Look(lay, k, After(t), xs[1..], s).e)
      {
        assert Look(lay, k, q, xs, s) == Look(lay, k, After(t), xs[1..], s);
      }
      PlacedIsLaid(w, c, k, After(t), xs[1..]);
    }
  }

  lemma {:induction false} BelongsIsExact(w: World, p: Path, e: Elem)
    requires Belongs(w, p, e)
    ensures Exact(e)
    decreases e, 0
  {
    if e.Plex? {
      LaidIsExact(w, Inside(p, e), e.kind, Start, e.kids);
    }
  }

  lemma {:induction false} LaidIsExact(w: World, c: Path, k: Kind, q: Cursor, xs: Doc)
    requires Laid(w, c, k, q, xs)
    ensures ExactDoc(xs)
    decreases xs, 1
  {
    if xs != [] {
      var s := SlotOf(LayoutAt(w, c, k), q, KeyOf(k, xs[0]));
      BelongsIsExact(w, c + [At(s)], xs[0]);
      LaidIsExact(w, c, k, After(s), xs[1..]);
    }
  }

  lemma {:induction false} BelongsInOpened(w: World, p: Path, e: Elem)
    requires Belongs(w, p, e)
    ensures Belongs(Opened(w), p, e)
    decreases e, 0
  {
    if e.Plex? {
      LaidInOpened(w, Inside(p, e), e.kind, Start, e.kids);
    }
  }

  lemma {:induction false} LaidInOpened(w: World, c: Path, k: Kind, q: Cursor, xs: Doc)
    requires Laid(w, c, k, q, xs)
    ensures Laid(Opened(w), c, k, q, xs)
    decreases xs, 1
  {
    if xs != [] {
      assert LayoutAt(Opened(w), c, k) == LayoutAt(w, c, k);
      var s := SlotOf(LayoutAt(w, c, k), q, KeyOf(k, xs[0]));
      BelongsInOpened(w, c + [At(s)], xs[0]);
      LaidInOpened(w, c, k, After(s), xs[1..]);
    }
  }

  // ---- merge stays inside the world

  lemma {:induction false} SpotBelongs(w: World, p: Path, a: Elem, b: Elem)
    requires forall p: Path :: Closed(w.roster(p))
    requires Belongs(w, p, a) && Belongs(w, p, b)
    ensures Belongs(w, p, Spot(a, b))
    decreases a, 0
  {
    SpotKeepsShell(a, b);
    if a.Plex? && b.Plex? && IsSame(a, b) {
      var m := Spot(a, b);
      assert Inside(p, a) == Inside(p, b) == Inside(p, m);
      MergeListLaid(w, Inside(p, a), a.kind, Start, a.kids, b.kids);
    } else if CompareLWW(a, b) == Eq {
      BelongsIsExact(w, p, a);
      BelongsIsExact(w, p, b);
      TieIsIdentity(a, b);
      SpotIdempotent(a);
    }
  }

  lemma {:induction false} MergeListLaid(w: World, c: Path, k: Kind, q: Cursor, xs: Doc, ys: Doc)
    requires forall p: Path :: Closed(w.roster(p))
    requires Laid(w, c, k, q, xs) && Laid(w, c, k, q, ys)
    ensures Laid(w, c, k, q, MergeList(k, xs, ys))
    decreases xs, 1
  {
    var lay := LayoutAt(w, c, k);
    LaidIsPlaced(w, c, k, q, xs);
    LaidIsPlaced(w, c, k, q, ys);
    MergeIsSlotwise(lay, k, q, xs, ys);
    var zs := MergeList(k, xs, ys);
    forall s | Look(lay, k, q, zs, s).SomeElem?
      ensures Belongs(w, c + [At(s)], Look(lay, k, q, zs, s).e)
    {
      var x, y := Look(lay, k, q, xs, s), Look(lay, k, q, ys, s);
      if x.SomeElem? {
        LaidElemsBelong(w, c, k, q, xs, s);
      }
      if y.SomeElem? {
        LaidElemsBelong(w, c, k, q, ys, s);
      }
      if x.SomeElem? && y.SomeElem? {
        LookIsIn(lay, k, q, xs, s);
        SpotBelongs(w, c + [At(s)], x.e, y.e);
      }
    }
    PlacedIsLaid(w, c, k, q, zs);
  }

  // ---- associativity

  lemma {:induction false} MergeListAssociates(w: World, c: Path, k: Kind, q: Cursor, xs: Doc, ys: Doc, zs: Doc)
    requires CalmWorld(w)
    requires Laid(w, c, k, q, xs) && Laid(w, c, k, q, ys) && Laid(w, c, k, q, zs)
    ensures MergeList(k, MergeList(k, xs, ys), zs) == MergeList(k, xs, MergeList(k, ys, zs))
    decreases xs, 1
  {
    var lay := LayoutAt(w, c, k);
    var xy, yz := MergeList(k, xs, ys), MergeList(k, ys, zs);
    LaidIsPlaced(w, c, k, q, xs);
    LaidIsPlaced(w, c, k, q, ys);
    LaidIsPlaced(w, c, k, q, zs);
    MergeIsSlotwise(lay, k, q, xs, ys);
    MergeIsSlotwise(lay, k, q, ys, zs);
    MergeIsSlotwise(lay, k, q, xy, zs);
    MergeIsSlotwise(lay, k, q, xs, yz);
    var left, right := MergeList(k, xy, zs), MergeList(k, xs, yz);
    forall s ensures Look(lay, k, q, left, s) == Look(lay, k, q, right, s) {
      var x, y, z := Look(lay, k, q, xs, s), Look(lay, k, q, ys, s), Look(lay, k, q, zs, s);
      if x.SomeElem? && y.SomeElem? && z.SomeElem? {
        LaidElemsBelong(w, c, k, q, xs, s);
        LaidElemsBelong(w, c, k, q, ys, s);
        LaidElemsBelong(w, c, k, q, zs, s);
        LookIsIn(lay, k, q, xs, s);
        SpotAssociates(w, c + [At(s)], x.e, y.e, z.e);
      }
    }
    SameLooksSameList(lay, k, q, left, right);
  }

  predicate AreOne(a: Elem, b: Elem) { a.Plex? && b.Plex? && IsSame(a, b) }

  lemma {:induction false} OneContainerAssociates(a: Elem, b: Elem, c: Elem)
    requires AreOne(a, b) && AreOne(b, c)
    requires MergeList(a.kind, MergeList(a.kind, a.kids, b.kids), c.kids)
          == MergeList(a.kind, a.kids, MergeList(a.kind, b.kids, c.kids))
    ensures Spot(Spot(a, b), c) == Spot(a, Spot(b, c))
  {
    var ab, bc := Spot(a, b), Spot(b, c);
    assert ab == Plex(a.kind, MaxID(a.id, b.id), MergeList(a.kind, a.kids, b.kids));
    assert bc == Plex(a.kind, MaxID(b.id, c.id), MergeList(a.kind, b.kids, c.kids));
    assert AreOne(ab, c) && AreOne(a, bc);
    assert MaxID(MaxID(a.id, b.id), c.id) == MaxID(a.id, MaxID(b.id, c.id));
  }

  lemma {:induction false} SpotAssociates(w: World, p: Path, a: Elem, b: Elem, c: Elem)
    requires CalmWorld(w)
    requires Belongs(w, p, a) && Belongs(w, p, b) && Belongs(w, p, c)
    ensures Spot(Spot(a, b), c) == Spot(a, Spot(b, c))
    decreases a, 0
  {
    BelongsIsExact(w, p, a);
    BelongsIsExact(w, p, b);
    BelongsIsExact(w, p, c);
    if AreOne(a, b) && AreOne(b, c) {
      assert Inside(p, a) == Inside(p, b) == Inside(p, c);
      MergeListAssociates(w, Inside(p, a), a.kind, Start, a.kids, b.kids, c.kids);
      OneContainerAssociates(a, b, c);
    } else {
      assert Calm(w.shells(p));
      ShallowAssociates(w.shells(p), a, b, c);
    }
  }

  /** Associativity where the three elements are not one container. */
  lemma {:induction false} ShallowAssociates(allowed: Shells, a: Elem, b: Elem, c: Elem)
    requires Calm(allowed) && allowed(ShellOf(a)) && allowed(ShellOf(b)) && allowed(ShellOf(c))
    requires Exact(a) && Exact(b) && Exact(c)
    requires !(AreOne(a, b) && AreOne(b, c))
    ensures Spot(Spot(a, b), c) == Spot(a, Spot(b, c))
  {
    if AreOne(a, b) {
      PairAndStranger(allowed, a, b, c);
    } else if AreOne(b, c) {
      StrangerFirst(allowed, a, b, c);
    } else if AreOne(a, c) {
      StrangerBetween(allowed, a, b, c);
    } else {
      Strangers(a, b, c);
    }
  }

  lemma {:induction false} StrangerFirst(allowed: Shells, a: Elem, b: Elem, c: Elem)
    requires Calm(allowed) && allowed(ShellOf(a)) && allowed(ShellOf(b)) && allowed(ShellOf(c))
    requires Exact(a) && Exact(b) && Exact(c)
    requires AreOne(b, c) && !AreOne(a, b)
    ensures Spot(Spot(a, b), c) == Spot(a, Spot(b, c))
  {
    calc {
      Spot(a, Spot(b, c));
    == { SpotKeepsExact(b, c); SpotCommutes(a, Spot(b, c)); }
      Spot(Spot(b, c), a);
    == { assert !AreOne(c, a); PairAndStranger(allowed, b, c, a); }
      Spot(Spot(b, a), c);
    == { SpotCommutes(a, b); }
      Spot(Spot(a, b), c);
    }
  }

  lemma {:induction false} StrangerBetween(allowed: Shells, a: Elem, b: Elem, c: Elem)
    requires Calm(allowed) && allowed(ShellOf(a)) && allowed(ShellOf(b)) && allowed(ShellOf(c))
    requires Exact(a) && Exact(b) && Exact(c)
    requires AreOne(a, c) && !AreOne(b, c)
    ensures Spot(Spot(a, b), c) == Spot(a, Spot(b, c))
  {
    calc {
      Spot(a, Spot(b, c));
    == { SpotCommutes(b, c); }
      Spot(a, Spot(c, b));
    == { assert !AreOne(c, b); PairAndStranger(allowed, a, c, b); }
      Spot(Spot(a, b), c);
    }
  }

  /** How the type counts once the ids are equal: an empty tuple last of all. */
  function TypePlace(e: Elem): int {
    if IsEmptyTuple(e) then -1 else TypeRank(Lit(e))
  }

  /** Last-write-wins between different containers is a lexicographic order. */
  lemma LWWIsLexicographic(a: Elem, b: Elem)
    requires !AreOne(a, b)
    ensures CompareLWW(a, b) ==
      if a.id.RevCompare(b.id) != Eq then a.id.RevCompare(b.id)
      else if TypePlace(a) != TypePlace(b) then CompareInt(TypePlace(a), TypePlace(b))
      else CompareKey(ValueKey(a), ValueKey(b))
  {
    ValueOrderIsKeyOrder(a, b);
  }

  lemma LWWTransitive(a: Elem, b: Elem, c: Elem)
    requires !AreOne(a, b) && !AreOne(b, c) && !AreOne(a, c)
    requires CompareLWW(a, b) == Less && CompareLWW(b, c) == Less
    ensures CompareLWW(a, c) == Less
  {
    LWWIsLexicographic(a, b);
    LWWIsLexicographic(b, c);
    LWWIsLexicographic(a, c);
    if CompareKey(ValueKey(a), ValueKey(b)) == Less && CompareKey(ValueKey(b), ValueKey(c)) == Less {
      KeysTransitive(ValueKey(a), ValueKey(b), ValueKey(c));
    }
  }

  lemma {:induction false} SpotOfStrangers(a: Elem, b: Elem)
    requires Exact(a) && Exact(b) && !AreOne(a, b)
    ensures CompareLWW(b, a) == CompareLWW(a, b).Flip()
    ensures CompareLWW(a, b) == Eq ==> a == b
    ensures Spot(a, b) == if CompareLWW(a, b) == Less then b else a
  {
    LWWFlips(a, b);
    if CompareLWW(a, b) == Eq {
      TieIsIdentity(a, b);
      SpotIdempotent(a);
    }
  }

  lemma {:induction false} Strangers(a: Elem, b: Elem, c: Elem)
    requires Exact(a) && Exact(b) && Exact(c)
    requires !AreOne(a, b) && !AreOne(b, c) && !AreOne(a, c)
    ensures Spot(Spot(a, b), c) == Spot(a, Spot(b, c))
  {
    SpotOfStrangers(a, b);
    SpotOfStrangers(b, c);
    SpotOfStrangers(a, c);
    if CompareLWW(a, b) == Less && CompareLWW(b, c) == Less {
      LWWTransitive(a, b, c);
    } else if CompareLWW(b, a) == Less && CompareLWW(c, b) == Less {
      LWWTransitive(c, b, a);
    }
  }

  /** A stranger is above both revisions of a container, or below both, or the lower one is empty. */
  lemma {:induction false} StrangerIsOutside(allowed: Shells, a: Elem, b: Elem, c: Elem)
    requires Calm(allowed) && allowed(ShellOf(a)) && allowed(ShellOf(b)) && allowed(ShellOf(c))
    requires AreOne(a, b) && !AreOne(b, c)
    requires CompareLWW(a, c) == Less && CompareLWW(c, b) == Less
    ensures IsEmptyTuple(a) && a.id.RevCompare(b.id) != Grtr && Spot(a, b) == b
  {
    var x, y, z := ShellOf(a), ShellOf(c), ShellOf(b);
    assert OneContainer(x, z) && !OneContainer(x, y);
    assert !Between(x, y, z);
    assert a.id.RevCompare(c.id) != Grtr && c.id.RevCompare(b.id) != Grtr;
    assert IsEmptyTuple(a);
    assert MergeList(P, a.kids, b.kids) == b.kids;
  }

  /** A stranger above or below both revisions is above or below their merge. */
  lemma {:induction false} StrangerAndMerge(allowed: Shells, a: Elem, b: Elem, c: Elem)
    requires Calm(allowed) && allowed(ShellOf(a)) && allowed(ShellOf(b)) && allowed(ShellOf(c))
    requires AreOne(a, b) && !AreOne(b, c)
    requires CompareLWW(a, c) == CompareLWW(b, c)
    ensures CompareLWW(Spot(a, b), c) == CompareLWW(a, c)
  {
    var x, y, z := ShellOf(a), ShellOf(c), ShellOf(b);
    assert OneContainer(x, z) && !OneContainer(x, y) && OneContainer(z, x) && !OneContainer(z, y);
    assert !Between(x, y, z) && !Between(z, y, x);
    assert b.kids != [] ==> Spot(a, b).kids != [];
    assert a.kids != [] ==> Spot(a, b).kids != [];
  }

  lemma {:induction false} PairAndStranger(allowed: Shells, a: Elem, b: Elem, c: Elem)
    requires Calm(allowed) && allowed(ShellOf(a)) && allowed(ShellOf(b)) && allowed(ShellOf(c))
    requires Exact(a) && Exact(b) && Exact(c)
    requires AreOne(a, b) && !AreOne(b, c)
    ensures Spot(Spot(a, b), c) == Spot(a, Spot(b, c))
    ensures Spot(Spot(a, b), c) == Spot(Spot(a, c), b)
  {
    SpotKeepsExact(a, b);
    SpotOfStrangers(a, c);
    SpotOfStrangers(b, c);
    SpotOfStrangers(Spot(a, b), c);
    SpotCommutes(a, b);
    if CompareLWW(a, c) == CompareLWW(b, c) {
      StrangerAndMerge(allowed, a, b, c);
    } else if CompareLWW(a, c) == Less {
      StrangerIsOutside(allowed, a, b, c);
    } else {
      StrangerIsOutside(allowed, b, a, c);
    }
  }
}
