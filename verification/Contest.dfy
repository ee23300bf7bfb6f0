/** Many elements contending for one spot: what may be dropped, and what the survivors merge to. */
module Contest {
  import opened Ids
  import opened Elements
  import opened Merge
  import opened Layouts
  import opened Worlds
  import opened Batch

  /** How the selection loop compares its best element with the next. */
  function Judge(a: Elem, b: Elem): Ordering {
    if IsSame(a, b) && a.Plex? then Eq else CompareLWW(a, b)
  }

  function MaxIDs(es: seq<Elem>): ID
    requires es != []
  {
    if |es| == 1 then es[0].id else MaxID(MaxIDs(es[..|es| - 1]), es[|es| - 1].id)
  }

  function KidsOf(es: seq<Elem>): seq<Doc>
    requires forall e | e in es :: e.Plex?
  {
    if es == [] then [] else KidsOf(es[..|es| - 1]) + [es[|es| - 1].kids]
  }

  /** Revisions of one container, or copies of one value. */
  ghost predicate OneClass(es: seq<Elem>) {
    es != [] && forall e | e in es :: if e.Plex? then AreOne(es[0], e) else e == es[0]
  }

  lemma {:induction false} MergedClass(es: seq<Elem>)
    requires OneClass(es)
    ensures es[0].First? ==> FoldSpot(es) == es[0] && MaxIDs(es) == es[0].id
    ensures es[0].Plex? ==>
      && (forall e | e in es :: e.Plex?)
      && FoldSpot(es) == Plex(es[0].kind, MaxIDs(es), FoldMerge(es[0].kind, KidsOf(es)))
      && MaxIDs(es).src == es[0].id.src && MaxIDs(es).Stem() == es[0].id.Stem()
    decreases |es|
  {
    if |es| == 1 {
      if es[0].Plex? {
        assert KidsOf(es) == [es[0].kids];
      }
    } else {
      var n := |es| - 1;
      assert es == es[..n] + [es[n]];
      MergedClass(es[..n]);
      FoldSpotGrows(es[..n], es[n]);
      assert es[n] in es;
      if es[0].First? {
        SpotIdempotent(es[0]);
      } else {
        FoldMergeGrows(es[0].kind, KidsOf(es[..n]), es[n].kids);
      }
    }
  }

  lemma {:induction false} MaxIsAtLeast(es: seq<Elem>, e: Elem)
    requires es != [] && e in es
    ensures e.id.RevCompare(MaxIDs(es)) != Grtr
    ensures exists x | x in es :: x.id == MaxIDs(es)
    decreases |es|
  {
    var n := |es| - 1;
    if n == 0 {
      assert es[0].id == MaxIDs(es);
    } else {
      assert es == es[..n] + [es[n]];
      MaxIsAtLeast(es[..n], if e in es[..n] then e else es[0]);
      if MaxIDs(es[..n]).LessThan(es[n].id) {
        assert es[n] in es;
      } else {
        var x :| x in es[..n] && x.id == MaxIDs(es[..n]);
        assert x in es;
      }
    }
  }

  lemma {:induction false} EmptyMergeOfEmpty(k: Kind, ss: seq<Doc>, s: Doc)
    requires FoldMerge(k, ss) == [] && s in ss
    ensures s == []
    decreases |ss|
  {
    var n := |ss| - 1;
    assert ss == ss[..n] + [ss[n]];
    FoldMergeGrows(k, ss[..n], ss[n]);
    if s in ss[..n] {
      EmptyMergeOfEmpty(k, ss[..n], s);
    }
  }

  lemma {:induction false} KidsOfMember(es: seq<Elem>, e: Elem)
    requires (forall x | x in es :: x.Plex?) && e in es
    ensures |KidsOf(es)| == |es| && e.kids in KidsOf(es)
    decreases |es|
  {
    var n := |es| - 1;
    assert es == es[..n] + [es[n]];
    if n == 0 {
      assert KidsOf(es) == [e.kids];
    } else {
      KidsOfMember(es[..n], if e in es[..n] then e else es[0]);
    }
  }

  /** Elements that may stand at one place of a calm world. */
  ghost predicate Contestants(w: World, p: Path, es: seq<Elem>) {
    CalmWorld(w) && forall e | e in es :: Belongs(w, p, e)
  }

  /** An element that loses to the best one loses to the merge of the best class. */
  lemma {:induction false} LoserAddsNothing(w: World, p: Path, es: seq<Elem>, x: Elem)
    requires Contestants(w, p, es) && Belongs(w, p, x) && OneClass(es)
    requires Judge(es[0], x) == Grtr
    ensures Spot(FoldSpot(es), x) == FoldSpot(es)
  {
    var m := FoldSpot(es);
    MergedClass(es);
    FoldSpotBelongs(w, p, es);
    BelongsIsExact(w, p, m);
    BelongsIsExact(w, p, x);
    SpotOfStrangers(m, x);
    if es[0].Plex? {
      MaxIsAtLeast(es, es[0]);
      LWWFlips(es[0], x);
      KidsOfMember(es, es[0]);
      if m.kids == [] {
        EmptyMergeOfEmpty(es[0].kind, KidsOf(es), es[0].kids);
      }
    }
  }

  /**
   What makes the selection loop go wrong: the empty tuple e loses to the lower type t at its own
   id, but what e merges to with the other tuple z does not.
   */
  predicate Trap(e: Elem, t: Elem, z: Elem) {
    && IsEmptyTuple(e) && t.id == e.id && CompareType(t, e) == Less
    && AreOne(e, z) && !(IsEmptyTuple(z) && z.id == e.id)
  }

  /** A stranger above a revision of a container is above any later one, unless the first is an empty tuple at its id. */
  lemma {:induction false} StrangerStaysAbove(allowed: Shells, a: Elem, m: Elem, x: Elem)
    requires Calm(allowed) && allowed(ShellOf(a)) && allowed(ShellOf(m)) && allowed(ShellOf(x))
    requires AreOne(a, m) && !AreOne(a, x) && a.id.RevCompare(m.id) != Grtr
    requires CompareLWW(a, x) == Less
    requires IsEmptyTuple(a) && x.id == a.id && CompareType(x, a) == Less ==> m == a
    ensures CompareLWW(m, x) == Less
  {
    var r, s, t := ShellOf(a), ShellOf(x), ShellOf(m);
    assert OneContainer(r, t) && !OneContainer(r, s);
    assert !Between(r, s, t);
  }

  /** An element that beats the best one, not by a trap, beats the merge of its class. */
  lemma {:induction false} WinnerTakesAll(w: World, p: Path, es: seq<Elem>, x: Elem)
    requires Contestants(w, p, es) && Belongs(w, p, x) && OneClass(es)
    requires forall z | z in es :: !Trap(es[0], x, z)
    requires Judge(es[0], x) == Less
    ensures Spot(FoldSpot(es), x) == x
  {
    var m := FoldSpot(es);
    assert es[0] in es;
    MergedClass(es);
    FoldSpotBelongs(w, p, es);
    BelongsIsExact(w, p, m);
    BelongsIsExact(w, p, x);
    if es[0].Plex? {
      MaxIsAtLeast(es, es[0]);
      if IsEmptyTuple(es[0]) && x.id == es[0].id && CompareType(x, es[0]) == Less {
        AllOneEmptyTuple(es);
      }
      StrangerStaysAbove(w.shells(p), es[0], m, x);
    }
    SpotOfStrangers(m, x);
  }

  lemma {:induction false} AllOneEmptyTuple(es: seq<Elem>)
    requires OneClass(es) && forall z | z in es :: IsEmptyTuple(z) && z.id == es[0].id
    ensures FoldSpot(es) == es[0]
    decreases |es|
  {
    var n := |es| - 1;
    assert es[n] in es && IsEmptyTuple(es[n]) && es[n] == es[0] by {
      assert es[0] in es;
    }
    if n > 0 {
      assert es == es[..n] + [es[n]];
      AllOneEmptyTuple(es[..n]);
      FoldSpotGrows(es[..n], es[n]);
      SpotIdempotent(es[0]);
    }
  }

  /** An element that is neither joins the class. */
  lemma {:induction false} EqualJoins(w: World, p: Path, es: seq<Elem>, x: Elem)
    requires Contestants(w, p, es) && Belongs(w, p, x) && OneClass(es)
    requires Judge(es[0], x) == Eq
    ensures OneClass(es + [x])
  {
    assert es[0] in es && (es + [x])[0] == es[0];
    BelongsIsExact(w, p, es[0]);
    BelongsIsExact(w, p, x);
    if !AreOne(es[0], x) {
      TieIsIdentity(es[0], x);
    }
  }
}
