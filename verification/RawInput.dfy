/** Input that the normalizer sorts as the two-way merge would: any stamps that keep one discipline. */
module RawInput {
  import opened Seqs
  import opened Ids
  import opened Elements
  import opened Merge
  import opened Layouts
  import opened Worlds
  import opened Laws
  import opened Discipline
  import opened Batch
  import opened Engine
  import opened TopMerge
  import opened Normal
  import opened Normalizer
  import EngineNormal

  type Holes = Path -> (ID -> bool)

  function KeyPlace(c: Path, k: Kind, x: Elem): Path { c + [At(AtKey(KeyOf(k, x)))] }

  /**
   Disciplined stamps and exact values; sets and multiplexed containers in any order, with doublets,
   in at most seven runs; empty tuples kept apart, or directly in a set, which drops them.
   */
  predicate Raw(r: Rules, holes: Holes, p: Path, e: Elem)
    decreases e, 0
  {
    Follows(r.use(p)(e.id.Stem()), ShellOf(e)) &&
    match e
    case First(_, val) => ExactPrim(val)
    case Plex(k, _, kids) => RawKids(r, holes, Inside(p, e), k, kids)
  }

  predicate RawKids(r: Rules, holes: Holes, c: Path, k: Kind, kids: Doc)
    decreases kids, 2
  {
    Runs(k, kids) <= 7 && if k == E || k == X then RawMembers(r, holes, c, k, kids) else RawList(r, holes, c, k, Start, kids)
  }

  /** The children of a sorted container, each at its key. */
  predicate RawMembers(r: Rules, holes: Holes, c: Path, k: Kind, kids: Doc)
    decreases kids, 1
  {
    forall x | x in kids ::
      && Raw(r, holes, KeyPlace(c, k, x), x)
      && ((k == E && IsEmptyTuple(x)) || KeepsHoles(holes(KeyPlace(c, k, x)), x))
  }

  /** The children of a tuple or an array, from cursor q on. */
  predicate RawList(r: Rules, holes: Holes, c: Path, k: Kind, q: Cursor, kids: Doc)
    decreases kids, 1
  {
    kids == [] ||
    var a, key := ArrangementAt(r, c, k), KeyOf(k, kids[0]);
    var p := c + [At(Seat(a, q, key))];
    && HasSeat(a, q, key) && Raw(r, holes, p, kids[0]) && KeepsHoles(holes(p), kids[0])
    && RawList(r, holes, c, k, After(Seat(a, q, key)), kids[1..])
  }

  lemma TidyIsClosed(holes: Holes)
    ensures forall p: Path :: Closed(Tidy(holes)(p))
  {
    forall p: Path, a, b | KeepsHoles(holes(p), a) && KeepsHoles(holes(p), b) ensures KeepsHoles(holes(p), Spot(a, b)) {
      TidySpot(holes(p), a, b);
    }
  }

  lemma {:induction false} TidySpot(holes: ID -> bool, a: Elem, b: Elem)
    requires KeepsHoles(holes, a) && KeepsHoles(holes, b)
    ensures KeepsHoles(holes, Spot(a, b))
  {
    SpotKeepsShell(a, b);
    if a.Plex? && b.Plex? && IsSame(a, b) {
      if a.kind == P && IsEmptyTuple(Spot(a, b)) {
        assert a.kids == [] && b.kids == [];
      }
    }
  }

  ghost predicate AllTidy(r: Rules, holes: Holes, c: Path, k: Kind, ss: seq<Doc>) {
    forall s | s in ss :: DisciplinedList(r, Tidy(holes), c, k, Start, s)
  }

  lemma {:induction false} BatchKeepsDiscipline(r: Rules, holes: Holes, c: Path, k: Kind, ss: seq<Doc>)
    requires AllTidy(r, holes, c, k, ss)
    ensures DisciplinedList(r, Tidy(holes), c, k, Start, FoldMerge(k, ss))
    decreases |ss|
  {
    if ss != [] {
      var front, last := ss[..|ss| - 1], ss[|ss| - 1];
      SplitLast(ss);
      assert forall s | s in front :: s in ss;
      BatchKeepsDiscipline(r, holes, c, k, front);
      FoldMergeGrows(k, front, last);
      TidyIsClosed(holes);
      MergeKeepsDiscipline(r, Tidy(holes), c, k, Start, FoldMerge(k, front), last);
    }
  }

  /** Every element stands where its key puts it. */
  ghost predicate MembersKeep(r: Rules, holes: Holes, c: Path, k: Kind, xs: Doc) {
    forall x | x in xs :: Disciplined(r, Tidy(holes), KeyPlace(c, k, x), x)
  }

  lemma {:induction false} PassMembersKeep(r: Rules, holes: Holes, c: Path, k: Kind, raw: Doc)
    requires RawMembers(r, holes, c, k, raw)
    ensures MembersKeep(r, holes, c, k, Passed(FOLD, k, raw).last)
    ensures forall s | s in Passed(FOLD, k, raw).chunks :: MembersKeep(r, holes, c, k, s)
    decreases raw, 0
  {
    if raw != [] {
      var n := |raw| - 1;
      assert raw[n] in raw && forall x | x in raw[..n] :: x in raw;
      PassMembersKeep(r, holes, c, k, raw[..n]);
      NormKeepsKey(FOLD, k, raw[n]);
      if !(k == E && IsEmptyTuple(raw[n])) {
        NormIsDisciplined(r, holes, KeyPlace(c, k, raw[n]), raw[n]);
      }
    }
  }

  /** The runs of raw children keep the discipline. */
  lemma {:induction false} RunsAreDisciplined(r: Rules, holes: Holes, c: Path, k: Kind, raw: Doc)
    requires (k == E || k == X) && RawMembers(r, holes, c, k, raw)
    ensures AllTidy(r, holes, c, k, Passed(FOLD, k, raw).chunks + [Passed(FOLD, k, raw).last])
    decreases raw, 1
  {
    var p := Passed(FOLD, k, raw);
    PassMembersKeep(r, holes, c, k, raw);
    PassAscends(FOLD, k, raw);
    forall s | s in p.chunks + [p.last] ensures DisciplinedList(r, Tidy(holes), c, k, Start, s) {
      assert Ascending(k, s) && MembersKeep(r, holes, c, k, s);
      assert forall x | x in s :: KeyPlace(c, k, x) == c + [At(AtKey(KeyOf(k, x)))];
      AscendingIsDisciplined(r, Tidy(holes), c, k, Start, s);
    }
  }

  lemma {:induction false} ListIsDisciplined(r: Rules, holes: Holes, c: Path, k: Kind, q: Cursor, raw: Doc, xs: Doc)
    requires RawList(r, holes, c, k, q, raw)
    requires |xs| == |raw| && forall i | 0 <= i < |raw| :: xs[i] == NormElem(FOLD, raw[i])
    ensures DisciplinedList(r, Tidy(holes), c, k, q, xs)
    decreases raw, 1
  {
    if raw != [] {
      var a, key := ArrangementAt(r, c, k), KeyOf(k, raw[0]);
      NormKeepsKey(FOLD, k, raw[0]);
      NormIsDisciplined(r, holes, c + [At(Seat(a, q, key))], raw[0]);
      ListIsDisciplined(r, holes, c, k, After(Seat(a, q, key)), raw[1..], xs[1..]);
    }
  }

  lemma {:induction false} NormIsDisciplined(r: Rules, holes: Holes, p: Path, e: Elem)
    requires Raw(r, holes, p, e) && KeepsHoles(holes(p), e)
    ensures Disciplined(r, Tidy(holes), p, NormElem(FOLD, e))
    decreases e, 1
  {
    NormKeepsKey(FOLD, P, e);
    if e.Plex? {
      KidsAreDisciplined(r, holes, Inside(p, e), e.kind, e.kids);
    }
  }

  lemma {:induction false} KidsAreDisciplined(r: Rules, holes: Holes, c: Path, k: Kind, raw: Doc)
    requires RawKids(r, holes, c, k, raw)
    ensures DisciplinedList(r, Tidy(holes), c, k, Start, NormKids(FOLD, k, raw))
    decreases raw, 2
  {
    var p := Passed(FOLD, k, raw);
    if k == E || k == X {
      RunsAreDisciplined(r, holes, c, k, raw);
      BatchKeepsDiscipline(r, holes, c, k, p.chunks + [p.last]);
    } else {
      PassedPositional(FOLD, k, raw);
      ListIsDisciplined(r, holes, c, k, Start, raw, p.last);
    }
  }

  /** So the normalizer's output is the one that the two-way merge makes, at every level. */
  lemma {:induction false} RawIsSortable(r: Rules, holes: Holes, c: Path, k: Kind, raw: Doc)
    requires RawKids(r, holes, c, k, raw)
    ensures Sortable(k, raw)
    decreases raw, 1
  {
    var p := Passed(FOLD, k, raw);
    if k == E || k == X {
      RunsFit(r, holes, c, k, raw);
      forall e | e in raw && e.Plex? ensures Sortable(e.kind, e.kids) {
        assert Raw(r, holes, KeyPlace(c, k, e), e);
        RawIsSortable(r, holes, Inside(KeyPlace(c, k, e), e), e.kind, e.kids);
      }
    } else {
      PassedPositional(FOLD, k, raw);
      RawListIsSortable(r, holes, c, k, Start, raw);
    }
  }

  lemma {:induction false} RawListIsSortable(r: Rules, holes: Holes, c: Path, k: Kind, q: Cursor, raw: Doc)
    requires RawList(r, holes, c, k, q, raw)
    ensures forall e | e in raw && e.Plex? :: Sortable(e.kind, e.kids)
    decreases raw, 0
  {
    if raw != [] {
      var p := c + [At(Seat(ArrangementAt(r, c, k), q, KeyOf(k, raw[0])))];
      if raw[0].Plex? {
        RawIsSortable(r, holes, Inside(p, raw[0]), raw[0].kind, raw[0].kids);
      }
      RawListIsSortable(r, holes, c, k, After(p[|p| - 1].slot), raw[1..]);
    }
  }

  lemma {:induction false} RunsFit(r: Rules, holes: Holes, c: Path, k: Kind, raw: Doc)
    requires (k == E || k == X) && RawKids(r, holes, c, k, raw)
    ensures var p := Passed(FOLD, k, raw); Mergeable(WorldOf(r, Tidy(holes)), c, k, Start, p.chunks + [p.last])
  {
    var p := Passed(FOLD, k, raw);
    RunsAreDisciplined(r, holes, c, k, raw);
    PassCutsRuns(FOLD, k, raw);
    WorldIsCalm(r, Tidy(holes));
    forall s | s in p.chunks + [p.last] ensures Laid(WorldOf(r, Tidy(holes)), c, k, Start, s) {
      DisciplinedIsLaid(r, Tidy(holes), c, k, Start, s);
    }
  }

  /** Normalizing raw input gives at every key the spot-merge of all elements with that key, in input order. */
  lemma {:induction false} NormalizedIsKeywise(r: Rules, holes: Holes, c: Path, k: Kind, raw: Doc, key: Key)
    requires RawKids(r, holes, c, k, raw) && (k == E || k == X)
    ensures Placed(Sorted, k, Start, NormKids(EngineNormal.HEAP, k, raw))
    ensures AtKeyOf(k, NormKids(EngineNormal.HEAP, k, raw), key) == Folded(Sharing(k, key, raw))
  {
    RawIsSortable(r, holes, c, k, raw);
    SortableIsFold(k, raw);
    NormIsKeywise(k, raw, key);
  }
}
