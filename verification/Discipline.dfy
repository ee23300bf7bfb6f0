/**
 What a caller can check of documents so that they merge by all three laws: rules for stamps, arrays and
 empty tuples, which may differ from place to place.
 */
module Discipline {
  import opened Ids
  import opened Elements
  import opened Merge
  import opened Layouts
  import opened Worlds
  import opened Laws

  const ZERO_LOCATOR: Key := KeyOf(L, F0)

  /** How a list is kept: ascending; all elements at one locator, as in JSON; or, with insertion trains, along given rows. */
  datatype Arrangement = InOrder | AllAt(key: Key) | Along(rows: seq<Key>)

  /** At every place: what may share one `time / 64`, and how an array there is kept. */
  datatype Rules = Rules(use: Path -> (int -> StemUse), arrays: Path -> Arrangement)

  type Roster = Path -> (Elem -> bool)

  const ANY: Roster := (p: Path) => (e: Elem) => true

  function ArrangementAt(r: Rules, c: Path, k: Kind): Arrangement {
    match k
    case P => AllAt(NO_KEY)
    case L => r.arrays(c)
    case E => InOrder
    case X => InOrder
  }

  /** The first row from i on that is not below the key. */
  function RowFor(rows: seq<Key>, i: nat, key: Key): (j: nat)
    ensures i <= j
    decreases |rows| - i
  {
    if i >= |rows| || !Below(rows[i], key) then i else RowFor(rows, i + 1, key)
  }

  function Seat(a: Arrangement, q: Cursor, key: Key): Slot {
    match a
    case InOrder => AtKey(key)
    case AllAt(_) => AtRow(NextRow(q))
    case Along(rows) => AtRow(RowFor(rows, NextRow(q), key))
  }

  /** There is a place for the key behind cursor q. */
  predicate HasSeat(a: Arrangement, q: Cursor, key: Key) {
    match a
    case InOrder => q.After? ==> q.slot.AtKey? && Below(q.slot.key, key)
    case AllAt(z) => key == z && (q.After? ==> q.slot.AtRow?)
    case Along(rows) =>
      var i := RowFor(rows, NextRow(q), key);
      i < |rows| && rows[i] == key && (q.After? ==> q.slot.AtRow?)
  }

  /** The stamps follow the rules, every list is kept as it should be, every element is `ok` where it stands. */
  predicate Disciplined(r: Rules, ok: Roster, p: Path, e: Elem)
    decreases e, 0
  {
    Follows(r.use(p)(e.id.Stem()), ShellOf(e)) && ok(p)(e) &&
    match e
    case First(_, val) => ExactPrim(val)
    case Plex(k, _, kids) => DisciplinedList(r, ok, Inside(p, e), k, Start, kids)
  }

  predicate DisciplinedList(r: Rules, ok: Roster, c: Path, k: Kind, q: Cursor, xs: Doc)
    decreases xs, 1
  {
    xs == [] ||
    var a, key := ArrangementAt(r, c, k), KeyOf(k, xs[0]);
    && HasSeat(a, q, key)
    && Disciplined(r, ok, c + [At(Seat(a, q, key))], xs[0])
    && DisciplinedList(r, ok, c, k, After(Seat(a, q, key)), xs[1..])
  }

  predicate DisciplinedDoc(r: Rules, ok: Roster, d: Doc) { DisciplinedList(r, ok, [], P, Start, d) }

  // ---- where disciplined documents are at home

  function LayoutOf(a: Arrangement): Layout {
    match a
    case InOrder => Sorted
    case AllAt(z) => Rows((i: nat) => z)
    case Along(rows) => Rows((i: nat) => if i < |rows| then rows[i] else Nothing)
  }

  ghost function WorldOf(r: Rules, ok: Roster): World {
    World((p: Path) => (s: Shell) => Follows(r.use(p)(s.id.Stem()), s), (c: Path) => LayoutOf(r.arrays(c)), ok)
  }

  lemma WorldIsCalm(r: Rules, ok: Roster)
    ensures CalmWorld(Opened(WorldOf(r, ok)))
    ensures (forall p: Path :: Closed(ok(p))) ==> CalmWorld(WorldOf(r, ok))
  {
    forall p: Path ensures Calm(WorldOf(r, ok).shells(p)) {
      DisciplineIsCalm(r.use(p), WorldOf(r, ok).shells(p));
    }
  }

  lemma {:induction false} RowForIsFirst(rows: seq<Key>, i: nat, key: Key)
    ensures var j := RowFor(rows, i, key);
            && (j < |rows| ==> !Below(rows[j], key))
            && forall m | i <= m < j :: m < |rows| && Below(rows[m], key)
    decreases |rows| - i
  {
    if i < |rows| && Below(rows[i], key) {
      RowForIsFirst(rows, i + 1, key);
    }
  }

  /** The seat is the slot. */
  lemma SeatIsSlot(r: Rules, ok: Roster, c: Path, k: Kind, q: Cursor, e: Elem)
    ensures var a, lay, key := ArrangementAt(r, c, k), LayoutAt(WorldOf(r, ok), c, k), KeyOf(k, e);
            && (HasSeat(a, q, key) <==> HasSlot(lay, q, key))
            && (HasSeat(a, q, key) ==> Fits(lay, q, key, Seat(a, q, key)) && SlotOf(lay, q, key) == Seat(a, q, key))
  {
    var a, lay, key := ArrangementAt(r, c, k), LayoutAt(WorldOf(r, ok), c, k), KeyOf(k, e);
    if a.Along? {
      RowForIsFirst(a.rows, NextRow(q), key);
    }
    if HasSeat(a, q, key) {
      assert Fits(lay, q, key, Seat(a, q, key));
      SlotIsUnique(lay, q, key, Seat(a, q, key), SlotOf(lay, q, key));
    } else if HasSlot(lay, q, key) {
      NoOtherSlot(r, ok, c, k, q, e);
    }
  }

  lemma NoOtherSlot(r: Rules, ok: Roster, c: Path, k: Kind, q: Cursor, e: Elem)
    requires HasSlot(LayoutAt(WorldOf(r, ok), c, k), q, KeyOf(k, e))
    ensures HasSeat(ArrangementAt(r, c, k), q, KeyOf(k, e))
  {
    var a, lay, key := ArrangementAt(r, c, k), LayoutAt(WorldOf(r, ok), c, k), KeyOf(k, e);
    var s := SlotOf(lay, q, key);
    if a.Along? {
      var j := RowFor(a.rows, NextRow(q), key);
      RowForIsFirst(a.rows, NextRow(q), key);
      KeysAreTotallyOrdered(key, key);
      assert s.row < |a.rows| && a.rows[s.row] == key;
      assert forall m | NextRow(q) <= m < s.row :: Below(lay.row(m), key);
      assert lay.row(j) == if j < |a.rows| then a.rows[j] else Nothing;
      assert j == s.row;
    }
  }

  /** What can be checked is what the world asks. */
  lemma {:induction false} DisciplinedBelongs(r: Rules, ok: Roster, p: Path, e: Elem)
    ensures Disciplined(r, ok, p, e) <==> Belongs(WorldOf(r, ok), p, e)
    decreases e, 0
  {
    if e.Plex? {
      DisciplinedIsLaid(r, ok, Inside(p, e), e.kind, Start, e.kids);
    }
  }

  lemma {:induction false} DisciplinedIsLaid(r: Rules, ok: Roster, c: Path, k: Kind, q: Cursor, xs: Doc)
    ensures DisciplinedList(r, ok, c, k, q, xs) <==> Laid(WorldOf(r, ok), c, k, q, xs)
    decreases xs, 1
  {
    if xs != [] {
      var a, key := ArrangementAt(r, c, k), KeyOf(k, xs[0]);
      SeatIsSlot(r, ok, c, k, q, xs[0]);
      if HasSeat(a, q, key) {
        DisciplinedBelongs(r, ok, c + [At(Seat(a, q, key))], xs[0]);
        DisciplinedIsLaid(r, ok, c, k, After(Seat(a, q, key)), xs[1..]);
      }
    }
  }

  lemma {:induction false} DisciplinedIsExact(r: Rules, ok: Roster, d: Doc)
    requires DisciplinedDoc(r, ok, d)
    ensures ExactDoc(d)
  {
    DisciplinedIsLaid(r, ok, [], P, Start, d);
    LaidIsExact(WorldOf(r, ok), [], P, Start, d);
  }

  // ---- the laws

  /** Merging keeps the discipline. */
  lemma {:induction false} MergeKeepsDiscipline(r: Rules, ok: Roster, c: Path, k: Kind, q: Cursor, xs: Doc, ys: Doc)
    requires DisciplinedList(r, ok, c, k, q, xs) && DisciplinedList(r, ok, c, k, q, ys)
    requires forall p: Path :: Closed(ok(p))
    ensures DisciplinedList(r, ok, c, k, q, MergeList(k, xs, ys))
  {
    DisciplinedIsLaid(r, ok, c, k, q, xs);
    DisciplinedIsLaid(r, ok, c, k, q, ys);
    DisciplinedIsLaid(r, ok, c, k, q, MergeList(k, xs, ys));
    MergeListLaid(WorldOf(r, ok), c, k, q, xs, ys);
  }

  /** Documents that keep one discipline, arrays with insertion trains included, merge by all three laws, and the merge keeps it. */
  lemma DocumentsFormASemilattice(r: Rules, a: Doc, b: Doc, c: Doc)
    requires DisciplinedDoc(r, ANY, a) && DisciplinedDoc(r, ANY, b) && DisciplinedDoc(r, ANY, c)
    ensures MergeDocs(a, b) == MergeDocs(b, a)
    ensures MergeDocs(a, a) == a
    ensures MergeDocs(MergeDocs(a, b), c) == MergeDocs(a, MergeDocs(b, c))
    ensures DisciplinedDoc(r, ANY, MergeDocs(a, b))
  {
    var w := WorldOf(r, ANY);
    WorldIsCalm(r, ANY);
    DisciplinedIsLaid(r, ANY, [], P, Start, a);
    DisciplinedIsLaid(r, ANY, [], P, Start, b);
    DisciplinedIsLaid(r, ANY, [], P, Start, c);
    MergeStaysInTheWorld(w, a, b);
    MergeIsIdempotent(a);
    MergeIsAssociative(w, a, b, c);
    MergeKeepsDiscipline(r, ANY, [], P, Start, a, b);
  }

  // ---- lists element by element

  /** An ascending list: every element stands at its key. */
  lemma {:induction false} AscendingIsDisciplined(r: Rules, ok: Roster, c: Path, k: Kind, q: Cursor, xs: Doc)
    requires ArrangementAt(r, c, k) == InOrder && Ascending(k, xs)
    requires q.After? ==> q.slot.AtKey? && (xs != [] ==> Below(q.slot.key, KeyOf(k, xs[0])))
    requires forall x | x in xs :: Disciplined(r, ok, c + [At(AtKey(KeyOf(k, x)))], x)
    ensures DisciplinedList(r, ok, c, k, q, xs)
    decreases |xs|
  {
    if xs != [] {
      assert xs[0] in xs && forall x | x in xs[1..] :: x in xs;
      AscendingTail(k, xs);
      AscendingIsDisciplined(r, ok, c, k, After(AtKey(KeyOf(k, xs[0]))), xs[1..]);
    }
  }

  /** A list that is all at one locator: every element stands at its index. */
  lemma {:induction false} AllAtIsDisciplined(r: Rules, ok: Roster, c: Path, k: Kind, q: Cursor, xs: Doc)
    requires var a := ArrangementAt(r, c, k); a.AllAt? && forall x | x in xs :: KeyOf(k, x) == a.key
    requires q.After? ==> q.slot.AtRow?
    requires forall i | 0 <= i < |xs| :: Disciplined(r, ok, c + [At(AtRow(NextRow(q) + i))], xs[i])
    ensures DisciplinedList(r, ok, c, k, q, xs)
    decreases |xs|
  {
    if xs != [] {
      var n := NextRow(q);
      assert xs[0] in xs && forall x | x in xs[1..] :: x in xs;
      assert Disciplined(r, ok, c + [At(AtRow(n + 0))], xs[0]);
      forall i | 0 <= i < |xs[1..]| ensures Disciplined(r, ok, c + [At(AtRow(n + 1 + i))], xs[1..][i]) {
        assert Disciplined(r, ok, c + [At(AtRow(n + (i + 1)))], xs[i + 1]);
      }
      AllAtIsDisciplined(r, ok, c, k, After(AtRow(n)), xs[1..]);
    }
  }

  // ---- unstamped documents

  /** No stamps anywhere, and sets in order: what a JSON document becomes. */
  predicate Plain(e: Elem) {
    e.id == ID0 &&
    match e
    case First(_, val) => ExactPrim(val)
    case Plex(k, _, kids) => (k == E || k == X ==> Ascending(k, kids)) && forall x | x in kids :: Plain(x)
  }

  const UNSTAMPED: Rules := Rules((p: Path) => (stem: int) => OneRevision(0), (c: Path) => AllAt(ZERO_LOCATOR))

  lemma {:induction false} PlainIsDisciplined(p: Path, e: Elem)
    requires Plain(e)
    ensures Disciplined(UNSTAMPED, ANY, p, e)
    decreases e, 0
  {
    if e.Plex? {
      PlainListIsDisciplined(Inside(p, e), e.kind, e.kids);
    }
  }

  lemma {:induction false} PlainListIsDisciplined(c: Path, k: Kind, xs: Doc)
    requires (k == E || k == X ==> Ascending(k, xs)) && forall x | x in xs :: Plain(x)
    ensures DisciplinedList(UNSTAMPED, ANY, c, k, Start, xs)
    decreases xs, 1
  {
    forall p: Path, x | x in xs ensures Disciplined(UNSTAMPED, ANY, p, x) { PlainIsDisciplined(p, x); }
    if k == E || k == X {
      AscendingIsDisciplined(UNSTAMPED, ANY, c, k, Start, xs);
    } else {
      assert forall x | x in xs :: KeyOf(L, x) == ZERO_LOCATOR;
      assert forall i | 0 <= i < |xs| :: xs[i] in xs;
      AllAtIsDisciplined(UNSTAMPED, ANY, c, k, Start, xs);
    }
  }

  /** Unstamped documents merge by all three laws, without any condition. */
  lemma PlainDocumentsFormASemilattice(a: Doc, b: Doc, c: Doc)
    requires forall x | x in a + b + c :: Plain(x)
    ensures MergeDocs(a, b) == MergeDocs(b, a)
    ensures MergeDocs(a, a) == a
    ensures MergeDocs(MergeDocs(a, b), c) == MergeDocs(a, MergeDocs(b, c))
  {
    assert forall x | x in a || x in b || x in c :: x in a + b + c;
    PlainListIsDisciplined([], P, a);
    PlainListIsDisciplined([], P, b);
    PlainListIsDisciplined([], P, c);
    DocumentsFormASemilattice(UNSTAMPED, a, b, c);
  }
}
