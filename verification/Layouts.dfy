/**
 Layouts: where the children of a container may stand.

 A sorted container has one slot per key. A linear container follows a sequence of rows, each
 with its locator; the rows need not be sorted. The slot of a child is found from the slot of
 the child before it: the next row whose key is not below the child's key. A list fits a layout
 when every child finds a row with its own key. Merge only ever sees keys, yet it behaves as if
 it saw slots: that is the content of this module.
 */
module Layouts {
  import opened Ids
  import opened Elements
  import opened Merge

  datatype Slot = AtKey(key: Key) | AtRow(row: nat)

  datatype Layout = Sorted | Rows(row: nat -> Key)

  /** How far into the layout a list has been read. */
  datatype Cursor = Start | After(slot: Slot)

  function NextRow(p: Cursor): nat {
    if p.After? && p.slot.AtRow? then p.slot.row + 1 else 0
  }

  ghost predicate Fits(lay: Layout, p: Cursor, key: Key, s: Slot) {
    match lay
    case Sorted =>
      s == AtKey(key) && (p.After? ==> p.slot.AtKey? && Below(p.slot.key, key))
    case Rows(row) =>
      && s.AtRow? && (p.After? ==> p.slot.AtRow?)
      && NextRow(p) <= s.row && row(s.row) == key
      && forall i :: NextRow(p) <= i < s.row ==> Below(row(i), key)
  }

  ghost predicate HasSlot(lay: Layout, p: Cursor, key: Key) {
    exists s :: Fits(lay, p, key, s)
  }

  ghost function SlotOf(lay: Layout, p: Cursor, key: Key): (s: Slot)
    requires HasSlot(lay, p, key)
    ensures Fits(lay, p, key, s)
  {
    var s :| Fits(lay, p, key, s); s
  }

  lemma SlotIsUnique(lay: Layout, p: Cursor, key: Key, s: Slot, t: Slot)
    requires Fits(lay, p, key, s) && Fits(lay, p, key, t)
    ensures s == t
  {
    KeysAreTotallyOrdered(key, key);
  }

  /** The lower key has the earlier slot, and reading past it does not move the other one. */
  lemma LowerKeyComesFirst(lay: Layout, p: Cursor, k1: Key, s1: Slot, k2: Key, s2: Slot)
    requires Fits(lay, p, k1, s1) && Fits(lay, p, k2, s2) && Below(k1, k2)
    ensures Fits(lay, After(s1), k2, s2) && Later(s1, s2)
  {
    KeysAreTotallyOrdered(k1, k2);
    assert lay.Rows? ==> lay.row(s2.row) == k2;
  }

  predicate Later(s: Slot, t: Slot) {
    match (s, t)
    case (AtKey(k), AtKey(l)) => Below(k, l)
    case (AtRow(i), AtRow(j)) => i < j
    case _ => false
  }

  lemma LaterIsStrict(s: Slot, t: Slot)
    requires Later(s, t)
    ensures !Later(t, s) && s != t
  {
    if s.AtKey? {
      KeysAreTotallyOrdered(s.key, t.key);
    }
  }

  lemma FitsLater(lay: Layout, s: Slot, key: Key, t: Slot)
    requires Fits(lay, After(s), key, t)
    ensures Later(s, t)
  {
  }

  /** The list xs, read from cursor p on, fits the layout. */
  ghost predicate Placed(lay: Layout, k: Kind, p: Cursor, xs: Doc)
    decreases |xs|
  {
    xs == [] ||
    (HasSlot(lay, p, KeyOf(k, xs[0])) && Placed(lay, k, After(SlotOf(lay, p, KeyOf(k, xs[0]))), xs[1..]))
  }

  /** The element that the list xs has at slot s. */
  ghost function Look(lay: Layout, k: Kind, p: Cursor, xs: Doc, s: Slot): MaybeElem
    requires Placed(lay, k, p, xs)
    decreases |xs|
  {
    if xs == [] then NoElem
    else
      var t := SlotOf(lay, p, KeyOf(k, xs[0]));
      if s == t then SomeElem(xs[0]) else Look(lay, k, After(t), xs[1..], s)
  }

  function Join(a: MaybeElem, b: MaybeElem): MaybeElem {
    match (a, b)
    case (NoElem, _) => b
    case (_, NoElem) => a
    case (SomeElem(x), SomeElem(y)) => SomeElem(Spot(x, y))
  }

  /** Reading past a lower slot leaves the rest of a list where it was. */
  lemma {:induction false} PlacedAfter(lay: Layout, k: Kind, p: Cursor, xs: Doc, key: Key)
    requires Placed(lay, k, p, xs) && HasSlot(lay, p, key)
    requires xs != [] ==> Below(key, KeyOf(k, xs[0]))
    ensures var q := After(SlotOf(lay, p, key));
            && Placed(lay, k, q, xs)
            && forall s :: Look(lay, k, q, xs, s) == Look(lay, k, p, xs, s)
  {
    if xs != [] {
      var t, u := SlotOf(lay, p, key), SlotOf(lay, p, KeyOf(k, xs[0]));
      LowerKeyComesFirst(lay, p, key, t, KeyOf(k, xs[0]), u);
      SlotIsUnique(lay, After(t), KeyOf(k, xs[0]), u, SlotOf(lay, After(t), KeyOf(k, xs[0])));
    }
  }

  lemma {:induction false} LookIsLater(lay: Layout, k: Kind, p: Slot, xs: Doc, s: Slot)
    requires Placed(lay, k, After(p), xs) && Look(lay, k, After(p), xs, s).SomeElem?
    ensures Later(p, s)
    decreases |xs|
  {
    var t := SlotOf(lay, After(p), KeyOf(k, xs[0]));
    FitsLater(lay, p, KeyOf(k, xs[0]), t);
    if s != t {
      LookIsLater(lay, k, t, xs[1..], s);
      if p.AtKey? {
        KeysTransitive(p.key, t.key, s.key);
      }
    }
  }

  lemma {:induction false} LookIsIn(lay: Layout, k: Kind, p: Cursor, xs: Doc, s: Slot)
    requires Placed(lay, k, p, xs) && Look(lay, k, p, xs, s).SomeElem?
    ensures Look(lay, k, p, xs, s).e in xs
    decreases |xs|
  {
    var t := SlotOf(lay, p, KeyOf(k, xs[0]));
    if s != t {
      LookIsIn(lay, k, After(t), xs[1..], s);
    }
  }

  lemma {:induction false} NotBehind(lay: Layout, k: Kind, s: Slot, xs: Doc)
    requires Placed(lay, k, After(s), xs)
    ensures Look(lay, k, After(s), xs, s) == NoElem
  {
    if Look(lay, k, After(s), xs, s).SomeElem? {
      LookIsLater(lay, k, s, xs, s);
      LaterIsStrict(s, s);
    }
  }

  /** A list is determined by what it has in each slot. */
  lemma {:induction false} SameLooksSameList(lay: Layout, k: Kind, p: Cursor, xs: Doc, ys: Doc)
    requires Placed(lay, k, p, xs) && Placed(lay, k, p, ys)
    requires forall s :: Look(lay, k, p, xs, s) == Look(lay, k, p, ys, s)
    ensures xs == ys
    decreases |xs|
  {
    assert ys != [] ==> Look(lay, k, p, ys, SlotOf(lay, p, KeyOf(k, ys[0]))).SomeElem?;
    if xs != [] {
      var s := SlotOf(lay, p, KeyOf(k, xs[0]));
      assert Look(lay, k, p, xs, s) == SomeElem(xs[0]);
      assert Look(lay, k, p, ys, s) == SomeElem(xs[0]);
      var t := SlotOf(lay, p, KeyOf(k, ys[0]));
      assert Look(lay, k, p, ys, t) == SomeElem(ys[0]);
      if s != t {
        LookIsLater(lay, k, t, ys[1..], s);
        LookIsLater(lay, k, s, xs[1..], t);
        LaterIsStrict(s, t);
      }
      NotBehind(lay, k, s, xs[1..]);
      NotBehind(lay, k, s, ys[1..]);
      forall u ensures Look(lay, k, After(s), xs[1..], u) == Look(lay, k, After(s), ys[1..], u) {
        assert Look(lay, k, p, xs, u) == Look(lay, k, p, ys, u);
      }
      SameLooksSameList(lay, k, After(s), xs[1..], ys[1..]);
      assert xs == [xs[0]] + xs[1..] && ys == [ys[0]] + ys[1..];
    }
  }

  /** Merging lists that fit one layout is merging slot by slot, and the result fits it too. */
  lemma {:induction false} MergeIsSlotwise(lay: Layout, k: Kind, p: Cursor, xs: Doc, ys: Doc)
    requires Placed(lay, k, p, xs) && Placed(lay, k, p, ys)
    ensures Placed(lay, k, p, MergeList(k, xs, ys))
    ensures forall s :: Look(lay, k, p, MergeList(k, xs, ys), s)
                        == Join(Look(lay, k, p, xs, s), Look(lay, k, p, ys, s))
    decreases |xs| + |ys|
  {
    if xs != [] && ys != [] {
      CompareIsKeyOrder(k, xs[0], ys[0]);
      KeysAreTotallyOrdered(KeyOf(k, xs[0]), KeyOf(k, ys[0]));
      match Compare(k, xs[0], ys[0])
      case Less => MergeLower(lay, k, p, xs, ys);
      case Grtr => MergeUpper(lay, k, p, xs, ys);
      case Eq => MergeEqual(lay, k, p, xs, ys);
    }
  }

  lemma {:induction false} MergeLower(lay: Layout, k: Kind, p: Cursor, xs: Doc, ys: Doc)
    requires Placed(lay, k, p, xs) && Placed(lay, k, p, ys) && xs != [] && ys != []
    requires Compare(k, xs[0], ys[0]) == Less && Below(KeyOf(k, xs[0]), KeyOf(k, ys[0]))
    ensures Placed(lay, k, p, MergeList(k, xs, ys))
    ensures forall s :: Look(lay, k, p, MergeList(k, xs, ys), s)
                        == Join(Look(lay, k, p, xs, s), Look(lay, k, p, ys, s))
    decreases |xs| + |ys|, 0
  {
    var t := SlotOf(lay, p, KeyOf(k, xs[0]));
    PlacedAfter(lay, k, p, ys, KeyOf(k, xs[0]));
    MergeIsSlotwise(lay, k, After(t), xs[1..], ys);
    NotBehind(lay, k, t, ys);
  }

  lemma {:induction false} MergeUpper(lay: Layout, k: Kind, p: Cursor, xs: Doc, ys: Doc)
    requires Placed(lay, k, p, xs) && Placed(lay, k, p, ys) && xs != [] && ys != []
    requires Compare(k, xs[0], ys[0]) == Grtr && Below(KeyOf(k, ys[0]), KeyOf(k, xs[0]))
    ensures Placed(lay, k, p, MergeList(k, xs, ys))
    ensures forall s :: Look(lay, k, p, MergeList(k, xs, ys), s)
                        == Join(Look(lay, k, p, xs, s), Look(lay, k, p, ys, s))
    decreases |xs| + |ys|, 0
  {
    var t := SlotOf(lay, p, KeyOf(k, ys[0]));
    PlacedAfter(lay, k, p, xs, KeyOf(k, ys[0]));
    MergeIsSlotwise(lay, k, After(t), xs, ys[1..]);
    NotBehind(lay, k, t, xs);
  }

  lemma {:induction false} MergeEqual(lay: Layout, k: Kind, p: Cursor, xs: Doc, ys: Doc)
    requires Placed(lay, k, p, xs) && Placed(lay, k, p, ys) && xs != [] && ys != []
    requires Compare(k, xs[0], ys[0]) == Eq && KeyOf(k, xs[0]) == KeyOf(k, ys[0])
    ensures Placed(lay, k, p, MergeList(k, xs, ys))
    ensures forall s :: Look(lay, k, p, MergeList(k, xs, ys), s)
                        == Join(Look(lay, k, p, xs, s), Look(lay, k, p, ys, s))
    decreases |xs| + |ys|, 0
  {
    var t := SlotOf(lay, p, KeyOf(k, xs[0]));
    SpotKeepsKey(k, xs[0], ys[0]);
    MergeIsSlotwise(lay, k, After(t), xs[1..], ys[1..]);
  }

  // ---- ascending lists

  /** Each key is below the next. */
  predicate Ascending(k: Kind, xs: Doc) {
    forall i | 0 < i < |xs| :: Below(KeyOf(k, xs[i - 1]), KeyOf(k, xs[i]))
  }

  lemma {:induction false} AscendingIsPlaced(k: Kind, p: Cursor, xs: Doc)
    requires p.After? ==> p.slot.AtKey?
    ensures Placed(Sorted, k, p, xs)
       <==> Ascending(k, xs) && (p.After? && xs != [] ==> Below(p.slot.key, KeyOf(k, xs[0])))
    decreases |xs|
  {
    if xs != [] {
      var key := KeyOf(k, xs[0]);
      if p.After? ==> Below(p.slot.key, key) {
        assert Fits(Sorted, p, key, AtKey(key));
        AscendingIsPlaced(k, After(AtKey(key)), xs[1..]);
        AscendingTail(k, xs);
      }
    }
  }

  lemma AscendingTail(k: Kind, xs: Doc)
    requires xs != []
    ensures Ascending(k, xs)
       <==> Ascending(k, xs[1..]) && (|xs| > 1 ==> Below(KeyOf(k, xs[0]), KeyOf(k, xs[1])))
  {
    assert forall i | 0 < i < |xs[1..]| :: xs[1..][i] == xs[i + 1] && xs[1..][i - 1] == xs[i];
    if Ascending(k, xs[1..]) && (|xs| > 1 ==> Below(KeyOf(k, xs[0]), KeyOf(k, xs[1]))) {
      forall i | 0 < i < |xs| ensures Below(KeyOf(k, xs[i - 1]), KeyOf(k, xs[i])) {
        if i > 1 {
          assert Below(KeyOf(k, xs[1..][i - 2]), KeyOf(k, xs[1..][i - 1]));
        }
      }
    }
  }

  /** Then each key is below all later ones. */
  lemma {:induction false} LaterIsAbove(k: Kind, xs: Doc, i: nat, j: nat)
    requires Ascending(k, xs) && i < j < |xs|
    ensures Below(KeyOf(k, xs[i]), KeyOf(k, xs[j]))
    decreases j
  {
    assert Below(KeyOf(k, xs[j - 1]), KeyOf(k, xs[j]));
    if i < j - 1 {
      LaterIsAbove(k, xs, i, j - 1);
      KeysTransitive(KeyOf(k, xs[i]), KeyOf(k, xs[j - 1]), KeyOf(k, xs[j]));
    }
  }

  lemma AscendingGrows(k: Kind, xs: Doc, x: Elem)
    requires Ascending(k, xs) && (xs != [] ==> Below(KeyOf(k, xs[|xs| - 1]), KeyOf(k, x)))
    ensures Ascending(k, xs + [x])
  {
  }

  lemma {:induction false} MergeAscends(k: Kind, xs: Doc, ys: Doc)
    requires Ascending(k, xs) && Ascending(k, ys)
    ensures Ascending(k, MergeList(k, xs, ys))
  {
    AscendingIsPlaced(k, Start, xs);
    AscendingIsPlaced(k, Start, ys);
    MergeIsSlotwise(Sorted, k, Start, xs, ys);
    AscendingIsPlaced(k, Start, MergeList(k, xs, ys));
  }
}
