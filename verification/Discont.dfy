/**
 DISCONT: linear containers are merged as if they were sorted although they are not.

 A layout is any sequence of locators. The head of a row is the nearest earlier row whose locator
 is not below its own: an insertion train stands right after its head and below it, so the head
 of the train is the head of each of its rows. A version of the array holds some of the rows;
 it is head-closed when it holds the head of every row it holds.
 */
module Discont {
  import opened Ids
  import opened Elements
  import opened Merge
  import opened Layouts
  import opened Batch
  import opened KeyLists
  import opened Seqs

  /** The nearest row before `i` whose key is not below the key of row `j`, or -1. */
  function HeadFrom(u: seq<Key>, j: nat, i: nat): int
    requires i <= j < |u|
  {
    if i == 0 then -1
    else if !Below(u[i - 1], u[j]) then i - 1
    else HeadFrom(u, j, i - 1)
  }

  function Head(u: seq<Key>, j: nat): int
    requires j < |u|
  {
    HeadFrom(u, j, j)
  }

  predicate HeadClosed(u: seq<Key>, sel: set<nat>) {
    forall j | j in sel && j < |u| :: Head(u, j) == -1 || Head(u, j) in sel
  }

  /** The layout, from row i on, cut down to the rows of sel. */
  function Restrict(u: seq<Key>, i: nat, sel: set<nat>): seq<Key>
    decreases |u| - i
  {
    if i >= |u| then []
    else if i in sel then [u[i]] + Restrict(u, i + 1, sel)
    else Restrict(u, i + 1, sel)
  }

  lemma {:induction false} HeadIsNearest(u: seq<Key>, j: nat, i: nat)
    requires i <= j < |u|
    ensures var h := HeadFrom(u, j, i);
            && -1 <= h < i
            && (h >= 0 ==> !Below(u[h], u[j]))
            && forall m :: h < m < i ==> Below(u[m], u[j])
  {
    if i > 0 && Below(u[i - 1], u[j]) {
      HeadIsNearest(u, j, i - 1);
    }
  }

  /** The first row of a nonempty restriction. */
  lemma {:induction false} FirstRow(u: seq<Key>, i: nat, sel: set<nat>) returns (j: nat)
    requires Restrict(u, i, sel) != []
    ensures i <= j < |u| && j in sel && Restrict(u, i, sel)[0] == u[j]
    ensures forall m :: i <= m < j ==> m !in sel
    decreases |u| - i
  {
    if i in sel {
      j := i;
    } else {
      j := FirstRow(u, i + 1, sel);
    }
  }

  /** A row missing from a head-closed version is below the next row that it does have. */
  lemma MissingRowIsBelow(u: seq<Key>, i: nat, sel: set<nat>)
    requires HeadClosed(u, sel) && i < |u| && i !in sel && Restrict(u, i + 1, sel) != []
    ensures Below(u[i], Restrict(u, i + 1, sel)[0])
  {
    var j := FirstRow(u, i + 1, sel);
    var h := Head(u, j);
    HeadIsNearest(u, j, j);
    assert h == -1 || h in sel;
    assert h < i;
  }

  lemma {:induction false} PopKey(xs: Doc, key: Key, rest: seq<Key>)
    requires KeyList(L, xs) == [key] + rest
    ensures xs != [] && KeyOf(L, xs[0]) == key && KeyList(L, xs[1..]) == rest
  {
    assert KeyList(L, xs)[1..] == rest && KeyList(L, xs)[0] == key;
    assert KeyList(L, xs)[1..] == KeyList(L, xs[1..]);
  }

  lemma {:induction false} MergeFromRow(u: seq<Key>, i: nat, a: set<nat>, b: set<nat>, xs: Doc, ys: Doc)
    requires HeadClosed(u, a) && HeadClosed(u, b)
    requires KeyList(L, xs) == Restrict(u, i, a) && KeyList(L, ys) == Restrict(u, i, b)
    ensures KeyList(L, MergeList(L, xs, ys)) == Restrict(u, i, a + b)
    decreases |u| - i
  {
    if i < |u| {
      if xs != [] && ys != [] {
        CompareIsKeyOrder(L, xs[0], ys[0]);
        KeysAreTotallyOrdered(KeyOf(L, xs[0]), KeyOf(L, ys[0]));
      }
      if i in a {
        PopKey(xs, u[i], Restrict(u, i + 1, a));
      }
      if i in b {
        PopKey(ys, u[i], Restrict(u, i + 1, b));
      }
      if i in a && i in b {
        SpotKeepsKey(L, xs[0], ys[0]);
        MergeFromRow(u, i + 1, a, b, xs[1..], ys[1..]);
      } else if i in a {
        if ys != [] {
          MissingRowIsBelow(u, i, b);
        }
        MergeFromRow(u, i + 1, a, b, xs[1..], ys);
      } else if i in b {
        if xs != [] {
          MissingRowIsBelow(u, i, a);
        }
        MergeFromRow(u, i + 1, a, b, xs, ys[1..]);
      } else {
        MergeFromRow(u, i + 1, a, b, xs, ys);
      }
    }
  }

  /** Convergence: merging head-closed versions gives the layout restricted to the union of their rows. */
  lemma {:induction false} Convergence(u: seq<Key>, a: set<nat>, b: set<nat>, xs: Doc, ys: Doc)
    requires HeadClosed(u, a) && HeadClosed(u, b)
    requires KeyList(L, xs) == Restrict(u, 0, a) && KeyList(L, ys) == Restrict(u, 0, b)
    ensures HeadClosed(u, a + b)
    ensures KeyList(L, MergeList(L, xs, ys)) == Restrict(u, 0, a + b)
  {
    MergeFromRow(u, 0, a, b, xs, ys);
  }

  function Union(sels: seq<set<nat>>): set<nat> {
    if sels == [] then {} else Union(sels[..|sels| - 1]) + sels[|sels| - 1]
  }

  /** Any number of head-closed versions, in any order: the layout restricted to all their rows. */
  lemma {:induction false} FamilyConverges(u: seq<Key>, sels: seq<set<nat>>, versions: seq<Doc>)
    requires |sels| == |versions|
    requires forall i | 0 <= i < |sels| :: HeadClosed(u, sels[i]) && KeyList(L, versions[i]) == Restrict(u, 0, sels[i])
    ensures HeadClosed(u, Union(sels)) && KeyList(L, FoldMerge(L, versions)) == Restrict(u, 0, Union(sels))
    decreases |sels|
  {
    if sels == [] {
      RestrictIsEmpty(u, 0, {});
    } else {
      var n := |sels| - 1;
      FamilyConverges(u, sels[..n], versions[..n]);
      SplitLast(versions);
      FoldMergeGrows(L, versions[..n], versions[n]);
      Convergence(u, Union(sels[..n]), sels[n], FoldMerge(L, versions[..n]), versions[n]);
    }
  }

  // ---- head-closedness is exactly what convergence needs

  /** The rows from the first to row h. */
  function UpTo(h: nat): (r: set<nat>)
    ensures forall m: nat :: m in r <==> m <= h
  {
    if h == 0 then {0} else UpTo(h - 1) + {h}
  }

  lemma {:induction false} PrefixIsHeadClosed(u: seq<Key>, h: nat)
    ensures HeadClosed(u, UpTo(h))
  {
    forall j | j in UpTo(h) && j < |u| ensures Head(u, j) == -1 || Head(u, j) in UpTo(h) {
      HeadIsNearest(u, j, j);
    }
  }

  lemma {:induction false} RestrictIsEmpty(u: seq<Key>, i: nat, sel: set<nat>)
    requires forall m :: i <= m < |u| ==> m !in sel
    ensures Restrict(u, i, sel) == []
    decreases |u| - i
  {
    if i < |u| {
      RestrictIsEmpty(u, i + 1, sel);
    }
  }

  lemma {:induction false} RestrictIsNotEmpty(u: seq<Key>, i: nat, sel: set<nat>, j: nat)
    requires i <= j < |u| && j in sel
    ensures Restrict(u, i, sel) != []
    decreases |u| - i
  {
    if i != j {
      RestrictIsNotEmpty(u, i + 1, sel, j);
    }
  }

  predicate IsSuffix(s: seq<Key>, t: seq<Key>) { s == t || (t != [] && IsSuffix(s, t[1..])) }

  lemma {:induction false} SuffixOfTail(s: seq<Key>, t: seq<Key>)
    requires IsSuffix(s, t) && s != []
    ensures IsSuffix(s[1..], t) && |s[1..]| < |t|
    decreases |t|
  {
    if s != t {
      SuffixOfTail(s, t[1..]);
    }
  }

  lemma {:induction false} SuffixTail(s: seq<Key>, key: Key, t: seq<Key>)
    requires IsSuffix(s, [key] + t) && s != []
    ensures IsSuffix(s[1..], t)
    ensures s[0] != key ==> IsSuffix(s, t)
  {
    assert ([key] + t)[1..] == t;
    if s != [key] + t {
      SuffixOfTail(s, t);
    }
  }

  lemma {:induction false} KeysLength(xs: Doc)
    ensures |KeyList(L, xs)| == |xs|
    ensures xs != [] ==> KeyList(L, xs)[0] == KeyOf(L, xs[0]) && KeyList(L, xs)[1..] == KeyList(L, xs[1..])
    decreases |xs|
  {
    if xs != [] {
      KeysLength(xs[1..]);
    }
  }

  /** A suffix of a version advances past row i, whether the version holds the row or not. */
  lemma RowPassed(u: seq<Key>, i: nat, a: set<nat>, keys: seq<Key>)
    requires i < |u| && IsSuffix(keys, Restrict(u, i, a))
    ensures keys != [] ==> IsSuffix(keys[1..], Restrict(u, i + 1, a))
    ensures keys != [] && i !in a ==> |keys[1..]| < |Restrict(u, i + 1, a)|
    ensures keys != [] && keys[0] != u[i] ==> IsSuffix(keys, Restrict(u, i + 1, a))
  {
    if keys != [] && i in a {
      SuffixTail(keys, u[i], Restrict(u, i + 1, a));
    } else if keys != [] {
      SuffixOfTail(keys, Restrict(u, i + 1, a));
    }
  }

  /** With the head missing, whatever is left of the version merges with the rows up to the head to something else. */
  lemma {:induction false} MissingHeadBreaksMerge(u: seq<Key>, i: nat, a: set<nat>, h: nat, xs: Doc, ys: Doc)
    requires i <= h < |u| && h !in a
    requires Restrict(u, h + 1, a) != [] && !Below(u[h], Restrict(u, h + 1, a)[0])
    requires IsSuffix(KeyList(L, xs), Restrict(u, i, a)) && KeyList(L, ys) == Restrict(u, i, UpTo(h))
    ensures KeyList(L, MergeList(L, xs, ys)) != Restrict(u, i, a + UpTo(h))
    decreases h - i
  {
    PopKey(ys, u[i], Restrict(u, i + 1, UpTo(h)));
    KeysLength(xs);
    BothFromHere(u, i, a, h);
    if xs == [] {
      KeysLength(ys);
      UpToIsShorter(u, i, a, h);
    } else {
      RowPassed(u, i, a, KeyList(L, xs));
      CompareIsKeyOrder(L, xs[0], ys[0]);
      KeysAreTotallyOrdered(KeyOf(L, xs[0]), u[i]);
      KeysLength(MergeList(L, xs, ys));
      match Compare(L, xs[0], ys[0])
      case Less =>
      case Eq => RowBreaks(u, i, a, h, xs[1..], ys[1..]);
      case Grtr => RowBreaks(u, i, a, h, xs, ys[1..]);
    }
  }

  /** The rest behind row i is wrong. */
  lemma {:induction false} RowBreaks(u: seq<Key>, i: nat, a: set<nat>, h: nat, xs: Doc, ys: Doc)
    requires i <= h < |u| && h !in a
    requires Restrict(u, h + 1, a) != [] && !Below(u[h], Restrict(u, h + 1, a)[0])
    requires IsSuffix(KeyList(L, xs), Restrict(u, i + 1, a)) && KeyList(L, ys) == Restrict(u, i + 1, UpTo(h))
    requires i == h ==> KeyList(L, xs) != Restrict(u, h + 1, a)
    ensures KeyList(L, MergeList(L, xs, ys)) != Restrict(u, i + 1, a + UpTo(h))
    decreases h - i, 0
  {
    if i < h {
      MissingHeadBreaksMerge(u, i + 1, a, h, xs, ys);
    } else {
      RestrictIsEmpty(u, h + 1, UpTo(h));
      KeysLength(ys);
      RestBehindHead(u, h + 1, a, h);
      assert MergeList(L, xs, ys) == xs;
    }
  }

  lemma {:induction false} RestBehindHead(u: seq<Key>, i: nat, a: set<nat>, h: nat)
    requires h < i
    ensures Restrict(u, i, a + UpTo(h)) == Restrict(u, i, a)
    decreases |u| - i
  {
    if i < |u| {
      RestBehindHead(u, i + 1, a, h);
    }
  }

  lemma BothFromHere(u: seq<Key>, i: nat, a: set<nat>, h: nat)
    requires i <= h < |u|
    ensures Restrict(u, i, a + UpTo(h)) == [u[i]] + Restrict(u, i + 1, a + UpTo(h))
    ensures Restrict(u, i, a + UpTo(h))[1..] == Restrict(u, i + 1, a + UpTo(h))
  {
  }

  lemma {:induction false} UpToIsShorter(u: seq<Key>, i: nat, a: set<nat>, h: nat)
    requires i <= h + 1 <= |u| && Restrict(u, h + 1, a) != []
    ensures |Restrict(u, i, UpTo(h))| < |Restrict(u, i, a + UpTo(h))|
    decreases h + 1 - i
  {
    if i <= h {
      UpToIsShorter(u, i + 1, a, h);
    } else {
      RestrictIsEmpty(u, h + 1, UpTo(h));
      RestBehindHead(u, h + 1, a, h);
    }
  }

  /** The version of the array `us` that holds the rows of sel. */
  function Pick(us: Doc, i: nat, sel: set<nat>): Doc
    decreases |us| - i
  {
    if i >= |us| then []
    else if i in sel then [us[i]] + Pick(us, i + 1, sel)
    else Pick(us, i + 1, sel)
  }

  lemma {:induction false} KeysOfPick(us: Doc, i: nat, sel: set<nat>)
    ensures KeyList(L, Pick(us, i, sel)) == Restrict(KeyList(L, us), i, sel)
    decreases |us| - i
  {
    if us != [] {
      KeyListAt(L, us, 0);
    }
    if i < |us| {
      KeyListAt(L, us, i);
      KeysOfPick(us, i + 1, sel);
    }
  }

  ghost predicate ConvergesWith(us: Doc, a: set<nat>, b: set<nat>) {
    KeyList(L, MergeList(L, Pick(us, 0, a), Pick(us, 0, b))) == Restrict(KeyList(L, us), 0, a + b)
  }

  /** A version merges well with every head-closed version exactly when it is head-closed itself. */
  lemma {:induction false} ConvergenceIff(us: Doc, a: set<nat>)
    ensures HeadClosed(KeyList(L, us), a)
            <==> forall b :: HeadClosed(KeyList(L, us), b) ==> ConvergesWith(us, a, b)
  {
    var u := KeyList(L, us);
    if HeadClosed(u, a) {
      forall b | HeadClosed(u, b) ensures ConvergesWith(us, a, b) {
        KeysOfPick(us, 0, a);
        KeysOfPick(us, 0, b);
        Convergence(u, a, b, Pick(us, 0, a), Pick(us, 0, b));
      }
    } else {
      var j :| j in a && j < |u| && !(Head(u, j) == -1 || Head(u, j) in a);
      var h := Head(u, j);
      HeadIsNearest(u, j, j);
      NextAfterMissingHead(u, a, j, h);
      PrefixIsHeadClosed(u, h);
      KeysOfPick(us, 0, a);
      KeysOfPick(us, 0, UpTo(h));
      MissingHeadBreaksMerge(u, 0, a, h, Pick(us, 0, a), Pick(us, 0, UpTo(h)));
      assert !ConvergesWith(us, a, UpTo(h));
    }
  }

  lemma NextAfterMissingHead(u: seq<Key>, a: set<nat>, j: nat, h: nat)
    requires h < j < |u| && j in a && Head(u, j) == h
    ensures Restrict(u, h + 1, a) != [] && !Below(u[h], Restrict(u, h + 1, a)[0])
  {
    RestrictIsNotEmpty(u, h + 1, a, j);
    var m := FirstRow(u, h + 1, a);
    HeadIsNearest(u, j, j);
    KeysAreTotallyOrdered(u[m], u[h]);
    if m < j && Below(u[h], u[m]) {
      KeysTransitive(u[h], u[m], u[j]);
    }
  }

  // ---- head-closed versions are lists that fit a layout

  function RowsOf(u: seq<Key>): Layout {
    Rows((i: nat) => if i < |u| then u[i] else Nothing)
  }

  lemma {:induction false} HeadClosedIsPlaced(u: seq<Key>, p: Cursor, i: nat, sel: set<nat>, xs: Doc)
    requires HeadClosed(u, sel) && KeyList(L, xs) == Restrict(u, i, sel)
    requires (p.After? ==> p.slot.AtRow?) && NextRow(p) <= i
    requires forall m :: NextRow(p) <= m < i ==> m !in sel
    ensures Placed(RowsOf(u), L, p, xs)
    decreases |xs|
  {
    if xs != [] {
      var lay, key := RowsOf(u), KeyOf(L, xs[0]);
      var j := FirstRow(u, i, sel);
      HeadIsNearest(u, j, j);
      assert Head(u, j) < NextRow(p);
      assert Fits(lay, p, key, AtRow(j));
      SlotIsUnique(lay, p, key, AtRow(j), SlotOf(lay, p, key));
      TailOfRestrict(u, i, sel, j);
      PopKey(xs, u[j], Restrict(u, j + 1, sel));
      HeadClosedIsPlaced(u, After(AtRow(j)), j + 1, sel, xs[1..]);
    }
  }

  lemma {:induction false} TailOfRestrict(u: seq<Key>, i: nat, sel: set<nat>, j: nat)
    requires i <= j < |u| && j in sel && forall m :: i <= m < j ==> m !in sel
    ensures Restrict(u, i, sel) == [u[j]] + Restrict(u, j + 1, sel)
    decreases |u| - i
  {
    if i != j {
      TailOfRestrict(u, i + 1, sel, j);
    }
  }
}
