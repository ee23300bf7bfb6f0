/** Many inputs at once: folding the two-way merge, in any order, and what one step of it does. */
module Batch {
  import opened Seqs
  import opened Elements
  import opened Merge
  import opened Layouts
  import opened Worlds

  function Fold<T>(op: (T, T) -> T, xs: seq<T>): T
    requires xs != []
  {
    if |xs| == 1 then xs[0] else op(Fold(op, xs[..|xs| - 1]), xs[|xs| - 1])
  }

  /** On `ok`, op is closed, commutative and associative. */
  ghost predicate Merges<T(!new)>(op: (T, T) -> T, ok: T -> bool) {
    && (forall x, y | ok(x) && ok(y) :: ok(op(x, y)) && op(x, y) == op(y, x))
    && (forall x, y, z | ok(x) && ok(y) && ok(z) :: op(op(x, y), z) == op(x, op(y, z)))
  }

  ghost predicate AllOk<T>(ok: T -> bool, xs: seq<T>) { forall x | x in xs :: ok(x) }

  lemma {:induction false} FoldIsOk<T(!new)>(op: (T, T) -> T, ok: T -> bool, xs: seq<T>)
    requires Merges(op, ok) && xs != [] && AllOk(ok, xs)
    ensures ok(Fold(op, xs))
  {
    if |xs| > 1 {
      FoldIsOk(op, ok, xs[..|xs| - 1]);
    }
  }

  /** A fold sees only the result of the part before. */
  lemma {:induction false} FoldOnwards<T>(op: (T, T) -> T, xs: seq<T>, ys: seq<T>, rest: seq<T>)
    requires xs != [] && ys != [] && Fold(op, xs) == Fold(op, ys)
    ensures Fold(op, xs + rest) == Fold(op, ys + rest)
    decreases |rest|
  {
    if rest == [] {
      assert xs + rest == xs && ys + rest == ys;
    } else {
      var n := |rest| - 1;
      FoldOnwards(op, xs, ys, rest[..n]);
      assert (xs + rest)[..|xs + rest| - 1] == xs + rest[..n];
      assert (ys + rest)[..|ys + rest| - 1] == ys + rest[..n];
    }
  }

  /** Any element may be folded in last. */
  lemma {:induction false} FoldLast<T(!new)>(op: (T, T) -> T, ok: T -> bool, xs: seq<T>, x: T, ys: seq<T>)
    requires Merges(op, ok) && AllOk(ok, xs) && ok(x) && AllOk(ok, ys) && xs + ys != []
    ensures Fold(op, xs + [x] + ys) == op(Fold(op, xs + ys), x)
    decreases |ys|
  {
    if ys == [] {
      assert xs + [x] + ys == xs + [x] && xs + ys == xs;
      assert (xs + [x])[..|xs + [x]| - 1] == xs;
    } else {
      var n := |ys| - 1;
      var y := ys[n];
      assert ys == ys[..n] + [y];
      assert xs + [x] + ys == (xs + [x] + ys[..n]) + [y];
      assert (xs + [x] + ys)[..|xs + [x] + ys| - 1] == xs + [x] + ys[..n];
      if xs + ys[..n] == [] {
        assert xs + [x] + ys[..n] == [x] && xs + ys == [y];
      } else {
        FoldLast(op, ok, xs, x, ys[..n]);
        var r := Fold(op, xs + ys[..n]);
        FoldIsOk(op, ok, xs + ys[..n]);
        assert (xs + ys)[..|xs + ys| - 1] == xs + ys[..n];
        assert op(op(r, x), y) == op(r, op(x, y)) == op(r, op(y, x)) == op(op(r, y), x);
      }
    }
  }

  /** The order of the inputs does not matter. */
  lemma {:induction false} FoldPermutes<T(!new)>(op: (T, T) -> T, ok: T -> bool, xs: seq<T>, ys: seq<T>)
    requires Merges(op, ok) && xs != [] && ys != [] && AllOk(ok, xs)
    requires multiset(xs) == multiset(ys)
    ensures Fold(op, xs) == Fold(op, ys)
    decreases |xs|
  {
    assert |xs| == |multiset(xs)| == |multiset(ys)| == |ys|;
    forall y | y in ys ensures ok(y) { assert y in multiset(ys); }
    var n := |xs| - 1;
    var x := xs[n];
    assert xs == xs[..n] + [x];
    assert x in multiset(ys);
    var i :| 0 <= i < |ys| && ys[i] == x;
    assert ys == ys[..i] + [x] + ys[i + 1..];
    assert multiset(ys) == multiset(ys[..i]) + multiset{x} + multiset(ys[i + 1..]);
    assert multiset(ys[..i] + ys[i + 1..]) == multiset(ys[..i]) + multiset(ys[i + 1..]);
    assert multiset(ys) == multiset(ys[..i] + ys[i + 1..]) + multiset{x};
    assert multiset(xs) == multiset(xs[..n]) + multiset{x};
    CancelOne(multiset(ys[..i] + ys[i + 1..]), multiset(xs[..n]), x);
    if n > 0 {
      assert |multiset(ys[..i] + ys[i + 1..])| == n;
      FoldPermutes(op, ok, xs[..n], ys[..i] + ys[i + 1..]);
      FoldLast(op, ok, ys[..i], x, ys[i + 1..]);
    }
  }

  // ---- lists and spots

  function ListOp(k: Kind): (Doc, Doc) -> Doc { (xs: Doc, ys: Doc) => MergeList(k, xs, ys) }

  const SPOT: (Elem, Elem) -> Elem := (a: Elem, b: Elem) => Spot(a, b)

  function FoldMerge(k: Kind, ss: seq<Doc>): Doc { if ss == [] then [] else Fold(ListOp(k), ss) }

  function FoldSpot(es: seq<Elem>): Elem
    requires es != []
  {
    Fold(SPOT, es)
  }

  lemma {:induction false} FoldMergeGrows(k: Kind, ss: seq<Doc>, s: Doc)
    ensures FoldMerge(k, ss + [s]) == MergeList(k, FoldMerge(k, ss), s)
  {
    assert (ss + [s])[..|ss + [s]| - 1] == ss;
    assert ss == [] ==> MergeList(k, [], s) == s;
  }

  lemma {:induction false} FoldSpotGrows(es: seq<Elem>, e: Elem)
    requires es != []
    ensures FoldSpot(es + [e]) == Spot(FoldSpot(es), e)
  {
    assert (es + [e])[..|es + [e]| - 1] == es;
  }

  ghost function LaidOk(w: World, c: Path, k: Kind, q: Cursor): Doc -> bool { (xs: Doc) => Laid(w, c, k, q, xs) }

  ghost function BelongsOk(w: World, p: Path): Elem -> bool { (e: Elem) => Belongs(w, p, e) }

  lemma ListsMerge(w: World, c: Path, k: Kind, q: Cursor)
    requires CalmWorld(w)
    ensures Merges(ListOp(k), LaidOk(w, c, k, q))
  {
    forall x, y | Laid(w, c, k, q, x) && Laid(w, c, k, q, y)
      ensures Laid(w, c, k, q, MergeList(k, x, y)) && MergeList(k, x, y) == MergeList(k, y, x)
    {
      MergeListLaid(w, c, k, q, x, y);
      LaidIsExact(w, c, k, q, x);
      LaidIsExact(w, c, k, q, y);
      MergeListCommutes(k, x, y);
    }
    forall x, y, z | Laid(w, c, k, q, x) && Laid(w, c, k, q, y) && Laid(w, c, k, q, z)
      ensures MergeList(k, MergeList(k, x, y), z) == MergeList(k, x, MergeList(k, y, z))
    {
      MergeListAssociates(w, c, k, q, x, y, z);
    }
  }

  lemma SpotsMerge(w: World, p: Path)
    requires CalmWorld(w)
    ensures Merges(SPOT, BelongsOk(w, p))
  {
    forall x, y | Belongs(w, p, x) && Belongs(w, p, y)
      ensures Belongs(w, p, Spot(x, y)) && Spot(x, y) == Spot(y, x)
    {
      SpotBelongs(w, p, x, y);
      BelongsIsExact(w, p, x);
      BelongsIsExact(w, p, y);
      SpotCommutes(x, y);
    }
    forall x, y, z | Belongs(w, p, x) && Belongs(w, p, y) && Belongs(w, p, z)
      ensures Spot(Spot(x, y), z) == Spot(x, Spot(y, z))
    {
      SpotAssociates(w, p, x, y, z);
    }
  }

  /** Folding the merge over any permutation of the inputs gives the same list. */
  lemma FoldMergePermutes(w: World, c: Path, k: Kind, q: Cursor, ss: seq<Doc>, tt: seq<Doc>)
    requires CalmWorld(w) && (forall s | s in ss :: Laid(w, c, k, q, s))
    requires multiset(ss) == multiset(tt)
    ensures FoldMerge(k, ss) == FoldMerge(k, tt)
  {
    assert |ss| == |multiset(ss)| == |multiset(tt)| == |tt|;
    if ss != [] {
      ListsMerge(w, c, k, q);
      FoldPermutes(ListOp(k), LaidOk(w, c, k, q), ss, tt);
    }
  }

  lemma FoldSpotPermutes(w: World, p: Path, es: seq<Elem>, fs: seq<Elem>)
    requires CalmWorld(w) && es != [] && fs != [] && (forall e | e in es :: Belongs(w, p, e))
    requires multiset(es) == multiset(fs)
    ensures FoldSpot(es) == FoldSpot(fs)
  {
    SpotsMerge(w, p);
    FoldPermutes(SPOT, BelongsOk(w, p), es, fs);
  }

  lemma {:induction false} FoldSpotBelongs(w: World, p: Path, es: seq<Elem>)
    requires CalmWorld(w) && es != [] && (forall e | e in es :: Belongs(w, p, e))
    ensures Belongs(w, p, FoldSpot(es))
  {
    SpotsMerge(w, p);
    FoldIsOk(SPOT, BelongsOk(w, p), es);
  }

  // ---- one step of the k-way merge

  /** The heads that carry the key `low`. */
  function Heads(k: Kind, low: Key, ss: seq<Doc>): seq<Elem> {
    if ss == [] then []
    else
      var n := |ss| - 1;
      var s := ss[n];
      Heads(k, low, ss[..n]) + (if s != [] && KeyOf(k, s[0]) == low then [s[0]] else [])
  }

  /** Those heads removed. */
  function Advance(k: Kind, low: Key, ss: seq<Doc>): seq<Doc> {
    if ss == [] then []
    else
      var n := |ss| - 1;
      var s := ss[n];
      Advance(k, low, ss[..n]) + [if s != [] && KeyOf(k, s[0]) == low then s[1..] else s]
  }

  ghost predicate AtOrAbove(k: Kind, low: Key, ss: seq<Doc>) {
    forall s | s in ss && s != [] :: !Below(KeyOf(k, s[0]), low)
  }

  /** No order among the inputs is needed for this, only that no head is below `low`. */
  lemma {:induction false} FoldStep(k: Kind, low: Key, ss: seq<Doc>)
    requires AtOrAbove(k, low, ss)
    ensures var hs := Heads(k, low, ss);
            var rest := FoldMerge(k, Advance(k, low, ss));
            && FoldMerge(k, ss) == (if hs == [] then [] else [FoldSpot(hs)]) + rest
            && (hs == [] ==> rest != [] ==> Below(low, KeyOf(k, rest[0])))
            && (hs != [] ==> KeyOf(k, FoldSpot(hs)) == low)
  {
    if ss != [] {
      var n := |ss| - 1;
      var front, s := ss[..n], ss[n];
      assert ss == front + [s];
      FoldStep(k, low, front);
      FoldMergeGrows(k, front, s);
      FoldMergeGrows(k, Advance(k, low, front), if s != [] && KeyOf(k, s[0]) == low then s[1..] else s);
      StepOfTwo(k, low, Heads(k, low, front), FoldMerge(k, Advance(k, low, front)), FoldMerge(k, front), s);
    }
  }

  lemma StepOfTwo(k: Kind, low: Key, hs: seq<Elem>, rest: Doc, merged: Doc, s: Doc)
    requires merged == (if hs == [] then [] else [FoldSpot(hs)]) + rest
    requires hs == [] ==> rest != [] ==> Below(low, KeyOf(k, rest[0]))
    requires hs != [] ==> KeyOf(k, FoldSpot(hs)) == low
    requires s != [] ==> !Below(KeyOf(k, s[0]), low)
    ensures
      var hit := s != [] && KeyOf(k, s[0]) == low;
      var hs' := hs + (if hit then [s[0]] else []);
      var rest' := MergeList(k, rest, if hit then s[1..] else s);
      && MergeList(k, merged, s) == (if hs' == [] then [] else [FoldSpot(hs')]) + rest'
      && (hs' == [] ==> rest' != [] ==> Below(low, KeyOf(k, rest'[0])))
      && (hs' != [] ==> KeyOf(k, FoldSpot(hs')) == low)
  {
    if s != [] {
      var key := KeyOf(k, s[0]);
      KeysAreTotallyOrdered(key, low);
      if hs == [] {
        assert merged == rest;
        if rest != [] {
          KeysAreTotallyOrdered(low, KeyOf(k, rest[0]));
          CompareIsKeyOrder(k, rest[0], s[0]);
          KeysAreTotallyOrdered(KeyOf(k, rest[0]), key);
          if KeyOf(k, rest[0]) == key {
            SpotKeepsKey(k, rest[0], s[0]);
          }
        }
        if key == low {
          assert FoldSpot([s[0]]) == s[0];
          assert merged != [] ==> MergeList(k, merged, s) == [s[0]] + MergeList(k, rest, s[1..]);
          assert merged == [] ==> MergeList(k, merged, s) == [s[0]] + MergeList(k, rest, s[1..]);
        }
      } else {
        assert merged[0] == FoldSpot(hs) && merged[1..] == rest;
        CompareIsKeyOrder(k, merged[0], s[0]);
        if key == low {
          SpotKeepsKey(k, merged[0], s[0]);
          FoldSpotGrows(hs, s[0]);
        } else {
          assert hs + [] == hs;
        }
      }
    } else {
      assert hs + [] == hs;
      assert MergeList(k, rest, []) == rest;
    }
  }
}
