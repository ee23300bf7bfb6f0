/** The loop that selects the winners at one spot, in place, and exactly when it gives the fold of the two-way merge. */
module Selection {
  import opened Seqs
  import opened Ids
  import opened Elements
  import opened Merge
  import opened Layouts
  import opened Worlds
  import opened Batch
  import opened Contest
  import opened Heaps

  /** Where the loop leaves the array, and how many winners stand in front. */
  datatype Selected<T> = Selected(heap: seq<T>, eq: nat)

  datatype Turn<T> = Turn(heap: seq<T>, n: nat, eq: nat, i: nat)

  /** One turn over the first n positions: position i takes over, drops out behind n, or joins the first eq. */
  function Turned<T>(judge: (T, T) -> Ordering, h: seq<T>, n: nat, eq: nat, i: nat): (t: Turn<T>)
    requires 0 < eq <= i < n <= |h|
    ensures |t.heap| == |h| && 0 < t.eq <= t.i <= t.n <= n && t.n - t.i < n - i
  {
    match judge(h[0], h[i])
    case Less => Turn(Swap(h, 0, i), n, 1, i + 1)
    case Grtr => Turn(Swap(h, n - 1, i), n - 1, eq, i)
    case Eq => Turn(Swap(h, eq, i), n, eq + 1, i + 1)
  }

  function SelectFrom<T>(judge: (T, T) -> Ordering, h: seq<T>, n: nat, eq: nat, i: nat): (r: Selected<T>)
    requires 0 < eq <= i <= n <= |h|
    ensures |r.heap| == |h| && 0 < r.eq <= n
    decreases n - i
  {
    if i == n then Selected(h, eq)
    else
      var t := Turned(judge, h, n, eq, i);
      SelectFrom(judge, t.heap, t.n, t.eq, t.i)
  }

  function Select<T>(judge: (T, T) -> Ordering, h: seq<T>): (r: Selected<T>)
    requires h != []
    ensures |r.heap| == |h| && 0 < r.eq <= |h|
  {
    SelectFrom(judge, h, |h|, 1, 1)
  }

  const JUDGE: (Elem, Elem) -> Ordering := (a: Elem, b: Elem) => Judge(a, b)

  function Winners(es: seq<Elem>): (r: seq<Elem>)
    requires es != []
    ensures r != []
  {
    var s := Select(JUDGE, es);
    s.heap[..s.eq]
  }

  // ---- the loop permutes, and its winners are of one type

  lemma TurnPermutes<T>(judge: (T, T) -> Ordering, h: seq<T>, n: nat, eq: nat, i: nat)
    requires 0 < eq <= i < n <= |h|
    ensures multiset(Turned(judge, h, n, eq, i).heap) == multiset(h)
  {
    SwapPermutes(h, match judge(h[0], h[i]) { case Less => 0 case Grtr => n - 1 case Eq => eq }, i);
  }

  lemma {:induction false} SelectPermutes<T>(judge: (T, T) -> Ordering, h: seq<T>, n: nat, eq: nat, i: nat)
    requires 0 < eq <= i <= n <= |h|
    ensures multiset(SelectFrom(judge, h, n, eq, i).heap) == multiset(h)
    decreases n - i
  {
    if i < n {
      var t := Turned(judge, h, n, eq, i);
      TurnPermutes(judge, h, n, eq, i);
      SelectPermutes(judge, t.heap, t.n, t.eq, t.i);
    }
  }

  /** The first eq positions are judged equal to the first one. */
  ghost predicate Agrees<T>(judge: (T, T) -> Ordering, h: seq<T>, eq: nat) {
    forall j {:trigger h[j]} | 0 < j < eq && j < |h| :: judge(h[0], h[j]) == Eq
  }

  lemma {:induction false} FrontAgrees<T>(judge: (T, T) -> Ordering, h: seq<T>, n: nat, eq: nat, i: nat)
    requires 0 < eq <= i <= n <= |h| && Agrees(judge, h, eq)
    ensures var r := SelectFrom(judge, h, n, eq, i); Agrees(judge, r.heap, r.eq)
    decreases n - i
  {
    if i < n {
      var t := Turned(judge, h, n, eq, i);
      FrontAgrees(judge, t.heap, t.n, t.eq, t.i);
    }
  }

  lemma JudgedEqual(a: Elem, b: Elem)
    requires Judge(a, b) == Eq
    ensures Lit(a) == Lit(b) && a.Plex? == b.Plex? && (a.Plex? ==> a.kind == b.kind)
  {
  }

  /** The winners are all values, or all containers of one kind. */
  lemma WinnersAgree(es: seq<Elem>)
    requires es != []
    ensures var ws := Winners(es);
            forall e | e in ws :: Lit(e) == Lit(ws[0]) && e.Plex? == ws[0].Plex? && (e.Plex? ==> e.kind == ws[0].kind)
  {
    var ws := Winners(es);
    FrontAgrees(JUDGE, es, |es|, 1, 1);
    forall e | e in ws
      ensures Lit(e) == Lit(ws[0]) && e.Plex? == ws[0].Plex? && (e.Plex? ==> e.kind == ws[0].kind)
    {
      var j :| 0 <= j < |ws| && ws[j] == e;
      if j > 0 {
        var heap := Select(JUDGE, es).heap;
        assert ws[j] == heap[j] && ws[0] == heap[0];
        JudgedEqual(ws[0], ws[j]);
      }
    }
  }

  lemma WinnersComeFrom(es: seq<Elem>)
    requires es != []
    ensures forall e | e in Winners(es) :: e in es
  {
    SelectPermutes(JUDGE, es, |es|, 1, 1);
    forall e | e in Winners(es) ensures e in es {
      assert e in multiset(Select(JUDGE, es).heap);
    }
  }

  // ---- the loop gives the fold when no trap is about

  ghost predicate NoTraps(es: seq<Elem>) {
    forall e, t, z | e in es && t in es && z in es :: !Trap(e, t, z)
  }

  /** The front is one class, and it and the rest merge to what all merge to. */
  ghost predicate Merging(es: seq<Elem>, front: seq<Elem>, rest: seq<Elem>) {
    && es != [] && (forall e | e in front + rest :: e in es)
    && OneClass(front) && FoldSpot(front + rest) == FoldSpot(es)
  }

  /** So do the first eq and the unseen. */
  ghost predicate Selecting(es: seq<Elem>, h: seq<Elem>, n: nat, eq: nat, i: nat) {
    0 < eq <= i <= n <= |h| && Merging(es, h[..eq], h[i..n])
  }

  /** The winners are one class and merge to what all merge to. */
  ghost predicate SelectsFold(es: seq<Elem>, r: Selected<Elem>) {
    && r.eq <= |r.heap| && es != [] && OneClass(r.heap[..r.eq])
    && FoldSpot(r.heap[..r.eq]) == FoldSpot(es)
  }

  lemma {:induction false} SelectIsFold(w: World, p: Path, es: seq<Elem>, h: seq<Elem>, n: nat, eq: nat, i: nat)
    requires Contestants(w, p, es) && NoTraps(es) && Selecting(es, h, n, eq, i)
    ensures SelectsFold(es, SelectFrom(JUDGE, h, n, eq, i))
    decreases n - i
  {
    if i == n {
      NothingUnseen(es, h, n, eq, i);
    } else {
      var t := Turned(JUDGE, h, n, eq, i);
      TurnKeepsSelecting(w, p, es, h, n, eq, i);
      SelectIsFold(w, p, es, t.heap, t.n, t.eq, t.i);
    }
  }

  /** Whatever the turn, the invariant holds again. */
  lemma TurnKeepsSelecting(w: World, p: Path, es: seq<Elem>, h: seq<Elem>, n: nat, eq: nat, i: nat)
    requires Contestants(w, p, es) && NoTraps(es) && Selecting(es, h, n, eq, i) && i < n
    ensures var t := Turned(JUDGE, h, n, eq, i); Selecting(es, t.heap, t.n, t.eq, t.i)
  {
    match Judge(h[0], h[i])
    case Less => TakesOver(w, p, es, h, n, eq, i);
    case Grtr => DropsOut(w, p, es, h, n, eq, i);
    case Eq => Joins(w, p, es, h, n, eq, i);
  }

  lemma NothingUnseen(es: seq<Elem>, h: seq<Elem>, n: nat, eq: nat, i: nat)
    requires Selecting(es, h, n, eq, i) && i == n
    ensures OneClass(h[..eq]) && FoldSpot(h[..eq]) == FoldSpot(es)
  {
    assert h[..eq] + h[i..n] == h[..eq];
  }

  lemma TakesOver(w: World, p: Path, es: seq<Elem>, h: seq<Elem>, n: nat, eq: nat, i: nat)
    requires Contestants(w, p, es) && NoTraps(es) && Selecting(es, h, n, eq, i) && i < n
    requires Judge(h[0], h[i]) == Less
    ensures Selecting(es, Swap(h, 0, i), n, 1, i + 1)
  {
    SplitNext(h, i, n);
    WinnerStep(w, p, es, h[..eq], h[i], h[i + 1..n]);
    SwapParts(h, 0, i, n);
    assert h[..0] + [h[i]] == [h[i]];
  }

  lemma DropsOut(w: World, p: Path, es: seq<Elem>, h: seq<Elem>, n: nat, eq: nat, i: nat)
    requires Contestants(w, p, es) && Selecting(es, h, n, eq, i) && i < n
    requires Judge(h[0], h[i]) == Grtr
    ensures Selecting(es, Swap(h, n - 1, i), n - 1, eq, i)
  {
    SplitNext(h, i, n);
    LoserMoves(h, n, eq, i);
    LoserStep(w, p, es, h[..eq], h[i], h[i + 1..n], Swap(h, n - 1, i)[i..n - 1]);
  }

  lemma Joins(w: World, p: Path, es: seq<Elem>, h: seq<Elem>, n: nat, eq: nat, i: nat)
    requires Contestants(w, p, es) && Selecting(es, h, n, eq, i) && i < n
    requires Judge(h[0], h[i]) == Eq
    ensures Selecting(es, Swap(h, eq, i), n, eq + 1, i + 1)
  {
    SplitNext(h, i, n);
    JoinStep(w, p, es, h[..eq], h[i], h[i + 1..n]);
    SwapParts(h, eq, i, n);
  }

  lemma SplitNext<T>(h: seq<T>, i: nat, n: nat)
    requires i < n <= |h|
    ensures h[i..n] == [h[i]] + h[i + 1..n]
  {
  }

  /** What swapping position i into position a does to the parts of a sequence. */
  lemma SwapParts<T>(h: seq<T>, a: nat, i: nat, n: nat)
    requires a <= i < n <= |h|
    ensures var r := Swap(h, a, i); r[..a + 1] == h[..a] + [h[i]] && r[i + 1..n] == h[i + 1..n]
  {
  }

  lemma LoserMoves<T>(h: seq<T>, n: nat, eq: nat, i: nat)
    requires eq <= i < n <= |h|
    ensures var g := Swap(h, n - 1, i); g[..eq] == h[..eq] && multiset(g[i..n - 1]) == multiset(h[i + 1..n])
  {
    var g := Swap(h, n - 1, i);
    if i < n - 1 {
      assert g[i..n - 1] == [h[n - 1]] + h[i + 1..n - 1];
      assert h[i + 1..n] == h[i + 1..n - 1] + [h[n - 1]];
    } else {
      assert g[i..n - 1] == [] && h[i + 1..n] == [];
    }
  }

  lemma {:induction false} Members(w: World, p: Path, es: seq<Elem>, front: seq<Elem>, x: Elem, rest: seq<Elem>)
    requires Contestants(w, p, es) && Merging(es, front, [x] + rest)
    ensures Contestants(w, p, front) && Belongs(w, p, x) && Contestants(w, p, front + rest)
    ensures front + ([x] + rest) == front + [x] + rest && x in es
    ensures (forall e | e in front :: e in es) && (forall e | e in rest :: e in es)
  {
    var all := front + ([x] + rest);
    assert all == front + [x] + rest;
    assert x in all;
    forall e | e in front ensures e in es { assert e in all; }
    forall e | e in rest ensures e in es { assert e in all; }
  }

  lemma WinnerStep(w: World, p: Path, es: seq<Elem>, front: seq<Elem>, x: Elem, rest: seq<Elem>)
    requires Contestants(w, p, es) && NoTraps(es) && Merging(es, front, [x] + rest)
    requires Judge(front[0], x) == Less
    ensures Merging(es, [x], rest)
  {
    Members(w, p, es, front, x, rest);
    assert front[0] in front;
    WinnerTakesAll(w, p, front, x);
    FoldSpotGrows(front, x);
    FoldOnwards(SPOT, front + [x], [x], rest);
  }

  lemma JoinStep(w: World, p: Path, es: seq<Elem>, front: seq<Elem>, x: Elem, rest: seq<Elem>)
    requires Contestants(w, p, es) && Merging(es, front, [x] + rest)
    requires Judge(front[0], x) == Eq
    ensures Merging(es, front + [x], rest)
  {
    Members(w, p, es, front, x, rest);
    EqualJoins(w, p, front, x);
  }

  lemma LoserStep(w: World, p: Path, es: seq<Elem>, front: seq<Elem>, x: Elem, rest: seq<Elem>, rest': seq<Elem>)
    requires Contestants(w, p, es) && Merging(es, front, [x] + rest)
    requires Judge(front[0], x) == Grtr && multiset(rest') == multiset(rest)
    ensures Merging(es, front, rest')
  {
    Members(w, p, es, front, x, rest);
    LoserAddsNothing(w, p, front, x);
    FoldSpotGrows(front, x);
    FoldOnwards(SPOT, front + [x], front, rest);
    FoldSpotPermutes(w, p, front + rest, front + rest');
    forall e | e in front + rest' ensures e in es {
      assert e in rest' ==> e in multiset(rest);
    }
  }

  /** Without a trap among the contenders, the winners merge to what all of them merge to. */
  lemma WinnersMergeAll(w: World, p: Path, es: seq<Elem>)
    requires Contestants(w, p, es) && es != [] && NoTraps(es)
    ensures OneClass(Winners(es)) && FoldSpot(Winners(es)) == FoldSpot(es)
  {
    assert es[..1] + es[1..|es|] == es;
    SelectIsFold(w, p, es, es, |es|, 1, 1);
  }

  // ---- and goes wrong when there is one

  lemma {:induction false} FoldOfThree(a: Elem, b: Elem, c: Elem)
    ensures FoldSpot([a, b, c]) == Spot(Spot(a, b), c)
  {
    assert [a, b, c] == [a, b] + [c] && [a, b] == [a] + [b];
    FoldSpotGrows([a, b], c);
    FoldSpotGrows([a], b);
  }

  /** On an empty tuple, its trap partner and the lower type, in this order, the lower type wins the loop but not the fold. */
  lemma {:induction false} TrapMisleads(e: Elem, t: Elem, z: Elem)
    requires Trap(e, t, z) && Exact(e) && Exact(t) && Exact(z)
    requires z.id.RevCompare(e.id) != Less
    ensures FoldSpot(Winners([e, z, t])) != FoldSpot([e, z, t])
  {
    var es := [e, z, t];
    assert Judge(e, z) == Eq && Judge(e, t) == Less;
    assert Swap(es, 1, 1) == es;
    assert SelectFrom(JUDGE, es, 3, 1, 1) == SelectFrom(JUDGE, es, 3, 2, 2);
    var g := Swap(es, 0, 2);
    assert SelectFrom(JUDGE, es, 3, 2, 2) == SelectFrom(JUDGE, g, 3, 1, 3) == Selected(g, 1);
    assert Winners(es) == [t];
    var m := Spot(e, z);
    assert MergeList(P, e.kids, z.kids) == z.kids;
    assert m == Plex(P, MaxID(e.id, z.id), z.kids);
    SpotOfStrangers(m, t);
    FoldOfThree(e, z, t);
  }

  /** A calm place leaves an empty tuple and a lower type at its id only later revisions. */
  lemma TrapPartnerIsLater(allowed: Shells, e: Elem, t: Elem, z: Elem)
    requires Calm(allowed) && allowed(ShellOf(e)) && allowed(ShellOf(t)) && allowed(ShellOf(z)) && Trap(e, t, z)
    ensures z.id.RevCompare(e.id) != Less
  {
    var x, y, u := ShellOf(z), ShellOf(t), ShellOf(e);
    assert OneContainer(x, u) && !OneContainer(x, y);
    assert !Between(x, y, u);
  }

  /**
   The loop is right for every list of contenders, in every order, if and only if there is no trap
   among what may contend.
   */
  lemma LoopIsFoldIff(w: World, p: Path, ok: Elem -> bool)
    requires CalmWorld(w) && forall e :: ok(e) ==> Belongs(w, p, e)
    ensures (forall es | es != [] && AllOk(ok, es) :: FoldSpot(Winners(es)) == FoldSpot(es))
       <==> (forall e, t, z | ok(e) && ok(t) && ok(z) :: !Trap(e, t, z))
  {
    if forall e, t, z | ok(e) && ok(t) && ok(z) :: !Trap(e, t, z) {
      forall es | es != [] && AllOk(ok, es) ensures FoldSpot(Winners(es)) == FoldSpot(es) {
        WinnersMergeAll(w, p, es);
      }
    } else {
      var e, t, z :| ok(e) && ok(t) && ok(z) && Trap(e, t, z);
      assert Calm(w.shells(p));
      BelongsIsExact(w, p, e);
      BelongsIsExact(w, p, t);
      BelongsIsExact(w, p, z);
      TrapPartnerIsLater(w.shells(p), e, t, z);
      TrapMisleads(e, t, z);
      assert AllOk(ok, [e, z, t]);
    }
  }

  /** Unstamped: of (), (1) and 5 the loop keeps 5, the fold keeps (1). */
  lemma EmptyTupleMisleads()
    ensures var one := Plex(P, ID0, [First(ID0, Integer(1))]);
            var five := First(ID0, Integer(5));
            var heads := [Plex(P, ID0, []), one, five];
            Winners(heads) == [five] && FoldSpot(heads) == one
  {
    var e, z, t := Plex(P, ID0, []), Plex(P, ID0, [First(ID0, Integer(1))]), First(ID0, Integer(5));
    var es := [e, z, t];
    assert Swap(es, 1, 1) == es;
    assert SelectFrom(JUDGE, es, 3, 1, 1) == SelectFrom(JUDGE, es, 3, 2, 2);
    var g := Swap(es, 0, 2);
    assert SelectFrom(JUDGE, es, 3, 2, 2) == SelectFrom(JUDGE, g, 3, 1, 3) == Selected(g, 1);
    assert Winners(es) == [t] && FoldSpot([t]) == t;
    assert MergeList(P, e.kids, z.kids) == z.kids;
    FoldOfThree(e, z, t);
    assert Spot(e, z) == z;
  }
}
