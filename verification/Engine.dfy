/** The k-way merge as the code runs it, for any inputs: rounds over a heap, and the selection loop at every spot. */
module Engine {
  import opened Seqs
  import opened Elements
  import opened Merge
  import opened Layouts
  import opened Worlds
  import opened Batch
  import opened Contest
  import opened Heaps
  import opened Selection
  import opened Streams
  import opened Weights

  function ValuesOf(es: seq<Elem>): (r: seq<Prim>)
    requires forall e | e in es :: e.First?
    ensures |r| == |es|
  {
    if es == [] then [] else ValuesOf(es[..|es| - 1]) + [es[|es| - 1].val]
  }

  /** The largest value, the first one on a tie. */
  function Largest(vals: seq<Prim>): Prim
    requires vals != []
  {
    if |vals| == 1 then vals[0] else MergeValues(Largest(vals[..|vals| - 1]), vals[|vals| - 1])
  }

  /** The heap made by pushing the nonempty inputs one by one. */
  function Heapized(k: Kind, inputs: seq<Doc>): seq<Stream> {
    if inputs == [] then []
    else
      var h := Heapized(k, inputs[..|inputs| - 1]);
      if inputs[|inputs| - 1] == [] then h
      else
        var s: Stream := inputs[|inputs| - 1];
        Up(LessBy(k), h + [s], |h|)
  }

  lemma {:induction false} HeapizedSkips(k: Kind, inputs: seq<Doc>)
    ensures Heapized(k, inputs + [[]]) == Heapized(k, inputs)
    ensures NonEmpty(inputs + [[]]) == NonEmpty(inputs)
  {
    assert (inputs + [[]])[..|inputs|] == inputs;
    NonEmptyGrows(inputs, []);
  }

  lemma {:induction false} HeapizedPushes(k: Kind, inputs: seq<Doc>, s: Stream)
    ensures Heapized(k, inputs + [s]) == Up(LessBy(k), Heapized(k, inputs) + [s], |Heapized(k, inputs)|)
    ensures NonEmpty(inputs + [s]) == NonEmpty(inputs) + [s]
  {
    assert (inputs + [s])[..|inputs|] == inputs;
    NonEmptyGrows(inputs, s);
  }

  /** It is a heap, over exactly the nonempty inputs. */
  lemma {:induction false} HeapizedHolds(k: Kind, inputs: seq<Doc>)
    ensures IsHeap(LessBy(k), Heapized(k, inputs))
    ensures multiset(Heapized(k, inputs)) == multiset(NonEmpty(inputs))
    ensures |Heapized(k, inputs)| <= |inputs|
    decreases |inputs|
  {
    if inputs != [] {
      var front, s := inputs[..|inputs| - 1], inputs[|inputs| - 1];
      SplitLast(inputs);
      HeapizedHolds(k, front);
      if s == [] {
        HeapizedSkips(k, front);
      } else {
        HeapizedPushes(k, front, s);
        HeapAppends(k, Heapized(k, front), s);
        BothGrow(Heapized(k, front), NonEmpty(front), s);
      }
    }
  }

  lemma BothGrow(h: seq<Stream>, f: seq<Stream>, s: Stream)
    requires multiset(h) == multiset(f)
    ensures multiset(f + [s]) == multiset(h) + multiset{s}
  {
  }

  lemma {:induction false} HeapAppends(k: Kind, h: seq<Stream>, s: Stream)
    requires IsHeap(LessBy(k), h)
    ensures IsHeap(LessBy(k), Up(LessBy(k), h + [s], |h|))
    ensures multiset(Up(LessBy(k), h + [s], |h|)) == multiset(h) + multiset{s}
  {
    var less, g := LessBy(k), h + [s];
    StreamsAreOrdered(k);
    forall c | 0 <= c < |g| && c != |h| ensures Fine(less, g, c) {
      assert Fine(less, h, c);
    }
    UpRepairs(less, g, |h|, |g|);
    UpPermutes(less, g, |h|);
  }

  /** Inputs already in heap order are pushed without moving. */
  lemma {:induction false} HeapizedIdle(k: Kind, h: seq<Stream>, i: nat)
    requires i <= |h| && forall c | 0 <= c < |h| :: Fine(LessBy(k), h, c)
    ensures Heapized(k, h[..i]) == h[..i]
  {
    if i > 0 {
      HeapizedIdle(k, h, i - 1);
      TakeGrows(h, i - 1);
      HeapizedPushes(k, h[..i - 1], h[i - 1]);
      assert Fine(LessBy(k), h, i - 1);
      assert i > 1 ==> h[..i][Parent(i - 1)] == h[Parent(i - 1)];
    }
  }

  lemma {:induction false} HeapizedWeighs(k: Kind, inputs: seq<Doc>)
    ensures WeightAll(Heapized(k, inputs)) == WeightAll(inputs)
  {
    HeapizedHolds(k, inputs);
    TotalPermutes(WeightOf, Heapized(k, inputs), NonEmpty(inputs));
    NonEmptyWeighs(WeightOf, inputs);
  }

  /** All values, or all containers of one kind. */
  predicate OneType(es: seq<Elem>) {
    es != [] && forall e | e in es :: Lit(e) == Lit(es[0]) && e.Plex? == es[0].Plex? && (e.Plex? ==> e.kind == es[0].kind)
  }

  /** The largest id, and the largest value or the merged contents. */
  function ClassMerged(es: seq<Elem>): Elem
    requires OneType(es)
    decreases WeightOf(es), 0
  {
    if es[0].First? then First(MaxIDs(es), Largest(ValuesOf(es)))
    else
      KidsWeigh(es);
      Plex(es[0].kind, MaxIDs(es), HeapMerged(es[0].kind, KidsOf(es)))
  }

  /** What the engine makes of the elements contending for one spot. */
  function SpotOf(es: seq<Elem>): Elem
    requires es != []
    decreases WeightOf(es), 1
  {
    WinnersAgree(es);
    WinnersWeigh(es);
    ClassMerged(Winners(es))
  }

  /** The merge of any inputs. */
  function HeapMerged(k: Kind, inputs: seq<Doc>): Doc
    decreases WeightAll(inputs), 4
  {
    HeapizedWeighs(k, inputs);
    RunHeap(k, Heapized(k, inputs))
  }

  /** All rounds from a heap on. */
  function RunHeap(k: Kind, h: seq<Stream>): Doc
    decreases WeightAll(h), 3
  {
    if h == [] then []
    else
      RoundWeighs(k, h);
      [Emitted(k, h)] + RunHeap(k, NextHeap(k, h))
  }

  /** What a round writes: a lone head as it is, several merged. */
  function Emitted(k: Kind, h: seq<Stream>): Elem
    requires h != []
    decreases WeightAll(h), 2
  {
    var heads := HeadsOf(Minimal(k, h));
    RoundWeighs(k, h);
    if |heads| == 1 then heads[0] else SpotOf(heads)
  }

  // ---- the fold of the two-way merge, for up to seven inputs

  ghost predicate MayStand(w: World, p: Path, e: Elem) { w.shells(p)(ShellOf(e)) && w.roster(p)(e) }

  /** At no place may the three elements meet that mislead the selection loop. */
  ghost predicate Untrapped(w: World) {
    forall p: Path, e, t, z | MayStand(w, p, e) && MayStand(w, p, t) && MayStand(w, p, z) :: !Trap(e, t, z)
  }

  /** Inputs that belong to one calm world without traps. */
  ghost predicate Fitting(w: World, c: Path, k: Kind, q: Cursor, inputs: seq<Doc>) {
    CalmWorld(Opened(w)) && Untrapped(w) && AllLaid(w, c, k, q, inputs)
  }

  /** And at most seven of them: RepairLimit.dfy shows that no larger number will do. */
  ghost predicate Mergeable(w: World, c: Path, k: Kind, q: Cursor, inputs: seq<Doc>) {
    Fitting(w, c, k, q, inputs) && |inputs| <= 7
  }

  /** For them the k-way merge is the two-way merge folded over the inputs. */
  lemma {:induction false} MergedIsFold(w: World, c: Path, k: Kind, q: Cursor, inputs: seq<Doc>)
    requires Mergeable(w, c, k, q, inputs)
    ensures HeapMerged(k, inputs) == FoldMerge(k, inputs)
    decreases WeightAll(inputs), 3
  {
    var h := Heapized(k, inputs);
    HeapizedHolds(k, inputs);
    HeapizedWeighs(k, inputs);
    NonEmptyIsLaid(w, c, k, q, inputs);
    AllLaidPermutes(w, c, k, q, NonEmpty(inputs), h);
    AllLaidInOpened(w, c, k, q, h);
    FoldMergePermutes(Opened(w), c, k, q, h, NonEmpty(inputs));
    NonEmptyMerge(k, inputs);
    RunIsFold(w, c, k, q, h);
  }

  lemma {:induction false} NonEmptyIsLaid(w: World, c: Path, k: Kind, q: Cursor, ss: seq<Doc>)
    requires AllLaid(w, c, k, q, ss)
    ensures AllLaid(w, c, k, q, NonEmpty(ss))
    decreases |ss|
  {
    if ss != [] {
      SplitLast(ss);
      assert AllLaid(w, c, k, q, ss[..|ss| - 1]);
      NonEmptyIsLaid(w, c, k, q, ss[..|ss| - 1]);
    }
  }

  lemma {:induction false} RunIsFold(w: World, c: Path, k: Kind, q: Cursor, h: seq<Stream>)
    requires Mergeable(w, c, k, q, h) && IsHeap(LessBy(k), h)
    ensures RunHeap(k, h) == FoldMerge(k, h)
    decreases WeightAll(h), 2
  {
    if h != [] {
      var s := RoundIsAFoldStep(w, c, k, q, h);
      RoundKeepsHeap(k, h);
      RoundWeighs(k, h);
      EmittedIsFold(w, c + [At(s)], k, h);
      RunIsFold(w, c, k, After(s), NextHeap(k, h));
    }
  }

  lemma {:induction false} EmittedIsFold(w: World, p: Path, k: Kind, h: seq<Stream>)
    requires CalmWorld(Opened(w)) && Untrapped(w) && 0 < |h| <= 7
    requires forall e | e in HeadsOf(Minimal(k, h)) :: Belongs(w, p, e)
    ensures HeadsOf(Minimal(k, h)) != [] && Emitted(k, h) == FoldSpot(HeadsOf(Minimal(k, h)))
    decreases WeightAll(h), 1
  {
    RoundWeighs(k, h);
    SomeMinimal(k, h);
    HeadsWeigh(Minimal(k, h));
    if |HeadsOf(Minimal(k, h))| > 1 {
      SpotIsFold(w, p, HeadsOf(Minimal(k, h)));
    }
  }

  /** And what it writes at a spot is the two-way spot merge folded over the contenders. */
  lemma {:induction false} SpotIsFold(w: World, p: Path, es: seq<Elem>)
    requires CalmWorld(Opened(w)) && Untrapped(w) && 0 < |es| <= 7
    requires forall e | e in es :: Belongs(w, p, e)
    ensures SpotOf(es) == FoldSpot(es)
    decreases WeightOf(es), 0
  {
    var eqs := Winners(es);
    ContestantsInOpened(w, p, es);
    WinnersMergeAll(Opened(w), p, es);
    WinnersComeFrom(es);
    WinnersWeigh(es);
    WinnersAgree(es);
    MergedClass(eqs);
    if eqs[0].First? {
      LargestOfOne(eqs);
    } else {
      KidsWeigh(eqs);
      ClassIsMergeable(w, p, eqs);
      MergedIsFold(w, Inside(p, eqs[0]), eqs[0].kind, Start, KidsOf(eqs));
    }
  }

  lemma {:induction false} ContestantsInOpened(w: World, p: Path, es: seq<Elem>)
    requires CalmWorld(Opened(w)) && Untrapped(w) && forall e | e in es :: Belongs(w, p, e)
    ensures Contestants(Opened(w), p, es) && NoTraps(es)
  {
    forall e | e in es ensures Belongs(Opened(w), p, e) && MayStand(w, p, e) {
      BelongsInOpened(w, p, e);
    }
  }

  lemma {:induction false} LargestOfOne(es: seq<Elem>)
    requires OneClass(es) && es[0].First?
    ensures forall e | e in es :: e.First?
    ensures Largest(ValuesOf(es)) == es[0].val
    decreases |es|
  {
    var n := |es| - 1;
    assert es[0] in es && es[n] in es;
    assert es[n] == es[0];
    if n > 0 {
      SplitLast(es);
      LargestOfOne(es[..n]);
      LargestGrows(ValuesOf(es[..n]), es[n].val);
    }
  }

  lemma {:induction false} LargestGrows(vals: seq<Prim>, v: Prim)
    requires vals != []
    ensures Largest(vals + [v]) == MergeValues(Largest(vals), v)
  {
    assert (vals + [v])[..|vals|] == vals;
  }

  lemma {:induction false} ClassIsMergeable(w: World, p: Path, eqs: seq<Elem>)
    requires CalmWorld(Opened(w)) && Untrapped(w) && OneClass(eqs) && |eqs| <= 7
    requires forall e | e in eqs :: e.Plex? && Belongs(w, p, e)
    ensures Mergeable(w, Inside(p, eqs[0]), eqs[0].kind, Start, KidsOf(eqs))
  {
    KidsOfMember(eqs, eqs[0]);
    forall s | s in KidsOf(eqs) ensures Laid(w, Inside(p, eqs[0]), eqs[0].kind, Start, s) {
      var e := KidsComeFrom(eqs, s);
      assert Inside(p, e) == Inside(p, eqs[0]);
    }
  }

  lemma {:induction false} KidsComeFrom(es: seq<Elem>, s: Doc) returns (e: Elem)
    requires (forall x | x in es :: x.Plex?) && s in KidsOf(es)
    ensures e in es && e.kids == s
    decreases |es|
  {
    var n := |es| - 1;
    if es[n].kids == s {
      e := es[n];
    } else {
      e := KidsComeFrom(es[..n], s);
    }
  }
}
