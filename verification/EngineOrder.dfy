/** The order in which up to seven inputs come out of the engine, whatever their stamps. */
module EngineOrder {
  import opened Seqs
  import opened Elements
  import opened Batch
  import opened Heaps
  import opened Streams
  import opened Weights
  import opened Engine
  import opened EngineKeys
  import opened KeyLists
  import opened Discont

  /** Round by round the run writes the keys of the folded merge. */
  lemma {:induction false} RunOrder(k: Kind, h: seq<Stream>)
    requires (k == P || |h| <= 7) && IsHeap(LessBy(k), h)
    ensures KeyList(k, RunHeap(k, h)) == KeyList(k, FoldMerge(k, h))
    decreases WeightAll(h)
  {
    if h != [] {
      var (g, e) := EqUp(EqBy(k), h);
      var next, rest := NextHeap(k, h), Live(g[..e]) + g[e..];
      RoundWeighs(k, h);
      RoundRepairs(k, h);
      RunOrder(k, next);
      GatherLow(k, h);
      EqUpPermutes(EqBy(k), h);
      FoldedKeysPermute(k, h, g);
      GatheredFoldStep(k, g, e);
      NextHeapKeepsStreams(k, h);
      FoldedKeysPermute(k, next, rest);
      EmittedKeepsKey(k, h);
      MinimalShareKey(k, h);
      HeadFirst(k, Emitted(k, h), RunHeap(k, next));
      HeadFirst(k, FoldSpot(HeadsOf(g[..e])), FoldMerge(k, rest));
    }
  }

  lemma HeadFirst(k: Kind, e: Elem, rest: Doc)
    ensures KeyList(k, [e] + rest) == [KeyOf(k, e)] + KeyList(k, rest)
  {
    assert ([e] + rest)[1..] == rest;
  }

  /** The merge has the keys of the folded two-way merge in the same order: no world, no order, no exact values needed. */
  lemma {:induction false} MergeOrder(k: Kind, inputs: seq<Doc>)
    requires k == P || |inputs| <= 7
    ensures KeyList(k, HeapMerged(k, inputs)) == KeyList(k, FoldMerge(k, inputs))
  {
    var h := Heapized(k, inputs);
    HeapizedHolds(k, inputs);
    RunOrder(k, h);
    FoldedKeysPermute(k, h, NonEmpty(inputs));
    NonEmptyMerge(k, inputs);
  }

  /** Up to seven head-closed versions of an array come out as the layout cut down to all their rows. */
  lemma {:induction false} VersionsConverge(u: seq<Key>, sels: seq<set<nat>>, versions: seq<Doc>)
    requires |sels| == |versions| <= 7
    requires forall i | 0 <= i < |sels| :: HeadClosed(u, sels[i]) && KeyList(L, versions[i]) == Restrict(u, 0, sels[i])
    ensures HeadClosed(u, Union(sels)) && KeyList(L, HeapMerged(L, versions)) == Restrict(u, 0, Union(sels))
  {
    FamilyConverges(u, sels, versions);
    MergeOrder(L, versions);
  }
}
