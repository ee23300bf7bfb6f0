/** What the engine writes is never longer than what it reads, for any number of inputs of any kind. */
module EngineSize {
  import opened Seqs
  import opened Ids
  import opened Elements
  import opened Merge
  import opened Batch
  import opened Contest
  import opened Heaps
  import opened Selection
  import opened Streams
  import opened Weights
  import opened Engine
  import opened Zip
  import opened Wire

  lemma SizeIsAdditive()
    ensures Additive(DocSize)
  {
    forall a: Doc, b: Doc ensures DocSize(a + b) == DocSize(a) + DocSize(b) {
      EncodeConcat(a, b);
    }
  }

  lemma {:induction false} DocSizeGrows(es: Doc, e: Elem)
    ensures DocSize(es + [e]) == DocSize(es) + |EncodeElem(e)|
  {
    EncodeConcat(es, [e]);
    EncodeOne(e);
  }

  lemma {:induction false} MemberIsShorter(es: seq<Elem>, e: Elem)
    requires e in es
    ensures |EncodeElem(e)| <= DocSize(es)
    decreases |es|
  {
    var n := |es| - 1;
    SplitLast(es);
    DocSizeGrows(es[..n], es[n]);
    if e != es[n] {
      MemberIsShorter(es[..n], e);
    }
  }

  /** Containers take at least three bytes each on top of their contents, and the id of any one of them. */
  lemma {:induction false} ContentsAreShorter(es: seq<Elem>, e: Elem)
    requires (forall x | x in es :: x.Plex?) && e in es
    ensures TotalSize(KidsOf(es)) + 3 * |es| + |ZipID(e.id)| <= DocSize(es)
    decreases |es|
  {
    var n := |es| - 1;
    SplitLast(es);
    DocSizeGrows(es[..n], es[n]);
    ElemSize(es[n]);
    TotalGrows(DocSize, KidsOf(es[..n]), es[n].kids);
    if n > 0 {
      ContentsAreShorter(es[..n], if e in es[..n] then e else es[0]);
    }
  }

  lemma {:induction false} ClassShrinks(es: seq<Elem>)
    requires OneType(es) && (es[0].First? ==> forall e | e in es :: e.id == es[0].id)
    ensures |EncodeElem(ClassMerged(es))| <= DocSize(es)
    decreases WeightOf(es), 0
  {
    var m := ClassMerged(es);
    MaxIsAtLeast(es, es[0]);
    var x :| x in es && x.id == MaxIDs(es);
    if es[0].First? {
      LargestIsIn(ValuesOf(es));
      var y := ValueComesFrom(es, m.val);
      assert m == y;
      MemberIsShorter(es, y);
    } else {
      KidsWeigh(es);
      HeapShrinks(es[0].kind, KidsOf(es));
      ElemSize(m);
      ContentsAreShorter(es, x);
      if |es| == 1 {
        LoneContainer(es);
      }
    }
  }

  lemma {:induction false} LoneContainer(es: seq<Elem>)
    requires |es| == 1 && es[0].Plex?
    ensures DocSize(es) == |EncodeElem(es[0])| && MaxIDs(es) == es[0].id && TotalSize(KidsOf(es)) == DocSize(es[0].kids)
    ensures |EncodeElem(es[0])| == Tlv.Framed(1 + |ZipID(es[0].id)| + DocSize(es[0].kids))
  {
    EncodeOne(es[0]);
    assert es == [es[0]];
    TotalGrows(DocSize, [], es[0].kids);
    assert KidsOf(es) == [es[0].kids];
    ElemSize(es[0]);
  }

  lemma {:induction false} LargestIsIn(vals: seq<Prim>)
    requires vals != []
    ensures Largest(vals) in vals
    decreases |vals|
  {
    if |vals| > 1 {
      LargestIsIn(vals[..|vals| - 1]);
    }
  }

  lemma {:induction false} ValueComesFrom(es: seq<Elem>, v: Prim) returns (e: Elem)
    requires (forall x | x in es :: x.First?) && v in ValuesOf(es)
    ensures e in es && e.val == v
    decreases |es|
  {
    var n := |es| - 1;
    if es[n].val == v {
      e := es[n];
    } else {
      e := ValueComesFrom(es[..n], v);
    }
  }

  lemma WinningValuesShareAnId(es: seq<Elem>)
    requires es != []
    ensures OneType(Winners(es))
    ensures Winners(es)[0].First? ==> forall e | e in Winners(es) :: e.id == Winners(es)[0].id
  {
    var ws, heap := Winners(es), Select(JUDGE, es).heap;
    WinnersAgree(es);
    FrontAgrees(JUDGE, es, |es|, 1, 1);
    if ws[0].First? {
      forall e | e in ws ensures e.id == ws[0].id {
        var j :| 0 <= j < |ws| && ws[j] == e;
        if j > 0 {
          assert ws[j] == heap[j] && ws[0] == heap[0];
          assert JUDGE(ws[0], ws[j]) == Eq;
          RevCompareIsLess(ws[0].id, ws[j].id);
        }
      }
    }
  }

  lemma {:induction false} SpotOfShrinks(es: seq<Elem>)
    requires es != []
    ensures |EncodeElem(SpotOf(es))| <= DocSize(es)
    decreases WeightOf(es), 1
  {
    var r := Select(JUDGE, es);
    WinnersWeigh(es);
    WinningValuesShareAnId(es);
    ClassShrinks(Winners(es));
    SelectPermutes(JUDGE, es, |es|, 1, 1);
    SizePermutes(r.heap, es);
    SplitAt(r.heap, r.eq);
    EncodeConcat(r.heap[..r.eq], r.heap[r.eq..]);
  }

  function ElemLength(e: Elem): nat { |EncodeElem(e)| }

  lemma {:induction false} SizeIsSum(es: Doc)
    ensures DocSize(es) == Sum(ElemLength, es)
    decreases |es|
  {
    if es != [] {
      SplitLast(es);
      SizeIsSum(es[..|es| - 1]);
      DocSizeGrows(es[..|es| - 1], es[|es| - 1]);
    }
  }

  lemma SizePermutes(a: Doc, b: Doc)
    requires multiset(a) == multiset(b)
    ensures DocSize(a) == DocSize(b)
  {
    SizeIsSum(a);
    SizeIsSum(b);
    SumPermutes(ElemLength, a, b);
  }

  /** Whatever the inputs, the merge is no longer than all of them together. */
  lemma {:induction false} HeapShrinks(k: Kind, inputs: seq<Doc>)
    ensures |EncodeDoc(HeapMerged(k, inputs))| <= TotalSize(inputs)
    decreases WeightAll(inputs), 4
  {
    var h := Heapized(k, inputs);
    HeapizedWeighs(k, inputs);
    HeapizedHolds(k, inputs);
    TotalPermutes(DocSize, h, NonEmpty(inputs));
    NonEmptyWeighs(DocSize, inputs);
    RunShrinks(k, h);
  }

  lemma {:induction false} RunShrinks(k: Kind, h: seq<Stream>)
    ensures |EncodeDoc(RunHeap(k, h))| <= TotalSize(h)
    decreases WeightAll(h), 3
  {
    if h != [] {
      var heads := HeadsOf(Minimal(k, h));
      RoundWeighs(k, h);
      SizeIsAdditive();
      RoundSpends(DocSize, k, h);
      RunShrinks(k, NextHeap(k, h));
      RunWrites(k, h);
      if |heads| == 1 {
        MemberIsShorter(heads, heads[0]);
      } else {
        SpotOfShrinks(heads);
      }
    }
  }

  lemma {:induction false} RunWrites(k: Kind, h: seq<Stream>)
    requires h != []
    ensures EncodeDoc(RunHeap(k, h)) == EncodeElem(Emitted(k, h)) + EncodeDoc(RunHeap(k, NextHeap(k, h)))
  {
    assert RunHeap(k, h)[0] == Emitted(k, h) && RunHeap(k, h)[1..] == RunHeap(k, NextHeap(k, h));
  }
}
