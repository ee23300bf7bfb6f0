/** The keys of a list, in order: what a merge does to them depends on nothing else. */
module KeyLists {
  import opened Seqs
  import opened Ids
  import opened Elements
  import opened Merge
  import opened Batch

  function KeyList(k: Kind, xs: Doc): seq<Key> {
    if xs == [] then [] else [KeyOf(k, xs[0])] + KeyList(k, xs[1..])
  }

  lemma {:induction false} KeyListAt(k: Kind, xs: Doc, i: nat)
    requires i < |xs|
    ensures |KeyList(k, xs)| == |xs| && KeyList(k, xs)[i] == KeyOf(k, xs[i])
  {
    if |xs| > 1 {
      KeyListAt(k, xs[1..], if i == 0 then 0 else i - 1);
    }
  }

  /** The two-way merge, on keys alone. */
  function MergeKeys(a: seq<Key>, b: seq<Key>): seq<Key> {
    if a == [] then b
    else if b == [] then a
    else
      match CompareKey(a[0], b[0])
      case Less => [a[0]] + MergeKeys(a[1..], b)
      case Grtr => [b[0]] + MergeKeys(a, b[1..])
      case Eq => [a[0]] + MergeKeys(a[1..], b[1..])
  }

  lemma {:induction false} MergedKeys(k: Kind, xs: Doc, ys: Doc)
    ensures KeyList(k, MergeList(k, xs, ys)) == MergeKeys(KeyList(k, xs), KeyList(k, ys))
    decreases |xs| + |ys|
  {
    if xs != [] && ys != [] {
      CompareIsKeyOrder(k, xs[0], ys[0]);
      KeysAreTotallyOrdered(KeyOf(k, xs[0]), KeyOf(k, ys[0]));
      match Compare(k, xs[0], ys[0])
      case Less => MergedKeys(k, xs[1..], ys);
      case Grtr => MergedKeys(k, xs, ys[1..]);
      case Eq =>
        SpotKeepsKey(k, xs[0], ys[0]);
        MergedKeys(k, xs[1..], ys[1..]);
    }
  }

  lemma {:induction false} MergeKeysCommutes(a: seq<Key>, b: seq<Key>)
    ensures MergeKeys(a, b) == MergeKeys(b, a)
    decreases |a| + |b|
  {
    if a != [] && b != [] {
      KeysAreTotallyOrdered(a[0], b[0]);
      match CompareKey(a[0], b[0])
      case Less => MergeKeysCommutes(a[1..], b);
      case Grtr => MergeKeysCommutes(a, b[1..]);
      case Eq => MergeKeysCommutes(a[1..], b[1..]);
    }
  }

  /** The least head goes first, and from every list it heads. */
  function Least(a: Key, b: Key): Key { if CompareKey(a, b) == Grtr then b else a }

  function Behind(key: Key, a: seq<Key>): seq<Key> { if a != [] && a[0] == key then a[1..] else a }

  lemma MergeKeysHead(a: seq<Key>, b: seq<Key>)
    requires a != [] && b != []
    ensures var low := Least(a[0], b[0]);
            MergeKeys(a, b) == [low] + MergeKeys(Behind(low, a), Behind(low, b))
  {
    KeysAreTotallyOrdered(a[0], b[0]);
  }

  lemma LeastAssociates(x: Key, y: Key, z: Key)
    ensures Least(Least(x, y), z) == Least(x, Least(y, z))
  {
    KeysAreTotallyOrdered(x, y);
    KeysAreTotallyOrdered(y, z);
    KeysAreTotallyOrdered(x, z);
    if Below(x, y) && Below(y, z) { KeysTransitive(x, y, z); }
    if Below(z, y) && Below(y, x) { KeysTransitive(z, y, x); }
  }

  /** A key that is no higher than the heads leaves a merge as it leaves the two lists. */
  lemma BehindMerged(key: Key, a: seq<Key>, b: seq<Key>)
    requires a != [] ==> !Below(a[0], key)
    requires b != [] ==> !Below(b[0], key)
    ensures Behind(key, MergeKeys(a, b)) == MergeKeys(Behind(key, a), Behind(key, b))
  {
    if a != [] && b != [] {
      MergeKeysHead(a, b);
      KeysAreTotallyOrdered(a[0], b[0]);
      KeysAreTotallyOrdered(a[0], key);
      KeysAreTotallyOrdered(b[0], key);
    }
  }

  lemma {:induction false} MergeKeysAssociates(a: seq<Key>, b: seq<Key>, c: seq<Key>)
    ensures MergeKeys(MergeKeys(a, b), c) == MergeKeys(a, MergeKeys(b, c))
    decreases |a| + |b| + |c|
  {
    if a != [] && b != [] && c != [] {
      var low := Least(Least(a[0], b[0]), c[0]);
      var ab, bc := MergeKeys(a, b), MergeKeys(b, c);
      LeastAssociates(a[0], b[0], c[0]);
      LowIsLow(a[0], b[0], c[0]);
      MergeKeysHead(a, b);
      MergeKeysHead(b, c);
      MergeKeysHead(ab, c);
      MergeKeysHead(a, bc);
      BehindMerged(low, a, b);
      BehindMerged(low, b, c);
      MergeKeysAssociates(Behind(low, a), Behind(low, b), Behind(low, c));
    }
  }

  lemma LowIsLow(x: Key, y: Key, z: Key)
    ensures var low := Least(Least(x, y), z);
            low in {x, y, z} && !Below(x, low) && !Below(y, low) && !Below(z, low)
  {
    KeysAreTotallyOrdered(x, y);
    KeysAreTotallyOrdered(y, z);
    KeysAreTotallyOrdered(x, z);
    KeysAreTotallyOrdered(x, x);
    KeysAreTotallyOrdered(y, y);
    KeysAreTotallyOrdered(z, z);
    if Below(x, y) && Below(y, z) { KeysTransitive(x, y, z); }
    if Below(z, x) && Below(x, y) { KeysTransitive(z, x, y); }
    if Below(z, y) && Below(y, x) { KeysTransitive(z, y, x); }
  }

  // ---- many lists

  const KEYS: (seq<Key>, seq<Key>) -> seq<Key> := (a: seq<Key>, b: seq<Key>) => MergeKeys(a, b)

  const ANY_KEYS: seq<Key> -> bool := (a: seq<Key>) => true

  lemma KeysMerge()
    ensures Merges(KEYS, ANY_KEYS)
  {
    forall a: seq<Key>, b: seq<Key> ensures KEYS(a, b) == KEYS(b, a) {
      MergeKeysCommutes(a, b);
    }
    forall a: seq<Key>, b: seq<Key>, c: seq<Key> ensures KEYS(KEYS(a, b), c) == KEYS(a, KEYS(b, c)) {
      MergeKeysAssociates(a, b, c);
    }
  }

  function KeyLists(k: Kind, ss: seq<Doc>): (r: seq<seq<Key>>)
    ensures |r| == |ss|
  {
    if ss == [] then [] else KeyLists(k, ss[..|ss| - 1]) + [KeyList(k, ss[|ss| - 1])]
  }

  lemma {:induction false} FoldedKeys(k: Kind, ss: seq<Doc>)
    requires ss != []
    ensures KeyList(k, FoldMerge(k, ss)) == Fold(KEYS, KeyLists(k, ss))
    decreases |ss|
  {
    var n := |ss| - 1;
    SplitLast(ss);
    FoldMergeGrows(k, ss[..n], ss[n]);
    if n > 0 {
      FoldedKeys(k, ss[..n]);
      MergedKeys(k, FoldMerge(k, ss[..n]), ss[n]);
    }
  }

  function Hits(k: Kind, keys: seq<Key>): Doc -> nat { (s: Doc) => if KeyList(k, s) == keys then 1 else 0 }

  lemma {:induction false} KeyListsCount(k: Kind, ss: seq<Doc>, keys: seq<Key>)
    ensures multiset(KeyLists(k, ss))[keys] == Sum(Hits(k, keys), ss)
    decreases |ss|
  {
    if ss != [] {
      KeyListsCount(k, ss[..|ss| - 1], keys);
    }
  }

  lemma {:induction false} KeyListsPermute(k: Kind, a: seq<Doc>, b: seq<Doc>)
    requires multiset(a) == multiset(b)
    ensures multiset(KeyLists(k, a)) == multiset(KeyLists(k, b))
  {
    forall keys ensures multiset(KeyLists(k, a))[keys] == multiset(KeyLists(k, b))[keys] {
      KeyListsCount(k, a, keys);
      KeyListsCount(k, b, keys);
      SumPermutes(Hits(k, keys), a, b);
    }
  }

  /** The keys of the folded merge do not depend on the order of the inputs: for all inputs, sorted or not. */
  lemma {:induction false} FoldedKeysPermute(k: Kind, a: seq<Doc>, b: seq<Doc>)
    requires multiset(a) == multiset(b)
    ensures KeyList(k, FoldMerge(k, a)) == KeyList(k, FoldMerge(k, b))
  {
    assert |a| == |multiset(a)| == |multiset(b)| == |b|;
    if a != [] {
      KeysMerge();
      FoldedKeys(k, a);
      FoldedKeys(k, b);
      KeyListsPermute(k, a, b);
      FoldPermutes(KEYS, ANY_KEYS, KeyLists(k, a), KeyLists(k, b));
    }
  }
}
