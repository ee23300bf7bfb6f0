# RDX, proved

A Dafny model of the core of `github.com/gritzko/rdx`: the CRDT merge engine, the normalizer, the
binary record format, the number codecs, the JDR text parser and printer, and the Merkle peak line.
`dafny verify dfyconfig.toml` checks all of it.

## How the model is laid out

- **Values.** `Ids`, `Ron`, `Elements`: 128-bit ids, locators, and elements as a tree
  (`First(id, val) | Plex(kind, id, kids)`), with the five comparators branch by branch and one
  key type on which each of them is a plain total order. `Orders` and `Maps` say these orders outright, and what stays.
- **Merge as a function.** `Merge` is the two-way merge. `Layouts`, `Discont`, `Worlds`, `Laws`,
  `Batch`, `KeyLists` prove what it is: a slot-by-slot join, on sorted and on unsorted lists alike.
  `Discipline` has rules for stamps and arrays that a caller can check.
- **Merge as the code runs it.** `Heaps`, `Streams`, `Selection`, `Engine` are the heap of streams with its
  sifting, gathering and repair, the selection loop at one spot and the recursion into contents, as
  functions that take any inputs; `IterHeap` is the same as methods that change the heap in place and
  append bytes under marks. `Engine`, `EngineNormal`, `EngineKeys`, `EngineOrder`, `EngineValues`, `EngineSize`,
  `PairMerge`, `SelfMerge`, `TopMerge` say what the engine promises; `RepairLimit`, `OrderLimit` and `NormalLimit`
  where the promises end. `Heap2`, `Heap2Run`: the second heap.
- **Bytes.** `Digits`, `Zip`, `Bits`, `Tlv`, `Marks`, `Builder`, `Wire`: records, the mark stack, both serializers,
  the iterator, sizes. `Normal` is the normal form as a function, `Normalizer` the loop that appends
  records under marks, cuts runs and merges them; `FixedPoints` says what it leaves as it is, `Texts`
  which strings and terms it takes, `RawInput` names stamped input that it sorts as the two-way merge would.
- **Text.** `Jdr` has the parser callbacks on the spliced buffer, `JdrTree` a parser that builds a tree,
  `JdrState` the mutable parser, proved against the tree; `JdrPrint` and `JdrWriter` are the printer,
  `JdrSafety` the results, `Notation` the grammar of what can be written and what it stands for. `Escapes`, `TextIds`, `Lexemes` cover string escapes, textual ids, and which
  token class the text of an id falls into.
- **Merkle.** `Merkle`, `MerkleRun`: the array of peaks as a binary counter, and whole runs of appends.

A *world* (module `Worlds`) says which types and ids may meet at each place of a document, and how linear
containers are laid out. It is *calm* when nothing stands between two revisions of one container.
`Laws.DisciplineIsCalm` gives a rule that clocks can follow: under one `seq >> 6`, either all stamps
share source and type, or all share the revision. A document is *disciplined* (module `Discipline`) when at every
place its stamps follow such a rule, its values are exact, its sets and multiplexed containers ascend, and its arrays
are kept as agreed for that place: ascending, all at one locator as in JSON, or with insertion trains along given rows.

## What the proofs turned up

- The README promises associativity for all valid documents. It holds at a place exactly when the place
  is calm (`Laws.CalmIff`); `Laws.InterleavingBreaksGrouping` builds a failing triple from any interleaving.
- Documents over a set of values commute exactly when no two of the values tie (`Merge.MergeCommutesIff`).
  `0.0` and `-0.0` do, and so do references that differ in revision; then the first input stays.
- For two inputs of exact values the engine is the two-way merge, with no further condition
  (`PairMerge.MergeOfTwo`). From three inputs on, the selection loop can go wrong around the empty
  tuple: of `()`, `(1)` and `5` merged at once 5 stays, two by two `(1)` does (`TopMerge.ThreeAtOnceMisled`).
  At a calm place the loop gives the fold for all contenders in all orders exactly when no three of them
  are such a trap: an empty tuple, a type that beats it at its own id, and another revision or content of
  the tuple (`Selection.LoopIsFoldIff`).
- The repair loop marked FIXME in `itheap.go` keeps the heap for up to seven inputs and, in arrays, sets and
  multiplexed containers, for no larger number (`RepairLimit.RepairIff`). So up to seven inputs that fit one world merge to
  the fold, up to seven lists in normal form to a list in normal form, up to seven inputs of any kind to the fold's keys in
  the fold's order, and up to seven head-closed versions of an array converge; for every larger number there are inputs for
  which each of these fails (`RepairLimit.MergeIff`, `RepairLimit.NormalIff`, `OrderLimit.OrderIff`, `OrderLimit.VersionsIff`).
  No key is lost or made up, no value is made up, and the output is no longer than the inputs, for any number of inputs
  (`EngineKeys.MergeKeepsKeys`, `EngineValues.MergeHolds`, `EngineSize.HeapShrinks`).
- The normalizer merges the runs it cuts, and runs are not arbitrary lists: each starts no higher than the one before it
  ended. Seven is its limit all the same: with at most n runs in every container its output is always normal, and a second
  pass always idle, exactly when n is at most seven (`NormalLimit.NormalizedIff`, `NormalLimit.NormalizedTwiceIff`). One
  set or multiplexed container with n runs that comes out of order is built for every n from eight on
  (`NormalLimit.LaterRunsBreak`). What the normalizer leaves as it is, is normal, however many runs it had to merge
  (`FixedPoints.FixedIff`), so a second pass is idle exactly when the first one gave a normal document.
- `Iter` adds `hdrlen` and `idlen` as `uint8`. The value handed out is the end of the record exactly when the
  two add up to less than 256: id lengths below 253 in a short record, below 250 in a long one
  (`Tlv.ValueIsPayloadIff`), and the slice of the id runs backwards beyond that (`Tlv.IdInRangeIff`);
  `Tlv.LongIdHidesTheValue` is a record whose type letter is handed out as its value.
  When the id takes up the whole record, reading succeeds and the value has length -1 (`Tlv.ValueInRangeIff`,
  `Tlv.EmptyRecordHasNoValue`).
- `ReadTLV` compares a long length with `len(data)+5` instead of `len(data)-5`, so it misses truncations by
  up to ten bytes and slices past the data; `Iter` misses none (`Tlv.TruncationIsNoticedIff`,
  `Tlv.IteratorNoticesTruncation`).
- `Append` of the peak line reads slot 64 before it checks the bound, so with all slots taken
  it cannot return its range error; that state is reached at one leaf less than the capacity (`Merkle.RoomIff`).
- The locator `z~~~~~~~~~` has the form that is given to zero, so it ties with zero and reads back as 0
  (`Ron.ZeroIsLast`, `Ron.Uint64OfRon60`). Ids cannot carry it: their stems are below 2^58.
- Stamps, references and formal ids beyond sixty bits are printed but refused when read. Exactly the
  documents without any come back from their printed tokens (`JdrSafety.PrintedParsesBackIff`).
- A reference that `WriteJDR` prints lexes as a reference exactly when it has a source, and source and time do
  not read as a float (`Lexemes.ReferenceLexesIff`): source 0 with time 10 prints `A`, a term, and source 105
  with time 5 prints `1e-5`. `FormalString`, which the other printer uses, always lexes as a reference
  (`Lexemes.FormalStringIsRef`).

## Model

| member | source | states |
|---|---|---|
| Elements.CompareIsKeyOrder | rdx.go:294-427 | the tuple, linear, Euler and multiplexed comparators are each the total preorder given by one key; what the keys are is said by `Orders` and `Maps` |
| Elements.KeysAreTotallyOrdered | rdx.go:227-427 | keys tie only when equal, and comparing flips with its arguments |
| Elements.KeysTransitive | rdx.go:227-427 | the order of keys is transitive |
| Ids.CompareBytesIsAnOrder | rdx.go:280-286 | byte strings tie only when equal; swapping them flips the answer |
| Orders.CompareBytesIff | rdx.go:280-286 | strings and terms compare as in a dictionary: a proper prefix is below, otherwise the first differing byte decides |
| Orders.FloatsCompareAsNumbers | rdx.go:250-260 | floats compare as the numbers that sign, exponent and fraction stand for |
| Orders.NaNIff | rdx.go:711-714 | not a number: all exponent bits set and a nonzero fraction |
| Orders.ComparePrimIff | rdx.go:250-286 | the order of two values of one type, each type by its own order |
| Orders.TypesInOrder | rdx.go:315-335 | types order as F, I, R, S, T, E, L, P, X |
| Orders.LettersOfTypes | rdx.go:13-24 | the letter of each type |
| Orders.IdsCompare | id.go:154-198 | ids compare by time and then source; as identities with the six revision bits masked |
| Orders.ArraysCompareLocators | rdx.go:298-313 | arrays go by the ten digits of the locator, pushed to the left and with the head digit turned by one, then by source |
| Orders.UnplacedComeLast | rdx.go:298-313 | elements without a locator come behind all others, among themselves by source |
| Orders.SourcesCompare | rdx.go:294-427 | multiplexed containers go by source alone; the elements of a tuple all tie |
| Orders.LargerValueStays | rdx.go:69-124 | of two values with one id and one type the second stays exactly when the first is below it, so none of the two is above what stays |
| Orders.HigherTypeStays | rdx.go:231-248 | of two elements with one id the higher type stays, an empty tuple aside |
| Orders.LaterElementStays | rdx.go:231-248 | of two elements that are not one container the later one stays |
| Orders.RevisionsMerge | rdx.go:151-215 | two revisions of one container merge their contents under the later id |
| Orders.TuplesMergeByPosition | rdx.go:126-132 | tuples merge position by position, the longer one keeps its rest |
| Orders.LetterBStays | rdx.go:111-120 | of "a" and "b" the merge keeps "b", in either order |
| Maps.SetsCompareSubjects | rdx.go:406-418 | sets compare what their elements stand for: a tuple for its first part, anything else for itself |
| Maps.EntriesCompareFirstParts | rdx.go:406-418 | likewise said of a tuple against a tuple and against anything else |
| Maps.EmptyTupleIsLowest | rdx.go:365-377 | an empty tuple is below everything else in a set |
| Maps.EntriesMergeIff | rdx.go:138-140 | two map entries merge into one exactly when their keys compare equal; otherwise both stay, in order |
| Maps.MapsMerge | rdx.go:138-140 | maps merge entry by entry |
| Maps.EngineMergesMaps | itheap.go:442-450 | so does the k-way merge of two maps of exact values |
| Maps.SourcesMerge | rdx.go:142-144 | multiplexed containers merge source by source |
| Maps.TwoMaps | y.E.md:40-46 | {1:2} and {3:4} make {1:2, 3:4}; {1:2} and {1:3} make {1:3} |
| Merge.TieIsIdentity | rdx.go:231-248 | exact elements that tie under last-write-wins, not being one container, are identical |
| Merge.LastWriteWins | rdx.go:231-248 | the result carries the larger of the two ids, and unless both are one container, it is the later write |
| Merge.LWWFlips | rdx.go:231-248 | last-write-wins is antisymmetric, empty tuples included |
| Merge.SpotKeepsKey | rdx.go:151-215 | merging two elements of one key keeps that key, in every container |
| Merge.MergeListKeepsExact | rdx.go:126-215 | merging values without -0.0 and without revisions in references keeps them so |
| Merge.MergeIsCommutative | README.md:194-198 | A + B = B + A for all documents of exact values, sorted or not |
| Merge.MergeCommutesIff | rdx.go:69-124 | whatever values are allowed, all documents over them commute exactly when no two of them tie |
| Merge.MergeIsIdempotent | README.md:187-192 | A + A = A for every document |
| Layouts.MergeIsSlotwise | itheap.go:403-450 | merging lists that fit one layout gives, at each slot, the join of what they have there, and fits the layout |
| Layouts.SameLooksSameList | itheap.go:403-450 | a list is determined by what it holds at each slot |
| Worlds.SpotBelongs | rdx.go:151-215 | merging at one spot stays among what may stand there, through all levels |
| Worlds.MergeListLaid | rdx.go:126-215 | merging lists laid out in a world gives a list laid out in it |
| Worlds.MergeListAssociates | rdx.go:126-215 | grouping does not matter for lists of a calm world, through tuples, sets, multiplexed and linear containers |
| Worlds.ShallowAssociates | rdx.go:151-215 | at a calm place the outcome for three contenders does not depend on grouping |
| Laws.MergeIsAssociative | README.md:200-202 | (A+B)+C = A+(B+C) for documents of one calm world |
| Laws.MergeStaysInTheWorld | rdx.go:126-128 | a merge of documents of a world belongs to it |
| Laws.MergeAbsorbs | README.md:187-202 | merging in what was merged before changes nothing |
| Laws.FirstsCommuteIff | rdx.go:69-124 | two values merge alike both ways exactly when a tie between them means they are equal |
| Laws.SignedZerosDoNotCommute | rdx.go:69-81 | a concrete pair of documents for which order matters |
| Laws.InterleavingBreaksGrouping | rdx.go:151-171 | any identity between two revisions of a container gives three elements whose outcome depends on grouping |
| Laws.CalmIff | rdx.go:151-215 | a place is associative for all exact contenders, other than three revisions of one container, if and only if it is calm |
| Laws.DisciplineIsCalm | id.go:154-198 | the stamp discipline keeps every place calm |
| Discipline.DocumentsFormASemilattice | README.md:187-202 | documents whose stamps and lists keep one set of rules, place by place and arrays with insertion trains included, obey all three laws, and the merge keeps the rules |
| Discipline.DisciplinedIsLaid | rdx.go:126-215 | what a caller can check of a list is exactly what the calm world of the rules asks of it |
| Discipline.MergeKeepsDiscipline | rdx.go:126-215 | merging keeps the rules, wherever the list stands and whatever further elements are ruled out, as long as spot merges do not bring them in |
| Discipline.PlainDocumentsFormASemilattice | README.md:187-202 | unstamped documents with ordered sets obey all three laws |
| Discont.Convergence | DISCONT.md:59-78 | merging two head-closed versions of any layout gives the layout cut down to the union of their rows |
| Discont.FamilyConverges | DISCONT.md:159-186 | so does folding the two-way merge over any number of them, in any order |
| EngineOrder.VersionsConverge | DISCONT.md:159-186 | so does the k-way merge of up to seven of them at once, whatever they hold |
| OrderLimit.VersionsIff | itheap.go:403-450 | n head-closed versions merged at once always converge if and only if n is at most seven |
| Discont.ConvergenceIff | DISCONT.md:184-190 | a version of any array, repeated locators included, converges with all head-closed versions exactly when it is head-closed |
| Discont.HeadClosedIsPlaced | rdx.go:298-313 | head-closed versions fit the layout, so the slot-by-slot laws apply to them |
| Batch.FoldMergePermutes | rdx.go:126-144 | in a calm world, folding the two-way merge gives the same for every order of the inputs |
| Batch.FoldSpotPermutes | rdx.go:151-215 | likewise for the contenders at one spot |
| Batch.FoldSpotBelongs | rdx.go:151-215 | the winner at a spot is one that may stand there |
| Batch.FoldStep | itheap.go:403-421 | a fold splits into the spot-merge of the minimal heads and the fold of the advanced inputs |
| Contest.LoserAddsNothing | rdx.go:155-171 | an element the selection loop drops would not have changed the result |
| Contest.WinnerTakesAll | rdx.go:155-171 | an element that beats the best class replaces it in the result |
| Contest.EqualJoins | rdx.go:155-171 | an element judged equal belongs to the best class |
| Contest.MergedClass | rdx.go:172-215 | the best class merges to its largest id and the merge of its contents |
| Selection.SelectPermutes | rdx.go:154-171 | the selection loop only permutes the array it shares with the heap |
| Selection.WinnersMergeAll | rdx.go:154-171 | without a trap among the contenders, the winners are one class and merge to what all of them merge to |
| Selection.LoopIsFoldIff | rdx.go:154-171 | at a calm place the loop gives the fold for all lists of contenders, in all orders, if and only if no trap is among them |
| Selection.EmptyTupleMisleads | rdx.go:231-248 | of (), (1) and 5 without stamps the loop keeps 5, the two-way merges keep (1) |
| Heaps.UpPermutes | itheap.go:327-336 | sifting up only permutes |
| Heaps.DownPermutes | itheap.go:382-401 | sifting down only permutes, at or behind its start |
| Heaps.UpRepairs | itheap.go:327-336 | sifting up repairs a heap that is wrong at one node |
| Heaps.DownRepairs | itheap.go:382-401 | sifting down takes its start off the list of nodes that may be out of order |
| Heaps.UpAllMakesHeap | itheap.go:414-418 | sifting up every position from i on completes a heap whose first i positions are one |
| Heaps.EqUpPermutes | itheap.go:338-356 | gathering only permutes |
| Heaps.EqUpSplits | itheap.go:338-356 | in a heap, gathering puts in front exactly the elements that tie with the minimum |
| Heaps.MinOfHeap | itheap.go:327-336 | no element of a heap is below its top |
| Streams.RoundKeepsHeap | itheap.go:403-421 | a round over at most seven streams leaves a heap, in whatever order the selection loop leaves the gathered ones |
| Streams.NextHeapKeepsStreams | itheap.go:368-380 | a round advances the gathered streams by one record, drops the exhausted, keeps the others |
| Streams.RoundIsAFoldStep | itheap.go:403-421 | a round writes the spot-merge of the minimal heads, and the fold of the rest is left |
| RepairLimit.LaterHeapsBreak | itheap.go:414-418 | for every number of streams from eight on, in arrays, sets and multiplexed containers, a heap that a round leaves broken |
| RepairLimit.RepairIff | itheap.go:414-418 | a round keeps all heaps of n streams heaps if and only if n is at most seven or, as in tuples, all elements tie |
| RepairLimit.MergeIff | itheap.go:403-450 | merging n inputs that fit one world is always the folded two-way merge if and only if n is at most seven |
| RepairLimit.NormalIff | itheap.go:403-450 | merging n lists in normal form always gives a list in normal form if and only if n is at most seven |
| Engine.MergedIsFold | itheap.go:442-450 | up to seven inputs of one calm world without traps: rounds, selection and recursion together give the folded two-way merge, at every level |
| Engine.SpotIsFold | rdx.go:151-215 | so does what is written at one spot |
| EngineNormal.EngineKeepsNormal | itheap.go:442-450 | up to seven lists in normal form merge to one in normal form, whatever their stamps |
| EngineNormal.SpotOfKeepsKey | rdx.go:151-215 | the record written at a spot has the key of its contenders, in every container and for any number of them |
| EngineKeys.MergeKeepsKeys | itheap.go:442-450 | a key is in the merge exactly when it is in some input, for any number of inputs, sorted or not |
| EngineValues.MergeHolds | itheap.go:442-450 | whatever holds of all values of the inputs, at any depth, holds of all values of the merge, for any number of inputs |
| EngineOrder.MergeOrder | itheap.go:442-450 | up to seven inputs of any kind come out with the keys of the folded merge in the same order |
| KeyLists.FoldedKeysPermute | rdx.go:126-144 | the keys of the folded merge do not depend on the order of the inputs, sorted or not, of one world or not |
| OrderLimit.OrderIff | itheap.go:403-450 | n inputs always come out in that order if and only if n is at most seven or all elements tie |
| EngineSize.HeapShrinks | itheap.go:442-450 | the merge of any inputs is no longer than all of them together, even when only the result needs the long header |
| PairMerge.MergeOfTwo | itheap.go:442-450 | for all two lists of exact values, sorted or not, the engine is the two-way merge |
| IterHeap.IterHeap.SiftUp | itheap.go:327-336 | the loop computes the sift-up function in place |
| IterHeap.IterHeap.SiftDown | itheap.go:382-401 | the loop computes the sift-down function in place |
| IterHeap.IterHeap.GatherEqual | itheap.go:338-356 | the queue-driven loop permutes as specified and returns the number of minimal heads |
| IterHeap.IterHeap.Push | itheap.go:290-309 | a pushed stream is sifted up from the end |
| IterHeap.IterHeap.RemoveAt | itheap.go:358-366 | the last stream takes the place of the exhausted one and sifts down |
| IterHeap.IterHeap.Advance | itheap.go:368-380 | advances the first n streams, last first |
| IterHeap.IterHeap.MergeNext | itheap.go:403-421 | one round appends the record that the minimal heads merge to, or the lone head; the heap ends as the round makes it, and a heap of up to seven stays one |
| IterHeap.MergeValuesOf | rdx.go:69-124 | among values of one type the loop returns the first maximum in the order of that type: none is above it and all before it are below it |
| IterHeap.IterHeap.SelectWinners | rdx.go:151-171 | the loop that swaps, shrinks and steps back ends with the winners in front of the shared array, and their largest id |
| IterHeap.IterHeap.MergeSameSpot | rdx.go:151-215 | permutes the gathered heads as the loop does and appends one record: open, id, merged value or contents, close |
| IterHeap.WriteSpot | rdx.go:172-215 | header, largest id and merged payload close into the encoding of the merged element |
| IterHeap.Heapize | itheap.go:290-305 | a heap over exactly the nonempty inputs |
| IterHeap.HeapMerge | itheap.go:442-450 | appends the encoding of what the rounds give, for any inputs; of up to seven inputs that fit one world it is the folded two-way merge |
| TopMerge.MergeStreams | itheap.go:442-450 | from encoded lists to the encoding of their merge, no longer than all of them |
| TopMerge.MergeBuffers | rdx.go:126-128 | two buffers of exact values give the encoding of the two-way merge; up to seven that keep one discipline, with their empty tuples apart, the folded merge |
| TopMerge.DisciplinedMerge | rdx.go:126-128 | up to seven disciplined documents, empty tuples kept apart at each place: the folded merge, whatever their order |
| TopMerge.MergePermutes | rdx.go:126-128 | likewise for up to seven documents that fit one world |
| TopMerge.FilledMerge | rdx.go:126-128 | without empty tuples a calm world is enough |
| TopMerge.PairsCommute | README.md:187-198 | used on pairs, the engine is commutative and idempotent on all exact documents |
| TopMerge.PairsAssociate | README.md:200-202 | and associative on all documents that keep one discipline |
| TopMerge.ThreeAtOnce | README.md:200-202 | three documents at once merge as two by two, if their empty tuples are kept apart at each place |
| TopMerge.ThreeAtOnceMisled | rdx.go:151-171 | three documents for which they do not |
| SelfMerge.CopiesStayInStep | itheap.go:338-421 | a round over any number of copies gathers them all and leaves as many copies of the rest |
| SelfMerge.SelfMerge | README.md:187-192 | merging any number of copies of any list, sorted or not, gives the list, through the selection loop and every level of nesting |
| SelfMerge.CopiesMerge | README.md:187-192 | the fold of the two-way merge over copies is the list |
| Heap2.Heap2.SiftUp | heap.go:5-18 | the loop computes the sift-up function on the inputs |
| Heap2.Heap2.SiftDown | heap.go:20-38 | the loop computes the sift-down function on the inputs |
| Heap2.Heap2.AddIter | itheap.go:476-479 | keeps the heap, with one stream more |
| Heap2.Heap2.FindMinimal | itheap.go:484-498 | the breadth-first list is exactly the set of minimal positions, in increasing order |
| Heap2.Heap2.Holders | itheap.go:499-507 | both branches hand over the streams at the listed positions |
| Heap2.Heap2.AdvanceAll | itheap.go:510-512 | exactly the listed streams advance |
| Heap2.Heap2.Settle | itheap.go:513-520 | replacing and sifting from the last position down restores the heap over the same streams |
| Heap2.Heap2.Read | itheap.go:480-522 | for any number of inputs: the minimal heads are merged, they and only they advance, the heap is restored |
| Heap2.ReadsAscend | itheap.go:480-522 | on ascending streams, all heads left after a read are above the key just read |
| Heap2Run.ReadToEnd | itheap.go:480-522 | a whole run on ascending streams emits each key once, in order, and hands over every stream at every record |
| Heap2Run.MakeHeap2 | itheap.go:537-544 | a heap over exactly the given inputs |
| Zip.ZipUint64Pair | zipint.go:31-90 | the branches and buffer writes compute the pair coding |
| Zip.UnzipInvertsZip | zipint.go:31-137 | decoding inverts coding for all pairs of 64-bit numbers |
| Zip.ZipIsShortest | zipint.go:92-137 | re-coding whatever a buffer decodes to never takes more bytes |
| Zip.UnzipInvertsZipID | id.go:17-24 | ids read back from their bytes |
| Zip.ZipUint64 | zipint.go:177-186 | the loop writes the shortest little-endian string |
| Zip.UnzipUint64 | zipint.go:188-194 | the loop reads the number modulo 2^64 |
| Zip.ZipU64IsABijection | zipint.go:177-194 | numbers and strings of at most eight bytes without a trailing zero correspond one to one; no string is lengthened |
| Zip.ZipIntegerIsABijection | zipint.go:210-234 | signed integers and such strings correspond one to one |
| Zip.ZipFloatIsABijection | zipint.go:217-242 | 64-bit float patterns and such strings correspond one to one |
| Bits.ReversedBit | zipint.go:217-226 | bit i of the coded float pattern is bit 63 - i of the pattern |
| Bits.ShortFloatIff | zipint.go:217-221 | a float takes at most n bytes exactly when the low 64 - 8n bits of its pattern are zero |
| Bits.ZipIsLittleEndian | zipint.go:177-186 | byte i of a coded number is its digit i to the base 256 |
| Bits.PutIsLittleEndian | zipint.go:31-90 | so are the fields of a pair and the length of a record |
| Bits.PairsOutright | zipint.go:31-90 | the forms of one to four bytes of a pair, byte by byte; of an id the time comes first |
| Bits.ZigZagAlternates | zipint.go:196-204 | integers become 2i, or -2i - 1 if they are negative |
| Tlv.ReadUndoesWrite | tlv.go:19-100 | reading a written record, whatever follows it, gives type, id, payload and the rest |
| Tlv.ParseUndoesWrite | itheap.go:124-166 | the iterator finds the same parts in a written record, in both header forms |
| Tlv.WalkUndoesEncode | tlv.go:57-68 | reading record by record returns exactly the list that was written, and ends |
| Tlv.CutUndoesWrite | itheap.go:124-197 | type, id, payload and rest as the iterator hands them out |
| Tlv.CutIff | itheap.go:124-197 | the iterator hands out type, id, payload and rest for exactly these bytes: any letter without the case bit, lengths below 2^30, header and id below 256 bytes |
| Tlv.RecordsOutright | tlv.go:83-100 | the two forms of a record, byte by byte |
| Tlv.ReadTLVUndoesTLV | tlv.go:19-100 | any body below 2^31 bytes, empty ones included, reads back whatever follows it |
| Tlv.ReadTLVIff | tlv.go:19-55 | reading a record without its id succeeds on exactly these bytes: letter, length, body, in the short or the long form |
| Tlv.ReadTLKVIff | tlv.go:57-68 | and with its id when the body is empty, or the length of the id, the id and the payload; it is bad exactly when that length passes the body |
| Tlv.BadRecordIff | tlv.go:19-55 | without the id a record is bad exactly when it does not start with a letter, or has a long length of 32 bits |
| Tlv.LongRecordsAreBad | itheap.go:146-157 | the iterator takes lengths below 2^30 only |
| Tlv.Iter.Read | itheap.go:124-166 | the exact new state in every case: end, next record, incomplete, bad; the record lies inside the data, with a value length of -1 or more, and reading may go on but for one case |
| Tlv.ValueInRangeIff | itheap.go:214-217 | the value slice stays inside the data unless the id takes up the whole record |
| Tlv.ValueIsPayloadIff | itheap.go:214-217 | and it is the end of the record exactly when header and id lengths add up to less than 256 |
| Tlv.IdInRangeIff | itheap.go:210-212 | the id slice runs forwards and inside the data exactly when header and id lengths add up to less than 256 and the id does not end behind the data |
| Tlv.RestInRangeIff | itheap.go:124-128 | the next record is looked for inside the data unless the id takes up its record and its end wraps to zero |
| Tlv.LongIdHidesTheValue | itheap.go:210-217 | a record whose type letter is handed out as its value, and whose id slice runs backwards |
| Tlv.ReadNext | itheap.go:124-166 | before the encoding of a list, a read lands on its first record with the rest behind, or ends at its end |
| Tlv.TruncationIsNoticedIff | tlv.go:19-55 | a record cut short is reported as incomplete if and only if it is not a long one that lacks at most ten bytes |
| Tlv.IteratorNoticesTruncation | itheap.go:136-157 | the iterator reports every record cut short as incomplete |
| Marks.TlvBuffer.OpenTLV | tlv.go:141-148 | appends a long header and pushes its mark |
| Marks.TlvBuffer.OpenShortTLV | tlv.go:150-158 | appends a short header and pushes its mark |
| Marks.TlvBuffer.CancelTLV | tlv.go:164-176 | cuts the buffer back to the mark, or refuses and changes nothing |
| Marks.TlvBuffer.CloseTLV | tlv.go:178-217 | pops the mark; the moved bytes are those of the closing function, or the buffer is as it was |
| Marks.TlvBuffer.AppendPLEX | rdx.go:626-639 | appends exactly the record, whatever its length, and leaves the marks |
| Marks.CloseMakesRecord | tlv.go:178-217 | header and body close into the recursive encoding, opened long or short, shrunk or grown |
| Marks.MarksRender | tlv.go:141-217 | any properly nested calls append the recursive encoding; outer bytes and marks stay |
| Marks.BuilderRenders | builder.go:135-174 | the same calls on the builder append the same bytes |
| Marks.OutoUndoesInto | builder.go:135-168 | the id parked by opening is read back by closing, and the record is complete |
| Marks.SerializersAgree | builder.go:84-168 | both serializers write the same bytes for every properly nested program |
| Builder.Builder.Into | builder.go:160-168 | opening in place is the opening step of the builder machine |
| Builder.Builder.Into0 | builder.go:115-121 | opening without an id is opening with the zero id |
| Builder.Builder.Outo | builder.go:135-158 | closing in place is the closing step of the builder machine |
| Builder.Builder.FIRST | builder.go:84-97 | appends the record of a value, in both header forms |
| Builder.MakePLEXOf | rdx.go:551-569 | whichever form the size guess opens, the result is the record over the joined parts |
| Wire.DecodeUndoesEncode | rdx.go:53-65 | every document below 2^30 bytes reads back from its encoding |
| Wire.PrimReadsBack | zipint.go:196-242 | every value reads back from its payload |
| Wire.MergeShrinks | rdx.go:151-215 | a merge is never longer than both inputs together, even when only the result needs the long header |
| Wire.BatchShrinks | itheap.go:442-450 | nor is a merge of any number of inputs longer than all of them |
| Normal.NormKidsIsNormal | rdx.go:666-789 | with the two-way merge folded over the runs, every output is normal at every level: sets ascend strictly and hold no empty tuple, multiplexed containers ascend by source |
| Normal.NormalIsInPlace | rdx.go:666-789 | being normal is that, spelled out in the comparators and sources |
| Normal.NormIsIdempotent | rdx.go:666-670 | normalizing twice is normalizing once, and exactly the normal documents are left unchanged |
| Normal.NormIsKeywise | rdx.go:672-701 | at every key the output holds the spot-merge, in input order, of all input elements with that key |
| Normal.MergeIsNormal | rdx.go:126-215 | the merge of normal lists is normal |
| Normal.MergeOfNormalIsNormal | rdx.go:126-128 | normalizing leaves a merge of normal documents unchanged |
| Normal.NormKeepsKey | rdx.go:703-789 | the normal form of an element has its key, so cutting the raw input cuts the output |
| Normalizer.Normalize | rdx.go:666-670 | accepts exactly the buffers whose values are well formed, strings UTF-8 and terms of id letters, writes no more than it read, and what it wrote it takes again; exactly the normal buffers stay as they are, and with up to seven runs in every container the output is one; input that fits gives the folded form |
| Normalizer.NormalizeInto | rdx.go:672-701 | appends the normal form behind what the buffer holds; marks stay |
| Normalizer.NormalizeNext | rdx.go:682-690 | one turn of the loop keeps the chunks equal to the ascending runs of the part read |
| Normalizer.MergeRuns | rdx.go:694-699 | a single run stays in place, several are replaced by their merge |
| Normalizer.AppendNorm | rdx.go:703-789 | appends the normal form of one record, or nothing for an empty tuple in a set; false for a malformed value |
| Normalizer.AppendFirst | rdx.go:703-744 | a value is written in its shortest form, or refused if it is too long, not a number, not UTF-8 or not of id letters |
| Normalizer.AllLetters | rdx.go:738-743 | the loop decides whether all characters of a term are letters of the id alphabet |
| Normalizer.OpenPlex | rdx.go:745-749 | opens the record and writes the shortest id; remembers what it stands in |
| Normalizer.ClosePlex | rdx.go:755-759 | cancels the record of an empty tuple inside a set, closes any other |
| Normalizer.NormalizeTwice | rdx.go:663-670 | normalizing the output of the normalizer gives it back, bit for bit, exactly when it was normal, and so whenever no container fell into more than seven runs |
| Normalizer.MergeNormalized | rdx.go:126-128 | the merge of up to seven normalized buffers is left as it is by the normalizer, bit for bit |
| EngineNormal.NormalizedIsNormal | rdx.go:663-701 | as functions: up to seven runs in every container, the output is in place at every level, and exactly the normal documents stay as they are |
| FixedPoints.FixedIff | rdx.go:663-701 | a container's contents stay as they are exactly when they are normal, with no bound on the runs |
| FixedPoints.SecondPassIff | rdx.go:663-670 | a second pass changes nothing exactly when the first gave a normal document |
| NormalLimit.PassFindsRuns | rdx.go:681-695 | any normal lists, each starting no higher than the one before ended, are the runs of what they make one behind the other |
| NormalLimit.LaterRunsBreak | rdx.go:696-700 | for every n from eight on, a set and a multiplexed container with n runs that come out of order |
| NormalLimit.ContainerIff | rdx.go:672-701 | with at most n runs, contents of a sorted container always come out normal if and only if n is at most seven |
| NormalLimit.NormalizedIff | rdx.go:666-701 | likewise for whole documents |
| NormalLimit.NormalizedTwiceIff | rdx.go:666-701 | and a second pass always changes nothing if and only if n is at most seven |
| EngineValues.NormKidsHold | rdx.go:672-701 | whatever holds of all values of the input holds of all values of the output |
| Texts.Utf8Iff | rdx.go:733-737 | strings are taken exactly when they encode a sequence of Unicode scalar values |
| RawInput.RawIsSortable | rdx.go:672-701 | stamps and arrays that keep one set of rules, exact values, at most seven runs in a container, empty tuples apart at each place or directly in sets: the runs of every container fit one world |
| RawInput.NormalizedIsKeywise | rdx.go:672-701 | so at every key the output holds the spot-merge, in input order, of all input elements with that key |
| JdrState.JDRState.OnFIRST | jdr.go:115-188 | a value becomes a child of the tree the buffer shows, after a finished inline tuple is closed; refused if its stamp or reference cannot be read |
| JdrState.JDRState.OnOpenPLEX | jdr.go:246-256 | an opening bracket puts a frame on the tree; refused if its stamp cannot be read |
| JdrState.JDRState.OnClosePLEX | jdr.go:262-280 | a closing bracket turns the top frame into a child, with the empty tuple after a dangling comma; refused if the bracket does not match |
| JdrState.JDRState.OnComma | jdr.go:306-317 | a comma ends an inline tuple of the tree and fills an empty place |
| JdrState.JDRState.OnColon | jdr.go:318-330 | a colon moves the children behind the last boundary into a new frame, by a splice behind the writer |
| JdrState.JDRState.OnSemicolon | jdr.go:232-244 | a semicolon makes one tuple of all children since the last break |
| JdrState.JDRState.OnStamp | jdr.go:137-156 | writes the id with its length, the zero id if there is no stamp; refused exactly if the strict reader of ids refuses the text |
| JdrTree.TupleCloses | jdr.go:219-230 | closing the late tuple turns its frame into a child and moves the break behind it |
| JdrTree.UnitAppended | jdr.go:212-217 | the three bytes appended for an empty place are one more child, an empty tuple |
| JdrState.JDRState.OnRoot | jdr.go:338-343 | the end of the text ends an inline tuple of the tree |
| JdrState.ParseJDR | jdr.go:761-773 | accepts exactly the texts whose brackets match and whose ids can be read; writes the encoding of the document that the parser on trees makes; of a printed document, that document |
| JdrState.PrintAndParse | README.md:182-185 | printing a buffer and parsing the tokens gives the buffer, bit for bit, exactly if all its ids fit sixty bits |
| JdrState.ParseIsTree | jdr.go:761-773 | the parse as a function on bytes is the encoding of the parse on trees |
| JdrTree.StepAgrees | jdr.go:115-343 | every callback does to the spliced buffer what the tree parser does to its tree, and fails with it |
| JdrTree.RunsAgree | jdr.go:115-343 | so does every run of tokens |
| JdrTree.TupleOpens | jdr.go:193-210 | splicing a header in is moving children into a new frame |
| JdrTree.TopCloses | tlv.go:178-217 | closing the top record turns header and children into one element, grown past 255 bytes or not |
| JdrTree.LooksBack | jdr.go:319-324 | the later of the two remembered positions is where a child starts |
| JdrSafety.EveryRunIsSafe | jdr.go:193-343 | on every token run mark starts ascend, the whole buffer is a nest of open records with header, id and whole children, and both splice positions are where a child starts or the children end |
| JdrSafety.ParsedBytesAreADocument | jdr.go:761-773 | whatever the tokens, an accepted parse is the exact encoding of some document |
| JdrSafety.ParseAcceptsIff | jdr.go:137-280 | a token sequence is accepted if and only if its brackets match and all its stamps and references can be read |
| JdrSafety.PrintedParsesBackIff | README.md:182-185 | parsing the printed tokens gives the encoding of the document, bit for bit, exactly when every stamp and reference fits sixty bits, and is refused otherwise |
| JdrSafety.SemicolonMakesATuple | jdr.go:232-244 | a semicolon after the parts writes the tuple that colons between them write |
| JdrSafety.CommasFillWithEmptyTuples | jdr.go:306-317 | commas with nothing between them stand for empty tuples, one more than there are commas |
| JdrSafety.ColonsFillWithEmptyTuples | jdr.go:318-330 | colons alone make a tuple of as many empty tuples |
| Notation.TextsParse | jdr.go:115-343 | every text of the notation parses to what it stands for: values, lists with commas, tuples with colons of any parts, places left empty, nested in any way |
| JdrPrint.ValuesPrint | jdr.go:676-700 | a value prints as its token, with its stamp exactly if it has one |
| JdrPrint.PairsPrint | jdr.go:433-494 | an unstamped pair of values prints as its parts with a colon between, without brackets |
| JdrPrint.InlineTuplesPrint | jdr.go:433-494 | so is an unstamped tuple of more parts, each a value or an empty tuple |
| JdrPrint.OtherTuplesTakeBrackets | jdr.go:433-494 | tuples of fewer than two parts, stamped ones, ones inside inline tuples and ones that hold containers take brackets |
| JdrPrint.ContainersPrint | jdr.go:468-483 | any other container prints between its brackets, with commas |
| JdrWriter.IsTupleAllFIRST | jdr.go:433-449 | the loop decides whether a tuple has two or more parts, all values or empty tuples |
| JdrWriter.WriteJDR | jdr.go:676-747 | prints the first record of a buffer and returns what follows |
| JdrWriter.AppendJoined | jdr.go:468-494 | prints all records with a separator between any two, in brackets or inline |
| JdrWriter.WriteAllJDR | jdr.go:749-758 | prints a whole buffer |
| Escapes.AppendEscaped | jdr.go:385-410 | the loop appends the escaped text |
| Escapes.AppendUnescaped | jdr.go:345-383 | the loop appends the unescaped text, a trailing backslash included |
| Escapes.UnescapeUndoesEscape | jdr.go:345-410 | unescaping undoes escaping, and the lexer's string rule takes the escaped text whole |
| Escapes.EscapesRead | jdr.go:345-383 | which byte each letter behind a backslash reads as; all other bytes read as themselves |
| Escapes.EscapesWrite | jdr.go:385-410 | which seven bytes are written with a backslash, and how |
| Escapes.NothingRaw | jdr.go:385-410 | no tab, line end, backspace or form feed is written raw |
| Escapes.QuotableIff | JDR.go.rl:296-305 | the two-byte escapes of the grammar and the bytes that may stand for themselves in a string |
| Ron.Ron60IsAligned | ron.go:14-22 | a locator is the number of its base-64 digits pushed to the left |
| Ron.LocatorOrder | ron.go:52-56 | locators order as left-aligned digit strings with the head digit turned by one, so those headed by `~` come first; they tie only when the strings are equal |
| Ron.ZeroIsLast | ron.go:12-22 | zero orders strictly last, for every stem, and for all numbers but one |
| Ron.Uint64OfRon60 | ron.go:35-42 | a locator reads back as its number without trailing zero digits |
| TextIds.RON64String | id.go:41-53 | the loop writes the digits of the number |
| TextIds.ParseRON64 | id.go:26-39 | the loop reads up to eleven digits, modulo 2^64 |
| TextIds.ParseIDUndoesRonString | id.go:76-147 | an id reads back from its text, whatever comes behind |
| TextIds.NewIDUndoesFormalString | id.go:55-135 | the strict reader takes a formal id if both parts fit sixty bits, guard zeros included, and refuses it otherwise |
| TextIds.NewIDIff | id.go:122-136 | the strict reader takes exactly a number of up to eleven letters, or such a number, a dash and one of up to ten, both below 2^60 |
| TextIds.StampReadsBackIff | id.go:76-135 | so for the stamps that the printer writes |
| TextIds.LettersAreTheAlphabet | id.go:262 | codes are positions in the alphabet of 64 letters |
| TextIds.TextIsDigits | id.go:41-53 | the text of a number is its digits to the base 64, the highest first |
| TextIds.IdsPrint | id.go:76-87 | an id prints as source, dash and time, or as time alone |
| TextIds.FormalPrints | id.go:55-70 | a formal id always has a source; one that ends in the letter e has a zero in front, and two if it is that letter alone |
| Lexemes.ReferenceLexesIff | JDR.go.rl:299-305 | the text printed for a reference is in the token class of references exactly if it has a source, and source and time do not read as a float |
| Lexemes.PairIsRefIff | JDR.go.rl:299-305 | two runs of letters with a dash between are a reference unless they read as a float |
| Lexemes.SourcelessReferenceIsLost | jdr.go:676-697 | source 0 and time 10 print as a term |
| Lexemes.FloatLikeReferenceIsLost | jdr.go:676-697 | source 105 and time 5 print as a float |
| Lexemes.FormalStringIsRef | id.go:55-70 | the formal string of every id is in the token class of references |
| Lexemes.NumbersRead | JDR.go.rl:300-303 | digits without a needless zero, then a dot and digits or nothing, then an exponent or nothing, are a number |
| Lexemes.NumberParts | JDR.go.rl:300-303 | and every number is made so |
| Merkle.Append | merkle7574.go:68-80 | the carry loop turns the line over some leaves into the line over one leaf more |
| MerkleRun.AppendAll | merkle7574.go:68-80 | appending any leaves, fewer than the capacity, to a line of zeroes gives the line over them |
| MerkleRun.EmptyLineHoldsNothing | merkle7574.go:68-80 | the line of zeroes is the line over no leaves |
| Merkle.SlotIsAPeak | merkle7574.go:68-80 | a slot is taken exactly when its bit of the number of leaves is set; it is then the root of a perfect tree over that many leaves |
| MerkleRun.LineCoversLeaves | merkle7574.go:68-80 | read from the highest slot down, the nonzero hashes of the line are the roots of perfect trees over all leaves, in the order they were appended |
| Merkle.RoomIff | merkle7574.go:66-80 | there is an empty slot unless the number of leaves is one less than the capacity |

## Left out

- Engine.MergedIsFold: for at most seven inputs of one calm world without traps. That no larger number will do is `RepairLimit.MergeIff`; that a place must be calm and free of traps, `Laws.CalmIff` and `Selection.LoopIsFoldIff`. The methods have no such condition.
- IterHeap.IterHeap.MergeNext: streams are sequences of elements rather than byte slices; bytes and elements are tied together by `Tlv`, `Wire` and `TopMerge.MergeStreams`, for inputs in canonical encoding. A lone head is copied raw in the source, so an overlong input encoding stays overlong there.
- Normalizer.Normalize: asks that records be whole and of known types, with the value inside the record. A record of an unknown type is dropped by the source without an error. Beyond seven runs in a container the output need not be normal (`NormalLimit.NormalizedIff`).
- Heap2.Heap2.Read: the caller's merge function is a function of the iterators' records and the output; one that moves the iterators it is given is not part of this model.
- Tlv.Iter.Read: promises no usable id and value range for a record whose header and id take 256 bytes or more, or whose id takes up the whole record; what the code hands out then is in `Tlv.IdInRangeIff`, `Tlv.ValueIsPayloadIff` and `Tlv.ValueInRangeIff`. From a record whose id takes up all of it and ends at byte 256 the code cannot read on (`Tlv.RestInRangeIff`).
- Merkle.Append: asks for an empty slot; with all slots taken the code indexes out of range. The array may have any length; the source has 64 slots. The hash of two hashes is a parameter, assumed never to be all zeroes.
- JdrSafety.PrintedParsesBackIff: from tokens, with their ids as text, to bytes. The Ragel machine, `strconv` and the printed form of numbers are not part of this model; the token classes of printed references are (`Lexemes`).
- Escapes.QuotableIff: the grammar also takes a backslash, `u` and four hex digits, which the callbacks read as the letter and the digits; and it asks that the bytes be UTF-8 (`Texts.Utf8Iff`). Neither is part of this rule.
- JdrWriter.WriteJDR: the plain style only; its nesting count stays inside the low byte of the style word. Values other than references are tokens, not text.
- Laws.MergeIsAssociative: for calm worlds; that each place be calm is also necessary, by `Laws.CalmIff`.
- NaN: floats are bit patterns other than NaN, which the normalizer refuses; NaN on the wire is not merged.
- UTF-8 validity of strings and the alphabet of terms are checked by the normalizer only, as in the source; the merge takes any bytes.
- Slices share memory in the source; buffers here are sequences held in one object, so aliasing between the normalizer's chunks and its buffer is not modelled. That the selection loop permutes the heap it is given a slice of, is.
- `MakePLEXOf` sorts its parts with the standard library first; the model starts behind the sort.
- `Ron60.Fit`: its result can exceed the right bound, so it is not the "between" it reads as.
- `IntersectNext`, `Flatten`, `RenderJDR` and its styles, `Timestamp`, `WriteAll`, `ObjectReader`, `Delve`, `Pick`: wrappers, formatting, I/O or single lookups.
