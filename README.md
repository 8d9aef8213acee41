# sequence (d2aborg), modelled in Dafny

A model of the core of the `org.d2ab` sequence library:

- the transforming iterators that sequences are built from: filtering, limiting, exclusive-terminal, stepping, recursive, interleaving, chaining;
- EntrySequence's pipeline operations (skip, limit, step, window, batch, repeat) and its terminal operations (toMap, toMergedMap, toGroupedMap, join, reduce, at, first);
- the entry types `Pair`, `Entries.EntryImpl` and `Maps.EntryImpl`, with their equality, hashing and ordering;
- Maps.Builder, `Lists.shuffle` and `Lists.create`;
- IntList's default algorithms and its `SubList` view;
- BitLongSet, `BitSets.add` and the `CharBiPredicate` combinators.

The modelling choices:

- Java `null` is `Option.None`. An exception is the `Err` arm of a `Result`, named after the exception class.
- An upstream iterator is a `Cursors.Cursor`: a finite sequence and the position of the next element.
- Each transforming iterator is a class with the source's fields. Its ghost `produced` records what it has returned. Its methods are proved against a specification function of the upstream elements: `Filter`, `Take`, `TakeUntil`, `Stride`, `Recurse`, `Interleave`, `Concat`.
- An iterable in a `ChainingIntIterable` is an `IterableRef`: its identity and the ints it yields. Its own `equals` and `hashCode` are parameters (`SameObject` for a lambda).
- An `EntrySequence` is a datatype of pipeline terms, and `Elements` gives what one traversal yields. Terminal operations that loop in the source are methods proved against functions of `Elements`.
- A `java.util.Map` is a `JavaMaps.MapObject` whose `contents` is a Dafny map. A `java.util.BitSet` or a `SparseBitSet` is the set of its set indices.
- Java `int` arithmetic in hash codes is written out as a wrap to 32 bits (`Hashing.Wrap32`).
- The objects an `equals` can receive are `EntryObjects.JavaObject`: an entry of one of the three entry classes, or anything else.

Inputs are parameters:

- random draws are a sequence;
- element hashes, natural orders, mappers, mergers and `toString` are function parameters.

## Model

| member | source | states |
|---|---|---|
| FilteringIterators.FilterMembers | src/main/java/org/d2ab/iterator/FilteringIterator.java:39-46 | the filter output holds only matching upstream elements, and every matching upstream element |
| FilteringIterators.FilterAppend | src/main/java/org/d2ab/iterator/FilteringIterator.java:39-46 | filtering distributes over concatenation of the upstream |
| FilteringIterators.FilteringIterator.constructor | src/main/java/org/d2ab/iterator/FilteringIterator.java:28-31 | only stores upstream and predicate: nothing pulled, nothing buffered |
| FilteringIterators.FilteringIterator.Remaining | src/main/java/org/d2ab/iterator/FilteringIterator.java:34-47 | in every reachable state, what is still to come is the buffered element followed by the matches among the unread upstream elements |
| FilteringIterators.FilteringIterator.HasNext | src/main/java/org/d2ab/iterator/FilteringIterator.java:34-47 | true iff matching elements remain; the buffered element matches; with an element buffered (or upstream done) nothing changes; otherwise non-matching elements are consumed up to the first match; false only with upstream exhausted |
| FilteringIterators.FilteringIterator.Next | src/main/java/org/d2ab/iterator/FilteringIterator.java:50-58 | returns the next element of the filter output and clears the buffer; NoSuchElementException when none remains; the output so far is a prefix of the filter of the upstream |
| LimitingIterators.Take | src/main/java/org/d2ab/iterator/LimitingIterator.java:30-41 | the limited output is a prefix of the upstream of length min(limit, n), empty for limit <= 0 |
| LimitingIterators.LimitingIterator.constructor | src/main/java/org/d2ab/iterator/LimitingIterator.java:25-27 | count starts at 0 and nothing is pulled |
| LimitingIterators.LimitingIterator.ProducedIsPrefix | src/main/java/org/d2ab/iterator/LimitingIterator.java:30-41 | the elements returned so far open the first min(limit, n) upstream elements, and there are at most that many |
| LimitingIterators.LimitingIterator.HasNext | src/main/java/org/d2ab/iterator/LimitingIterator.java:39-41 | true iff the limited output has more; false once count reaches limit, without consulting upstream |
| LimitingIterators.LimitingIterator.Next | src/main/java/org/d2ab/iterator/LimitingIterator.java:30-36 | advances upstream by exactly one and returns that element, counting it; NoSuchElementException past the limit or the end, with nothing changed |
| ExclusiveTerminalIterators.TakeUntil | src/main/java/org/d2ab/iterator/ExclusiveTerminalIterator.java:39-58 | the output is a terminal-free prefix of the upstream, stopped only at a terminal element |
| ExclusiveTerminalIterators.TakeUntilIsLongest | src/main/java/org/d2ab/iterator/ExclusiveTerminalIterator.java:39-46 | every terminal-free prefix is a prefix of the output: the output is the longest one |
| ExclusiveTerminalIterators.TakeUntilAfter | src/main/java/org/d2ab/iterator/ExclusiveTerminalIterator.java:40-46 | after a terminal-free prefix the output continues exactly when the next upstream element exists and is not terminal |
| ExclusiveTerminalIterators.ExclusiveTerminalIterator.constructor | src/main/java/org/d2ab/iterator/ExclusiveTerminalIterator.java:35-37 | stores the predicate; nothing pulled or buffered |
| ExclusiveTerminalIterators.ExclusiveTerminalIterator.ProducedIsPrefix | src/main/java/org/d2ab/iterator/ExclusiveTerminalIterator.java:40-58 | the elements returned so far open the output |
| ExclusiveTerminalIterators.ExclusiveTerminalIterator.HasNext | src/main/java/org/d2ab/iterator/ExclusiveTerminalIterator.java:40-46 | true iff the output has more, with that element buffered; with something buffered nothing changes; pulls at most one upstream element; a buffered terminal makes it false |
| ExclusiveTerminalIterators.ExclusiveTerminalIterator.TakeBuffered | src/main/java/org/d2ab/iterator/ExclusiveTerminalIterator.java:54-57 | the buffered non-terminal element is returned and recorded as produced, and the buffer is emptied to null |
| ExclusiveTerminalIterators.ExclusiveTerminalIterator.Next | src/main/java/org/d2ab/iterator/ExclusiveTerminalIterator.java:50-58 | returns the buffered element of the output and clears the buffer; NoSuchElementException when the output is done |
| ExclusiveTerminalIterators.NewUntilValue | src/main/java/org/d2ab/iterator/ExclusiveTerminalIterator.java:31-33 | the value constructor's terminal predicate is null-safe equality with the value |
| ExclusiveTerminalIterators.UntilNullStopsAtFirstNull | src/main/java/org/d2ab/iterator/ExclusiveTerminalIterator.java:31-33 | until(null) yields exactly the elements before the first null |
| SteppingIntIterators.StrideAt | src/main/java/org/d2ab/iterator/ints/SteppingIntIterator.java:42-55 | the stepped output holds exactly the upstream elements at indices 0, k, 2k, ... |
| SteppingIntIterators.StrideFrom | src/main/java/org/d2ab/iterator/ints/SteppingIntIterator.java:49-51 | taking one element and skipping k - 1 (past the end allowed) continues the stride |
| SteppingIntIterators.Stride1 | src/main/java/org/d2ab/iterator/ints/SteppingIntIterator.java:51 | the effective stride is step for step >= 1, and 1 when the skip count step - 1 is not positive |
| SteppingIntIterators.SteppingIntIterator.constructor | src/main/java/org/d2ab/iterator/ints/SteppingIntIterator.java:27-30 | stores upstream and step; nothing pulled |
| SteppingIntIterators.SteppingIntIterator.Remaining | src/main/java/org/d2ab/iterator/ints/SteppingIntIterator.java:42-55 | the buffered element is the next element of the stride |
| SteppingIntIterators.SteppingIntIterator.HasNext | src/main/java/org/d2ab/iterator/ints/SteppingIntIterator.java:42-55 | true iff the stride has more; idempotent once buffered; false exactly when nothing is buffered and upstream is done; a fresh pull advances upstream by step (clamped at the end) |
| SteppingIntIterators.SteppingIntIterator.TakeBuffered | src/main/java/org/d2ab/iterator/ints/SteppingIntIterator.java:37-38 | the buffer flag is cleared and the buffered element, the next one of the stride, is returned and recorded as produced |
| SteppingIntIterators.SteppingIntIterator.NextInt | src/main/java/org/d2ab/iterator/ints/SteppingIntIterator.java:33-39 | returns the next element of the stride and clears the flag; NoSuchElementException when exhausted |
| RecursiveIntIterators.Recurse | src/main/java/org/d2ab/primitive/ints/RecursiveIntIterator.java:38-42 | the first value is the seed, and each later value is op of the one before |
| RecursiveIntIterators.RecurseAt | src/main/java/org/d2ab/primitive/ints/RecursiveIntIterator.java:38-42 | the k-th value is op applied k times to the seed |
| RecursiveIntIterators.CountingUp | src/main/java/org/d2ab/primitive/ints/RecursiveIntIterator.java:38-42 | recursion from 1 by i -> i + 1 yields 1, 2, 3, ... |
| RecursiveIntIterators.RecursiveIntIterator.constructor | src/main/java/org/d2ab/primitive/ints/RecursiveIntIterator.java:27-30 | stores seed and op, with no previous value and op not called |
| RecursiveIntIterators.RecursiveIntIterator.HasNext | src/main/java/org/d2ab/primitive/ints/RecursiveIntIterator.java:33-35 | always true |
| RecursiveIntIterators.RecursiveIntIterator.NextInt | src/main/java/org/d2ab/primitive/ints/RecursiveIntIterator.java:38-42 | the k-th call returns op applied k times to the seed, the first the seed itself; afterwards previous is the value returned |
| InterleavingCharIterators.Advance | src/main/java/org/d2ab/primitive/chars/InterleavingCharIterator.java:57-59 | the next index in round-robin order stays within the sources |
| InterleavingCharIterators.SeekFindsSome | src/main/java/org/d2ab/primitive/chars/InterleavingCharIterator.java:38-42 | when some source is non-empty, the skip loop stops at a non-empty source |
| InterleavingCharIterators.InterleaveUnfold | src/main/java/org/d2ab/primitive/chars/InterleavingCharIterator.java:41-46 | the output is the char of the source the skip loop finds, then the output of what is left from the next source on |
| InterleavingCharIterators.NextKeepsOutput | src/main/java/org/d2ab/primitive/chars/InterleavingCharIterator.java:37-47 | taking the next char keeps the chars returned so far plus what is still to come equal to the whole output |
| InterleavingCharIterators.InterleaveKeepsEachSource | src/main/java/org/d2ab/primitive/chars/InterleavingCharIterator.java:41-46 | each source's chars appear in the output exactly once each, in that source's order |
| InterleavingCharIterators.InterleaveCoversSources | src/main/java/org/d2ab/primitive/chars/InterleavingCharIterator.java:37-47 | the output has one entry per char left in the sources, each tagged with an existing source's index |
| InterleavingCharIterators.AllEmptyTotal | src/main/java/org/d2ab/primitive/chars/InterleavingCharIterator.java:50-55 | with every source exhausted no chars are left |
| InterleavingCharIterators.InterleavingCharIterator.constructor | src/main/java/org/d2ab/primitive/chars/InterleavingCharIterator.java:29-34 | one source iterator per iterable in argument order, current at 0 |
| InterleavingCharIterators.InterleavingCharIterator.HasNext | src/main/java/org/d2ab/primitive/chars/InterleavingCharIterator.java:50-55 | true iff some source has a char left, that is iff the output has more |
| InterleavingCharIterators.InterleavingCharIterator.NextChar | src/main/java/org/d2ab/primitive/chars/InterleavingCharIterator.java:37-47 | returns the next char of the round-robin output; NoSuchElementException with every source exhausted, changing nothing |
| InterleavingCharIterators.InterleavingCharIterator.TakeNext | src/main/java/org/d2ab/primitive/chars/InterleavingCharIterator.java:40-46 | once some source has a char left: returns the first char of the output still to come and records it as returned, keeping the output invariant |
| InterleavingCharIterators.StepKeepsOutput | src/main/java/org/d2ab/primitive/chars/InterleavingCharIterator.java:40-46 | the char taken from the source the skip loop finds is the first of the output still to come, and stepping that source keeps returned chars plus remaining output equal to the whole output |
| InterleavingCharIterators.RestsAfterStep | src/main/java/org/d2ab/primitive/chars/InterleavingCharIterator.java:46 | stepping one source iterator removes exactly its first remaining char and leaves the other sources as they were |
| InterleavingCharIterators.StartCursors | src/main/java/org/d2ab/primitive/chars/InterleavingCharIterator.java:29-34 | one iterator per iterable, in argument order, each at its start |
| InterleavingCharIterators.InterleavingCharIterator.SkipExhausted | src/main/java/org/d2ab/primitive/chars/InterleavingCharIterator.java:41-42 | the skip loop ends at the source Seek names, touching no source |
| InterleavingCharIterators.InterleavingCharIterator.AdvanceCurrent | src/main/java/org/d2ab/primitive/chars/InterleavingCharIterator.java:57-59 | current moves one step round-robin and stays in range |
| InterleavingCharIterators.NewInterleaving | src/main/java/org/d2ab/primitive/chars/InterleavingCharIterator.java:29-34 | a null iterable is a NullPointerException; otherwise a fresh iterator at the start of the output |
| ChainingIntIterables.ConcatAppend | src/main/java/org/d2ab/primitive/ints/ChainingIntIterable.java:42-45 | traversing a longer list of iterables traverses the shorter one first |
| ChainingIntIterables.ChainingIntIterable.Empty | src/main/java/org/d2ab/primitive/ints/ChainingIntIterable.java:30-34 | a chain with no iterables yet |
| ChainingIntIterables.ChainingIntIterable.Append | src/main/java/org/d2ab/primitive/ints/ChainingIntIterable.java:37-40 | adds the iterable at the end and returns the same object |
| ChainingIntIterables.ChainingIntIterable.Iterator | src/main/java/org/d2ab/primitive/ints/ChainingIntIterable.java:42-45 | a fresh traversal of the current list: the concatenation of the iterables in list order; a null entry fails with NullPointerException |
| ChainingIntIterables.ChainingIntIterable.HashCode | src/main/java/org/d2ab/primitive/ints/ChainingIntIterable.java:47-50 | the list hash of the iterables' own hashes (null hashing to 0) is an int and equals the polynomial hash wrapped once |
| ChainingIntIterables.ChainingIntIterable.Equals | src/main/java/org/d2ab/primitive/ints/ChainingIntIterable.java:52-62 | true for the same object; false for null; otherwise true iff the lists have equal length and each pair of iterables is null-safe equal: both null, the same object, or equal under the left element's own equals |
| ChainingIntIterables.EqualsConsistentWithHash | src/main/java/org/d2ab/primitive/ints/ChainingIntIterable.java:47-62 | equal instances hash equally, for every element equality that agrees with the element hash |
| ChainingIntIterables.DistinctLambdasUnequal | src/main/java/org/d2ab/primitive/ints/ChainingIntIterable.java:52-62 | two chains over distinct lambdas yielding the same ints traverse alike but are not equal, a lambda's equals being identity |
| ChainingIntIterables.NewChaining | src/main/java/org/d2ab/primitive/ints/ChainingIntIterable.java:32-34 | stores the iterables in argument order; a null one is a NullPointerException |
| ChainingIntIterables.TraversalAfterAppend | src/main/java/org/d2ab/primitive/ints/ChainingIntIterable.java:37-45 | a traversal made after an append yields the old elements, then the appended iterable's |
| EntrySequences.Skip | src/main/java/org/d2ab/sequence/EntrySequence.java:480-487 | a negative count is an IllegalArgumentException; skip(0) is this very sequence; otherwise the entries after the first n |
| EntrySequences.SkipTail | src/main/java/org/d2ab/sequence/EntrySequence.java:494-501 | a negative count is rejected; skipTail(0) is this very sequence; otherwise all but the last n entries |
| EntrySequences.Limit | src/main/java/org/d2ab/sequence/EntrySequence.java:506-513 | a negative count is rejected; limit(0) is the empty sequence; otherwise the first n entries |
| EntrySequences.LimitTail | src/main/java/org/d2ab/sequence/EntrySequence.java:520-527 | a negative count is rejected; limitTail(0) is the empty sequence; otherwise the last n entries |
| EntrySequences.LimitAndSkipPartition | src/main/java/org/d2ab/sequence/EntrySequence.java:480-527 | limit(n) followed by skip(n) is the whole sequence, and so is skipTail(n) followed by limitTail(n) |
| EntrySequences.Step | src/main/java/org/d2ab/sequence/EntrySequence.java:1443-1447 | a step below 1 is an IllegalArgumentException; otherwise no more entries than the sequence |
| EntrySequences.StepPicksMultiples | src/main/java/org/d2ab/sequence/EntrySequence.java:1443-1447 | step(k) holds exactly the entries at indices 0, k, 2k, ... |
| EntrySequences.RepeatTimes | src/main/java/org/d2ab/sequence/EntrySequence.java:1833-1837 | a negative count is rejected; repeat(0) is empty |
| EntrySequences.RepeatAt | src/main/java/org/d2ab/sequence/EntrySequence.java:1833-1837 | repeat(n) holds n copies of the entries, copy t starting at t times the length |
| EntrySequences.WindowAt | src/main/java/org/d2ab/sequence/EntrySequence.java:1349-1359 | window i is the slice starting at i * step, of the window size or up to the end |
| EntrySequences.BatchesPartition | src/main/java/org/d2ab/sequence/EntrySequence.java:1365-1369 | batches of size n, one after another, are the whole sequence |
| EntrySequences.Window | src/main/java/org/d2ab/sequence/EntrySequence.java:1349-1359 | a window or step below 1 is an IllegalArgumentException; no window is longer than the size |
| EntrySequences.WindowOf | src/main/java/org/d2ab/sequence/EntrySequence.java:1337-1341 | window(n) is window(n, 1) |
| EntrySequences.Batch | src/main/java/org/d2ab/sequence/EntrySequence.java:1365-1369 | batch(n) is window(n, n), and its batches concatenate to the whole sequence |
| EntrySequences.PairUpAt | src/main/java/org/d2ab/sequence/EntrySequence.java:113-115 | entry j of the pairing is (items[2j], items[2j + 1]), and there are half as many entries as items |
| EntrySequences.OfEntries | src/main/java/org/d2ab/sequence/EntrySequence.java:108-117 | a null array is a NullPointerException, an odd-length one an IllegalArgumentException; otherwise the sequence of the pairs in order |
| EntrySequences.MapOfLastWins | src/main/java/org/d2ab/sequence/EntrySequence.java:980-988 | the map's keys are the entries' keys, each mapping to the value of the last entry with that key |
| EntrySequences.ToMap | src/main/java/org/d2ab/sequence/EntrySequence.java:971-988 | a fresh map holding every entry put in encounter order |
| EntrySequences.MergeTakingNewIsToMap | src/main/java/org/d2ab/sequence/EntrySequence.java:994-1013 | merging with (old, new) -> new gives the toMap result when no value is null; a null value anywhere makes it fail |
| EntrySequences.ToMergedMap | src/main/java/org/d2ab/sequence/EntrySequence.java:994-1013 | a fresh map with every entry merged in order by Map.merge; a null value is a NullPointerException |
| EntrySequences.MergedPrefixFails | src/main/java/org/d2ab/sequence/EntrySequence.java:1009-1010 | once a prefix fails to merge, the whole sequence fails |
| EntrySequences.MergedErrIsNull | src/main/java/org/d2ab/sequence/EntrySequence.java:1009-1010 | the only failure of toMergedMap is NullPointerException |
| EntrySequences.GroupedMapKeepsOrder | src/main/java/org/d2ab/sequence/EntrySequence.java:1059-1071 | a key (null allowed) is grouped iff some entry has it, and its group is the values with that key in encounter order |
| EntrySequences.ToGroupedMap | src/main/java/org/d2ab/sequence/EntrySequence.java:1021-1071 | a fresh map of each key to the list of its values in encounter order |
| EntrySequences.JoinedAppend | src/main/java/org/d2ab/sequence/EntrySequence.java:1174-1181 | joining two non-empty runs puts exactly one delimiter between them |
| EntrySequences.Join | src/main/java/org/d2ab/sequence/EntrySequence.java:1167-1184 | the prefix, then the entries separated by the delimiter with none before the first or after the last, then the suffix |
| EntrySequences.JoinWith | src/main/java/org/d2ab/sequence/EntrySequence.java:1157-1161 | join(delimiter) is the entries separated by the delimiter, with no prefix or suffix |
| EntrySequences.FoldLeftCons | src/main/java/org/d2ab/sequence/EntrySequence.java:1190-1215 | the fold takes the entries from the front |
| EntrySequences.Reduce | src/main/java/org/d2ab/sequence/EntrySequence.java:1190-1194 | empty iff there are no entries; a single entry is the result unchanged |
| EntrySequences.ReduceWithIdentity | src/main/java/org/d2ab/sequence/EntrySequence.java:1211-1215 | the identity when there are no entries |
| EntrySequences.ReduceFromIdentityAgrees | src/main/java/org/d2ab/sequence/EntrySequence.java:1190-1215 | with an identity the operator passes the first entry through, both reductions agree |
| EntrySequences.At | src/main/java/org/d2ab/sequence/EntrySequence.java:1251-1255 | a negative index is an IllegalArgumentException; otherwise the entry at the index, or empty past the end |
| EntrySequences.First | src/main/java/org/d2ab/sequence/EntrySequence.java:1234-1236 | the first entry, or empty for no entries |
| EntrySequences.AtMatching | src/main/java/org/d2ab/sequence/EntrySequence.java:1281-1292 | a negative index is rejected; otherwise the entry at that index among the matching entries, empty exactly when fewer entries match |
| Comparing.NullsFirstTotalOrder | src/main/java/org/d2ab/util/Entries.java:36 | natural order with nulls first is a total order when the natural order is |
| Comparing.KeyThenValueTotalOrder | src/main/java/org/d2ab/util/Entries.java:42-43 | comparing by key, then by value, is antisymmetric, zero exactly on equal entries, and transitive |
| Comparing.NullKeyFirst | src/main/java/org/d2ab/util/Entries.java:42-43 | a null key sorts before every non-null key |
| EntryObjects.EntryHash | src/main/java/org/d2ab/util/Pair.java:319-324 | 31 * hash(key) + hash(value) in int arithmetic, null hashing to 0, is an int |
| Pairs.AsObject | src/main/java/org/d2ab/util/Pair.java:135-146 | seen as a Map.Entry, getKey is the left side and getValue the right |
| Pairs.Of | src/main/java/org/d2ab/util/Pair.java:43-55 | getLeft and getRight return exactly the two objects given, nulls allowed |
| Pairs.From | src/main/java/org/d2ab/util/Pair.java:60-72 | getLeft is the entry's key and getRight its value; a pair made from a Pair is equal to it |
| Pairs.Unary | src/main/java/org/d2ab/util/Pair.java:77-89 | both sides are the given object, so swapping gives the same pair |
| Pairs.Swap | src/main/java/org/d2ab/util/Pair.java:159-171 | getLeft is the old right side and getRight the old left side |
| Pairs.WithLeft | src/main/java/org/d2ab/util/Pair.java:176-188 | getLeft is the new object and getRight the old right side |
| Pairs.WithRight | src/main/java/org/d2ab/util/Pair.java:193-205 | getLeft is the old left side and getRight the new object |
| Pairs.ShiftRight | src/main/java/org/d2ab/util/Pair.java:211-223 | getLeft is the replacement and getRight the old left side |
| Pairs.ShiftLeft | src/main/java/org/d2ab/util/Pair.java:229-241 | getLeft is the old right side and getRight the replacement |
| Pairs.Map | src/main/java/org/d2ab/util/Pair.java:246-259 | each side is its old value through its own mapper |
| Pairs.HashCode | src/main/java/org/d2ab/util/Pair.java:319-324 | an int: the shared entry hash of getKey and getValue |
| Pairs.CompareTo | src/main/java/org/d2ab/util/Pair.java:344-347 | the left sides decide unless they tie, in which case the right sides do; a null left side sorts first |
| Pairs.SetValue | src/main/java/org/d2ab/util/Pair.java:151-154 | always UnsupportedOperationException |
| Pairs.Equals | src/main/java/org/d2ab/util/Pair.java:326-337 | true exactly for another Pair with null-safe equal sides |
| Pairs.Put | src/main/java/org/d2ab/util/Pair.java:292-295 | stores left -> right in the map and returns that map |
| Pairs.SwapInvolution | src/main/java/org/d2ab/util/Pair.java:159-171 | swap exchanges the sides, and swapping twice gives an equal pair |
| Pairs.ShiftsUndo | src/main/java/org/d2ab/util/Pair.java:211-241 | shiftRight(x) is (x, left), shiftLeft(x) is (right, x), and each undoes the other's move |
| Pairs.MapComposes | src/main/java/org/d2ab/util/Pair.java:246-259 | mapping twice is mapping once with the composed mappers |
| Pairs.HashConsistentWithEquals | src/main/java/org/d2ab/util/Pair.java:319-337 | equal pairs hash equally |
| Pairs.CompareToTotalOrder | src/main/java/org/d2ab/util/Pair.java:308-310 | compareTo is a total order on pairs that is zero exactly on equal pairs |
| Pairs.NullLeftFirst | src/main/java/org/d2ab/util/Pair.java:308-310 | a null left side sorts before every non-null left side |
| Pairs.PairIterator.constructor | src/main/java/org/d2ab/util/Pair.java:354-356 | a new iterator before the left side |
| Pairs.PairIterator.HasNext | src/main/java/org/d2ab/util/Pair.java:358-361 | true while fewer than two sides have been returned |
| Pairs.PairIterator.Next | src/main/java/org/d2ab/util/Pair.java:363-377 | left, then right, then NoSuchElementException |
| Entries.Of | src/main/java/org/d2ab/util/Entries.java:52-54 | the entry's key and value are exactly those given, nulls allowed |
| Entries.HashCode | src/main/java/org/d2ab/util/Entries.java:105-110 | an int, and the same hash as the Pair of the same key and value |
| Entries.CompareTo | src/main/java/org/d2ab/util/Entries.java:146-148 | compares like the Pairs of the two entries' keys and values; a null key sorts first |
| Entries.AsFunction | src/main/java/org/d2ab/util/Entries.java:81-84 | defined on every non-null entry, giving the entry whose key and value are the old ones through their mappers |
| Entries.Equals | src/main/java/org/d2ab/util/Entries.java:112-121 | true exactly for a Map.Entry of any entry class with null-safe equal key and value |
| Entries.SetValue | src/main/java/org/d2ab/util/Entries.java:140-143 | always UnsupportedOperationException |
| Entries.Put | src/main/java/org/d2ab/util/Entries.java:56-59 | stores key -> value in the given map and returns that same map |
| Entries.HashConsistentWithEquals | src/main/java/org/d2ab/util/Entries.java:105-121 | an entry equal to another hashes like it, whatever the other's class |
| Entries.CompareToConsistentWithEquals | src/main/java/org/d2ab/util/Entries.java:42-43 | compareTo is zero exactly on the entries equals accepts, and a null key comes first |
| Entries.AsFunctionIdentity | src/main/java/org/d2ab/util/Entries.java:81-84 | asFunction with identity mappers gives an equal entry |
| Entries.AsFunctionComposes | src/main/java/org/d2ab/util/Entries.java:81-84 | asFunction maps key and value independently: applying it twice is applying the composed mappers |
| Entries.EqualsAsymmetricWithPair | src/main/java/org/d2ab/util/Entries.java:112-121 | an entry equals the Pair of its key and value, but the Pair does not equal it back |
| Maps.Entry | src/main/java/org/d2ab/collection/Maps.java:61-63 | the entry's key and value are those given |
| Maps.EntryHashCode | src/main/java/org/d2ab/collection/Maps.java:104-109 | an int, and the same hash as the Pair of the same key and value |
| Maps.EntryComparator | src/main/java/org/d2ab/collection/Maps.java:36-38 | compares two entries like the Pairs of their keys and values; a null key sorts first |
| Maps.EntryEquals | src/main/java/org/d2ab/collection/Maps.java:111-120 | true exactly for a Map.Entry with null-safe equal key and value |
| Maps.EntrySetValue | src/main/java/org/d2ab/collection/Maps.java:137-140 | always UnsupportedOperationException |
| Maps.EntryHashConsistentWithEquals | src/main/java/org/d2ab/collection/Maps.java:104-120 | equal entries hash equally |
| Maps.EntryComparatorTotalOrder | src/main/java/org/d2ab/collection/Maps.java:36-38 | entryComparator is a total order, zero exactly on equal entries |
| Maps.Builder.constructor | src/main/java/org/d2ab/collection/Maps.java:77-79 | no map created yet |
| Maps.Builder.Put | src/main/java/org/d2ab/collection/Maps.java:81-86 | creates the map on first use, then stores key -> value (a later put on the key overrides); returns the builder |
| Maps.Builder.Build | src/main/java/org/d2ab/collection/Maps.java:88-92 | hands over the accumulated map, or a fresh empty one, and resets |
| Maps.BuilderOf | src/main/java/org/d2ab/collection/Maps.java:45-47 | a new builder holding one fresh map with the one entry |
| Maps.BuildTwice | src/main/java/org/d2ab/collection/Maps.java:81-92 | after a build, the next put starts a new map: two builds hand out distinct maps with their own puts |
| Maps.EntryIterator.constructor | src/main/java/org/d2ab/collection/Maps.java:152-154 | a new iterator before the key, over an entry that may be null |
| Maps.EntryIterator.HasNext | src/main/java/org/d2ab/collection/Maps.java:156-159 | true while next has been called fewer than two times; for a non-null entry, while fewer than two components have been returned |
| Maps.EntryIterator.Next | src/main/java/org/d2ab/collection/Maps.java:161-170 | key, then value, then NoSuchElementException; over a null entry the first two calls advance the index and fail with NullPointerException |
| Lists.Shuffled | src/main/java/org/d2ab/collection/Lists.java:70-76 | the list after the swaps of the remaining iterations, determined by the input and the draws, keeps its length |
| Lists.ShuffledPermutes | src/main/java/org/d2ab/collection/Lists.java:66-77 | the shuffled list is a permutation of the input |
| Lists.ShuffledKeepsPrefix | src/main/java/org/d2ab/collection/Lists.java:70-76 | after iteration i, positions below i are final |
| Lists.ShortListsUnchanged | src/main/java/org/d2ab/collection/Lists.java:70 | lists of size 0 or 1 are unchanged |
| Lists.Shuffle | src/main/java/org/d2ab/collection/Lists.java:66-90 | the in-place swap loop leaves the list as Shuffled of its old contents and returns the same list |
| Lists.Create | src/main/java/org/d2ab/collection/Lists.java:46-49 | a fresh mutable list of the items in order |
| IntLists.IntList.IndexOfInt | src/main/java/org/d2ab/collection/ints/IntList.java:376-383 | the smallest index holding x, or -1 iff x is absent |
| IntLists.IntList.LastIndexOfInt | src/main/java/org/d2ab/collection/ints/IntList.java:358-367 | the largest index holding x, or -1 iff x is absent |
| IntLists.IntList.GetInt | src/main/java/org/d2ab/collection/ints/IntList.java:302-308 | element i, or IndexOutOfBoundsException exactly for an index outside the list |
| IntLists.IntList.SetInt | src/main/java/org/d2ab/collection/ints/IntList.java:317-324 | returns the old element i and replaces only that position; out of range it fails and changes nothing |
| IntLists.IntList.AddAllInts | src/main/java/org/d2ab/collection/ints/IntList.java:221-230 | false for no ints; otherwise appends them in order; true iff any were given |
| IntLists.IntList.RemoveUnless | src/main/java/org/d2ab/collection/ints/IntList.java:261-268 | the iterator-removal loop leaves exactly the kept elements in order and reports whether it removed any |
| IntLists.IntList.RemoveAll | src/main/java/org/d2ab/collection/ints/IntList.java:255-269 | removes exactly the elements in c, keeps the rest in order, and reports whether anything was in c |
| IntLists.IntList.RetainAll | src/main/java/org/d2ab/collection/ints/IntList.java:279-293 | keeps exactly the elements in c, in order, and reports whether anything was not |
| IntLists.IntList.Equals | src/main/java/org/d2ab/collection/ints/IntList.java:466-494 | true iff the other object is an IntList with the same ints, or a List of the same ints as Integers, in order |
| IntLists.SameInOrder | src/main/java/org/d2ab/collection/ints/IntList.java:475-481 | the side-by-side walk answers true iff the two lists are equal |
| Hashing.ListHashIsWrappedPolyHash | src/main/java/org/d2ab/collection/ints/IntList.java:496-501 | the int hash, wrapped at every step, equals the unbounded polynomial hash 31^n + sum of 31^(n-1-i) * x[i] wrapped once |
| IntLists.IntList.HashCode | src/main/java/org/d2ab/collection/ints/IntList.java:496-501 | 31 * h + x folded from 1 in int arithmetic, equal to the polynomial hash wrapped once |
| IntLists.SubListCheckAsWritten | src/main/java/org/d2ab/collection/ints/IntList.java:510-514 | the constructor accepts exactly 0 <= from and to <= size, letting from > to through |
| IntLists.SubListCheck | src/main/java/org/d2ab/collection/ints/IntList.java:510-514 | the corrected checks accept exactly 0 <= from <= to <= size |
| IntLists.AsWrittenSizeDisagrees | src/main/java/org/d2ab/collection/ints/IntList.java:510-538 | as written, subList(3, 1) of five ints is accepted, with size -2 while its iterator yields nothing |
| IntLists.SubListSizeMatches | src/main/java/org/d2ab/collection/ints/IntList.java:520-538 | with the corrected checks, size() is the number of ints iterated, which are elems[from..to] |
| IntLists.SubList.RemoveAt | src/main/java/org/d2ab/collection/ints/IntList.java:520-534 | removing through the sublist's iterator removes the int from the backing list and decrements to, so the view loses exactly that int |
| IntLists.NewSubListAsWritten | src/main/java/org/d2ab/collection/ints/IntList.java:510-518 | as written: a negative from or a to past the end is rejected, anything else stored |
| IntLists.NewSubList | src/main/java/org/d2ab/collection/ints/IntList.java:510-518 | corrected: a valid view whose elements are elems[from..to] and whose size is to - from |
| BitLongSets.Index | src/main/java/org/d2ab/collection/longs/BitLongSet.java:62-84 | the index a long is kept at fits in a long, Long.MIN_VALUE included |
| BitLongSets.IndexRoundTrip | src/main/java/org/d2ab/collection/longs/BitLongSet.java:62-84 | x >= 0 is at index x; x < 0 at index -(x + 1), which n -> -n - 1 inverts |
| BitLongSets.IndexInjective | src/main/java/org/d2ab/collection/longs/BitLongSet.java:62-84 | distinct longs of one sign land on distinct indices |
| BitLongSets.NegativeValuesCount | src/main/java/org/d2ab/collection/longs/BitLongSet.java:35-43 | the negative half stands for as many longs as it has bits |
| BitLongSets.Ascending | src/main/java/org/d2ab/collection/longs/BitLongSet.java:45-49 | a bit set iterates each member once, in ascending order |
| BitLongSets.BitLongSet.constructor | src/main/java/org/d2ab/collection/longs/BitLongSet.java:31-33 | the set holds exactly the longs given |
| BitLongSets.BitLongSet.ContainsLong | src/main/java/org/d2ab/collection/longs/BitLongSet.java:78-84 | true iff x is a member |
| BitLongSets.BitLongSet.AddLong | src/main/java/org/d2ab/collection/longs/BitLongSet.java:62-68 | x becomes a member and nothing else changes; only the half x's sign chooses is touched; true iff x was absent |
| BitLongSets.BitLongSet.RemoveLong | src/main/java/org/d2ab/collection/longs/BitLongSet.java:70-76 | x stops being a member and nothing else changes; only x's half is touched; true iff x was present |
| BitLongSets.BitLongSet.Size | src/main/java/org/d2ab/collection/longs/BitLongSet.java:35-43 | the number of members, or IllegalStateException exactly when that exceeds Integer.MAX_VALUE |
| BitLongSets.BitLongSet.IsEmpty | src/main/java/org/d2ab/collection/longs/BitLongSet.java:51-54 | true iff the set has no members |
| BitLongSets.BitLongSet.Clear | src/main/java/org/d2ab/collection/longs/BitLongSet.java:56-60 | empties both halves |
| BitLongSets.MapBackReversedAscends | src/main/java/org/d2ab/collection/longs/BitLongSet.java:47 | reading ascending indices from last to first and mapping each back with n -> -n - 1 gives ascending values |
| BitLongSets.MapBackReversedMembers | src/main/java/org/d2ab/collection/longs/BitLongSet.java:47 | every index is mapped back and nothing else appears |
| BitLongSets.DescendingNegativesAscend | src/main/java/org/d2ab/collection/longs/BitLongSet.java:47 | the negative half read in descending index order and mapped back is ascending, below zero, and holds exactly the negative members |
| BitLongSets.IterationAscending | src/main/java/org/d2ab/collection/longs/BitLongSet.java:45-49 | the iterator yields every member exactly once, in ascending order |
| BitSets.Add | src/main/java/org/d2ab/collection/BitSets.java:30-37 | null is a NullPointerException; otherwise true iff the bit was clear, the bit is set afterwards, and no other bit changes |
| BitSets.AddTwice | src/main/java/org/d2ab/collection/BitSets.java:30-37 | adding the same index again answers false and changes nothing |
| CharBiPredicates.Negate | src/main/java/org/d2ab/function/CharBiPredicate.java:34-36 | the opposite answer wherever the predicate answers |
| CharBiPredicates.And | src/main/java/org/d2ab/function/CharBiPredicate.java:41-43 | the conjunction, defined without the second predicate wherever the first says false |
| CharBiPredicates.Or | src/main/java/org/d2ab/function/CharBiPredicate.java:48-50 | the disjunction, defined without the second predicate wherever the first says true |
| CharBiPredicates.AndShortCircuits | src/main/java/org/d2ab/function/CharBiPredicate.java:41-43 | where the first says false, and answers false without consulting the second |
| CharBiPredicates.OrShortCircuits | src/main/java/org/d2ab/function/CharBiPredicate.java:48-50 | where the first says true, or answers true without consulting the second |
| CharBiPredicates.NegateTwice | src/main/java/org/d2ab/function/CharBiPredicate.java:34-36 | negating twice gives back the predicate point by point |
| CharBiPredicates.NegateAnd | src/main/java/org/d2ab/function/CharBiPredicate.java:34-50 | negating and(q) is or over the negations |

## Left out

- LimitingIterators.LimitingIterator.constructor and ExclusiveTerminalIterators.ExclusiveTerminalIterator.constructor take the upstream iterator as their first argument. EntrySequence.java:512 and :701 call constructors that take the upstream first, while LimitingIterator.java and ExclusiveTerminalIterator.java declare only the limit and terminal constructors. The two files disagree, and the model follows the callers.
- Iterators the library uses but whose code is not part of this model: the skipping, tail-skipping, tail-limiting, windowing, repeating, generic stepping and chaining iterators, and `SparseBitSet`. The model specifies their effect through `EntrySequences.Elements`, `Windows` and `Ascending`, following the library's tests.
- EntrySequences.RepeatTimes: `repeat()` without a count (endless repetition) is not modelled, because `Elements` is a finite sequence.
- EntrySequences.Windows: the end-of-input rule is taken from the tests. A window is emitted at each multiple of the step inside the input, and no more after one reaches the end.
- toGroupedMap with a general `Collector`: the finisher and characteristics path is not modelled. Groups are lists, as `ArrayList::new` gives.
- The `Supplier` and map-constructor variants of `toMap`, `toMergedMap` and `Maps.builder`. Only the `HashMap` default is modelled.
- requireNonNull on strings, predicates, operators and constructors: non-null Dafny values stand in for them, so those NullPointerExceptions are not modelled. The null checks the source makes on data (ofEntries items, iterables, a bit set) are modelled.
- toString and `Pair.Base.format`, which depend on foreign `toString`. `join` takes the shown form of an entry as a parameter.
- Pair and Entries adapters (`asUnaryOperator`, `asBinaryOperator`, `Pair.asFunction`, `asPredicate`, `asConsumer`, `apply`, `test`, `map(BiFunction)`): each is a one-line application of a caller's function.
- Element equality: the `equals` of a key, value or list element is Dafny's value equality, which assumes the element classes keep the `Object.equals` contract. The `HashConsistentWithEquals` lemmas hold under that assumption.
- ChainingIntIterables.ChainingIntIterable.Equals: the argument is another `ChainingIntIterable` or null. An object of another class, which the source rejects with its `getClass()` check, cannot be passed.
- Entries.AsFunction: the contract states that the function is defined on every non-null entry. That applying it to null throws NullPointerException is not stated.
- Foreign `Map.Entry` implementations: `EntryObjects.JavaObject` covers the library's three entry classes and "not an entry".
- `compareTo(null)` and comparison against foreign entries, whose keys and values may not be comparable.
- ChainingIntIterables.ChainingIntIterable.Iterator: a null appended iterable fails when `iterator()` is called, not in the middle of the traversal as in the source.
- Lists.Shuffle: modelled on an array, the random-access branch only. The branch for long non-random-access lists delegates to `Arrayz.shuffle`, which is not part of this model. `java.util.Random` is replaced by its sequence of draws. `shuffle(List)`, `sort` and `reverse` are library pass-throughs.
- IntLists.IntList: elements are unbounded integers, and only the hash code wraps to 32 bits. The `IntIterable` branches of `removeAll` and `retainAll` (`removeAllInts`, `retainAllInts`) are not part of this model. `IntLists.IntList.GetInt` and `SetInt` also reject a negative index; in the source that check is made by the list iterator (`listIterator(index)`), which is not part of this model.
- IntLists.SubList.RemoveAt: the propagation of a removal through the view's iterators is modelled by its effect on the backing list. Fail-fast `ConcurrentModificationException` is not modelled.
- RecursiveIntIterators.CountingUp: integers are unbounded, so the wrap of `i + 1` past Integer.MAX_VALUE is not modelled.
- BitLongSets.BitLongSet.Iteration: the iteration order is a ghost function, not an iterator object.
- BitLongSets.BitLongSet: the halves are not constrained to indices within the long range. Every index the operations store is within it (`BitLongSets.Index`).
- CharBiPredicates.Negate, `And`, `Or`: only one direction of definedness is stated. The combined predicate is defined wherever the operands it consults are.
- CharBiPredicates and InterleavingCharIterators: Dafny's `char` is a Unicode scalar value, so the Java `char` values 0xD800-0xDFFF (surrogate halves) have no counterpart. No modelled behaviour depends on a char's value.
- DoubleList and `IntIterable` are not part of this model: floating-point comparison, and run-time type dispatch.

## Findings

| source | as written | input that shows it | evidently intended | confidence | as-written member | corrected member |
|---|---|---|---|---|---|---|
| src/main/java/org/d2ab/collection/ints/IntList.java:510-518 | the `SubList` constructor rejects only `from < 0` and `to > size`, so `from > to` is accepted and `size()` returns the negative `to - from` while the iterator yields nothing | a list of five ints, `subList(3, 1)`: accepted, `size()` is -2 | reject `from > to` with IllegalArgumentException, as `ArrayList.subList` and `AbstractList.subList` do, so that `size()` is never negative and equals the number of elements iterated | not executed | IntLists.AsWrittenSizeDisagrees | IntLists.SubListSizeMatches |
