# lingo Enumerable, modelled in Dafny

lingo is a Go port of the LINQ query operators. An `Enumerable[T]` wraps a
function that starts a goroutine and returns a channel; the goroutine pulls
values from the upstream channel, keeps a little local state (a counter, a
flag, a Go `map`, a "seen" slice) and sends values downstream. Terminal
operators (`Min`, `Sum`, `Count`, `ToSlice`, `All`, ...) drain the channel and
return a scalar or a collection.

This project models the sequential operators. It treats an Enumerable as the
finite sequence one iteration of it yields (`seq<T>`), so each operator takes a
sequence to a sequence or to a value.

- Each operator is a `method` whose loop follows the Go loop, with the same
  local state. Go maps become Dafny `map`/`set` values, "seen" slices become
  `seq`, and counters and flags stay as they are.
- Each such method is proved equal to a pure specification function.
- Lemmas about those functions state what the library promises: filters keep
  order, set operators emit each key once, sorting permutes and orders,
  joins pair exactly the matching elements, and lookups count every value once.
- Two parts of the library update state in place, so they are classes:
  - the `sorter` adapter behind `OrderBy`, which swaps two parallel arrays in
    place (`Sorting.Sorter`);
  - an unbuffered channel that is drained once (`Enumerables.Channel`).
- Go's dynamically typed `any` is the datatype `Definition.Value`. It has one
  constructor per kind the library inspects: signed and unsigned integers of
  each width, floats, strings, bools, slices, nil, and an opaque value for any
  other kind.
- Where Go converts a `T` to `any` implicitly, the model takes a `toAny`
  function.
- Go's zero value of `T` is an explicit `zero` parameter.
- A variadic optional callback (`comparer ...Comparer[T]`) is a
  `seq<Option<...>>`. `Definition.Chosen` picks the first entry unless
  `IsEmptyOrNil` holds.

Modules and the source files they model:

| module | file |
|---|---|
| `Definition` | definition/definition.go |
| `Enumerables` | enumerable.go |
| `Filter` | filter.go |
| `Projection` | projection.go, the sequential part |
| `Modification` | modification.go |
| `Partition` | patition.go |
| `Retrieve` | retrieve.go |
| `Sets` | set.go |
| `Sorting` | sort.go |
| `Aggregation` | aggregation.go |
| `Quantifiers` | quantifier.go, the sequential part |
| `Joins` | join.go |
| `Groups` | group.go |
| `Lookups` | lookup.go |
| `Converters` | converter.go |
| `Predicates` | predicate.go |

Shared helpers live in `Options`, `Seqs` and `Orderings`. `Orderings` defines
strict weak orders over a sequence of keys.

## Model

| member | source | states |
|---|---|---|
| Definition.NumberClasses | definition/definition.go:29-55 | IsInt, IsUint and IsFloat hold exactly for the signed, unsigned and float kinds; the three are pairwise disjoint; IsNumber is their union |
| Definition.LexLessIrreflexive | definition/definition.go:258-267 | Go's string `<` (byte-wise lexicographic) never holds between a string and itself |
| Definition.LexLessTransitive | definition/definition.go:258-267 | string `<` is transitive |
| Definition.LexLessTotal | definition/definition.go:258-267 | any two strings are equal or ordered one way by `<` |
| Definition.LexLessAsymmetric | definition/definition.go:258-267 | string `<` never holds in both directions |
| Definition.DefaultLessOnBool | definition/definition.go:258-299 | on bools, Less(a, b) holds iff a is false and b is true; More(a, b) iff a is true and b is false |
| Definition.DefaultComparersOnNonPrimitive | definition/definition.go:258-299 | both default comparers answer false when the left operand is not an int, uint, string or bool kind |
| Definition.MoreIsSwappedLess | definition/definition.go:258-299 | DefaultMoreComparer(a, b) equals DefaultLessComparer(b, a) for all values |
| Definition.DefaultLessStrictOrder | definition/definition.go:258-277 | on values of one primitive class the default less comparer is irreflexive, asymmetric, transitive and has transitive incomparability |
| Definition.WrapUnsigned | definition/definition.go:128-161 | truncation to an unsigned width lands in [0, 2^w) |
| Definition.WrapSigned | definition/definition.go:75-108 | truncation to a signed width lands in [-2^(w-1), 2^(w-1)) |
| Definition.WrapUnsignedKeepsLowBits | definition/definition.go:128-161 | unsigned truncation keeps the low-order w bits and is the identity on values that already fit |
| Definition.WrapSignedKeepsLowBits | definition/definition.go:75-108 | signed truncation keeps the low-order w bits and is the identity on values that already fit |
| Definition.ToActualInt | definition/definition.go:75-108 | converting a signed or unsigned integer to a signed width (`uintToActualInt`, `intToActualInt`) gives a value of that width that fits it, keeps the low-order bits, and leaves in-range values unchanged |
| Definition.ToActualUint | definition/definition.go:128-161 | converting a signed or unsigned integer to an unsigned width (`uintToActualUint`, `intToActualUint`) keeps the low-order bits; in-range values are unchanged |
| Definition.DefaultConvertToNumber | definition/definition.go:244-255 | a non-numeric target or a non-numeric value gives the zero value of the target; a numeric value is converted to the target's width keeping its low-order bits; a value already of the target's kind is returned unchanged |
| Definition.Chosen | definition/definition.go:301-312 | the first optional callback is used exactly when the list is neither empty nor starts with nil |
| Orderings.DefaultLessIsStrictWeakOrder | definition/definition.go:258-277 | on keys of one primitive class DefaultLessComparer is a strict weak order |
| Orderings.DefaultMoreIsStrictWeakOrder | definition/definition.go:280-299 | on keys of one primitive class DefaultMoreComparer is a strict weak order |
| Enumerables.AsEnumerable | enumerable.go:42-57 | yields exactly the slice's elements in index order |
| Enumerables.Channel.Receive | enumerable.go:60-80 | a receive returns the oldest pending item and removes it; on an exhausted channel it reports not-ok and the zero value |
| Enumerables.AsEnumerableFromChannel | enumerable.go:60-80 | drains the channel once, keeping the items in receive order; the channel is left empty |
| Enumerables.AsEnumerableAnyFromT | enumerable.go:111-126 | same length, each element converted to `any` at the same position |
| Enumerables.AsEnumerableAnyFromSliceT | enumerable.go:158-173 | same length, each slice element converted to `any` at the same position |
| Enumerables.Concat | enumerable.go:176-194 | yields the first sequence followed by the second, including when either is empty |
| Enumerables.Empty | enumerable.go:197-209 | yields nothing |
| Enumerables.EmptyConcat | enumerable.go:176-209 | Empty().Concat(s) yields s |
| Enumerables.Range | enumerable.go:212-229 | yields start, start+1, ..., end: end-start+1 values, none when start > end (corrected form, see Findings) |
| Enumerables.RangeAsWrittenWrapsAtMaxInt | enumerable.go:212-229 | with a 64-bit counter and end = MaxInt64 the value after MaxInt64 is MinInt64 |
| Enumerables.RangeAsWrittenNeverEnds | enumerable.go:212-229 | with end = MaxInt64 the 64-bit loop yields any requested number of values, so it never ends |
| Enumerables.Repeat | enumerable.go:232-249 | yields `times` copies of the element, none when times <= 0 |
| Filter.Filtered | filter.go:4-19 | the kept elements satisfy the predicate and are no more than the input |
| Filter.FilteredMembers | filter.go:10-12 | an element is emitted iff it occurs in the input and satisfies the predicate |
| Filter.FilteredConcat | filter.go:4-19 | filtering distributes over concatenation, so input order is kept |
| Filter.FilteredExtremes | filter.go:4-19 | all elements satisfying gives the input back; none satisfying gives nothing |
| Filter.FilteredAnd | filter.go:4-19 | Where(p.And(q)) equals Where(p) followed by Where(q) |
| Filter.Where | filter.go:4-19 | the pushing loop yields exactly the filtered subsequence |
| Filter.WhereExample | filter.go:4-19 | [1,2,3] filtered by v > 2 is [3] |
| Projection.Select | projection.go:11-26 | output has the input's length, and position i holds selector(input[i]) |
| Projection.FlattenedWithoutSlices | projection.go:29-50 | when no selector result is a slice, SelectMany yields nothing |
| Projection.FlattenedConcat | projection.go:29-50 | SelectMany distributes over concatenation, so results come in input order |
| Projection.FlattenedIgnoresNonSlices | projection.go:39 | elements whose selector result is not a slice contribute nothing: dropping them first changes nothing |
| Projection.SelectMany | projection.go:29-50 | the nested loop yields the concatenation of the slice results in input order |
| Projection.PushAll | projection.go:40-44 | the inner loop appends the slice's elements in order |
| Projection.Zip | projection.go:56-77 | one output per receiver element; position i combines it with the i-th element of second, or with nil past the end of second |
| Projection.ZipPairsPositions | projection.go:63-70 | without a resultSelector and with second long enough, output i is the pair [value, second[i]] |
| Modification.Append | modification.go:10-26 | yields the input followed by t |
| Modification.AppendRange | modification.go:29-47 | yields the input followed by second |
| Modification.Prepend | modification.go:50-66 | yields t followed by the input |
| Modification.PrependRange | modification.go:69-87 | yields second followed by the input |
| Modification.Clear | modification.go:90-92 | yields nothing, whatever the input |
| Modification.Inserted | modification.go:95-118 | an index in [0, len] puts t at that index with the prefix before it and the rest shifted by one; any other index leaves the input unchanged |
| Modification.WithoutAt | modification.go:153-174 | an index in [0, len) drops that one element and shifts the rest; any other index leaves the input unchanged |
| Modification.WithoutAtInserted | modification.go:95-174 | removing at the index where t was inserted gives the input back |
| Modification.InsertedWithoutAt | modification.go:95-174 | re-inserting a removed element at its index gives the input back |
| Modification.Insert | modification.go:95-118 | the counting loop yields Inserted: t once at the index, or the input unchanged when the index is out of range |
| Modification.Remove | modification.go:124-150 | drops only the first element equal to t (by the comparer if given, else `==`) |
| Modification.RemoveDropsAtMostOne | modification.go:124-150 | with no match the output is the input; with a match it is exactly one shorter |
| Modification.RemoveAt | modification.go:153-174 | drops the element at the index when it is in range, otherwise yields the input |
| Modification.RangeStart | modification.go:177-198 | the clamped start of the removed range is within the input |
| Modification.RangeEnd | modification.go:177-198 | the clamped end of the removed range lies between its start and the input length |
| Modification.RemoveRangeLoop | modification.go:177-198 | one iteration yields the input minus the clamped range and reports the count decremented by the number removed |
| Modification.RemoveRange | modification.go:177-198 | the first iteration drops exactly the clamped range: the output is that many elements shorter (corrected form, see Findings) |
| Modification.RangeRemovedSmall | modification.go:177-198 | RemoveRange(i, 1) equals RemoveAt(i) for in-range i, and a zero count removes nothing |
| Modification.RangeRemoval.GetIter | modification.go:177-198 | each iteration removes the clamped range for the count left by the previous iteration and leaves the decremented count behind |
| Modification.RemoveRangeIteratedTwice | modification.go:177-198 | [1,2,3,4,5].RemoveRange(1, 2) yields [1,4,5] the first time and [1,2,3,4,5] the second time |
| Partition.Skip | patition.go:4-21 | yields the input from the clamped count on: all of it when n <= 0, nothing when n >= len |
| Partition.Take | patition.go:46-63 | yields the first clamped-count elements: nothing when n <= 0 |
| Partition.SkipWhile | patition.go:24-43 | yields the suffix from the first element failing the predicate; everything dropped satisfies it; later elements are kept whatever they are |
| Partition.TakeWhile | patition.go:66-85 | yields the longest prefix satisfying the predicate; the next element, if any, fails it |
| Partition.TakeThenSkip | patition.go:4-63 | Take(n) followed by Skip(n) reconstructs the input |
| Partition.TakeWhileThenSkipWhile | patition.go:24-85 | TakeWhile(p) followed by SkipWhile(p) reconstructs the input |
| Retrieve.FirstLoop | retrieve.go:7-43 | the flag-guarded loop returns the first matching element, or the initial value when none matches |
| Retrieve.FirstOrNil | retrieve.go:7-22 | the first element satisfying the predicate (or the first element without one), else the zero value |
| Retrieve.FirstOrDefault | retrieve.go:28-43 | the same, with the default value when nothing matches |
| Retrieve.LastLoop | retrieve.go:49-77 | the overwriting loop returns the last matching element, or the initial value |
| Retrieve.LastOrNil | retrieve.go:49-60 | the last matching element, else the zero value |
| Retrieve.LastOrDefault | retrieve.go:66-77 | the last matching element, else the default value |
| Retrieve.FirstMatchIsHeadOfFiltered | retrieve.go:7-43 | FirstOrDefault is the head of Where(p), or the default when Where(p) is empty |
| Retrieve.LastMatchIsLastOfFiltered | retrieve.go:49-77 | LastOrDefault is the last element of Where(p), or the default when Where(p) is empty |
| Retrieve.ElementAtLoop | retrieve.go:80-110 | the counting loop returns s[index] for an index in range, and the initial value otherwise, negative indices included |
| Retrieve.ElementAtOrNil | retrieve.go:80-94 | s[index] when in range, otherwise the zero value |
| Retrieve.ElementAtOrDefault | retrieve.go:97-110 | s[index] when in range, otherwise the default value |
| Seqs.Clamp | patition.go:4-63 | a count clamped to [0, len]: unchanged in range, 0 below, len above |
| Seqs.FirstIndex | patition.go:24-85 | the first position satisfying a test (len when none); nothing before it satisfies it |
| Seqs.LastIndex | retrieve.go:49-77 | the last position satisfying a test (-1 when none); nothing after it satisfies it |
| Seqs.MapSeq | projection.go:11-26 | same length, position i holds f(s[i]) |
| Seqs.MapSeqConcat | projection.go:11-26 | mapping distributes over concatenation |
| Sets.KeySetConcat | set.go:4-330 | the keys of a concatenation are the union of the keys of its parts |
| Sets.KeyDistinctKeys | set.go:37-45 | distinct-by-key emits exactly the input's keys minus those already seen |
| Sets.KeyDistinctUnique | set.go:37-45 | no emitted key was seen before, and no two emitted elements share a key |
| Sets.KeyDistinctConcat | set.go:238-291 | distinct over a concatenation emits the first part, then the second part minus the keys the first part contained, so all emitted elements of the first precede those of the second |
| Sets.KeyIntersectKeys | set.go:190-200 | intersect-by-key emits exactly the input keys that are available in the second sequence |
| Sets.KeyIntersectUnique | set.go:190-200 | every emitted key was available, and no key is emitted twice |
| Sets.AnyMatchConcat | set.go:46-62 | a key matches some kept key of a concatenation iff it matches one in either part |
| Sets.CmpDistinctUnique | set.go:46-62 | with a comparer, an emitted key matches no key kept before it, and no emitted key matches an earlier emitted key |
| Sets.CmpIntersectMatches | set.go:201-227 | with a comparer, every emitted key matches some key of the second sequence and no earlier emitted key |
| Sets.CmpIntersectAvoidsKept | set.go:201-227 | with a comparer, no emitted key matches a key kept before the scan started |
| Sets.AnyMatchIsMembership | set.go:46-62 | with `==` as the comparer, matching a kept key is membership in the kept keys |
| Sets.CmpDistinctIsKeyDistinct | set.go:30-68 | with `==` as the comparer, the comparer branch of DistinctBy/ExceptBy/UnionBy emits what the map branch emits |
| Sets.CmpIntersectIsKeyIntersect | set.go:183-234 | with `==` as the comparer, the comparer branch of IntersectBy emits what the map branch emits |
| Sets.FindMatch | set.go:51-56 | the inner scan reports whether the key matches some kept key |
| Sets.MarkAll | set.go:191-193 | the map built from the second sequence holds true exactly for its keys |
| Sets.AvailableAfterUse | set.go:197 | marking a key false removes it from the available keys |
| Sets.Distinct | set.go:4-23 | yields each distinct value once, in order of first occurrence |
| Sets.DistinctBy | set.go:30-68 | without a comparer, the first element per key; with a comparer, an element iff its key matches no earlier kept key |
| Sets.Except | set.go:72-94 | the distinct values of the first sequence absent from the second, in first-occurrence order |
| Sets.ExceptBy | set.go:100-151 | an element iff its key matches no key of the second sequence and no earlier emitted key, by map or by comparer |
| Sets.Intersect | set.go:155-177 | the distinct values of the first sequence that occur in the second, in first-sequence order, each once |
| Sets.IntersectBy | set.go:183-234 | an element iff its key matches some key of the second sequence and no earlier emitted key, by map or by comparer |
| Sets.IntersectByKeys | set.go:190-200 | the map branch of IntersectBy |
| Sets.IntersectByComparer | set.go:201-227 | the comparer branch of IntersectBy |
| Sets.Union | set.go:238-263 | equals Distinct of the first sequence followed by the second |
| Sets.UnionBy | set.go:269-330 | equals DistinctBy of the first sequence followed by the second, in both branches |
| Sets.UnionByKeys | set.go:276-291 | the map branch of UnionBy |
| Sets.UnionByComparer | set.go:292-323 | the comparer branch of UnionBy |
| Sets.UnionStep | set.go:295-307 | one pass of the comparer loop: the value is kept exactly when no earlier key matches its key, and the rest of the output follows unchanged |
| Sorting.DefaultSort | sort.go:27-46 | on non-float keys defaultSort agrees with the default less comparer |
| Sorting.DefaultSortKinds | sort.go:37-46 | defaultSort is false for a non-primitive left key, and on bools only false < true holds |
| Sorting.DefaultSortIsStrictWeakOrder | sort.go:27-46 | on keys of one primitive class defaultSort is a strict weak order |
| Sorting.Swapped | sort.go:18-21 | a swap exchanges two positions, keeps every other one and keeps the multiset |
| Sorting.Pairs | sort.go:18-21 | the payload/key pairs of two parallel slices: one per position |
| Sorting.PairsAt | sort.go:18-21 | pair i is (origin[i], keys[i]) |
| Sorting.PairsSwapped | sort.go:18-21 | swapping both slices at i and j swaps the pairs at i and j |
| Sorting.Sorter.constructor | sort.go:48-62 | NewSorter holds the two arrays and uses the given comparer, or defaultSort when it is nil |
| Sorting.Sorter.Len | sort.go:14-16 | Len is the number of keys |
| Sorting.Sorter.Less | sort.go:23-25 | Less(i, j) is the comparer applied to keys i and j |
| Sorting.Sorter.Swap | sort.go:18-21 | exchanges positions i and j in both arrays, so each payload stays with its key |
| Sorting.Sorter.Sort | sort.go:74-80 | after sorting through Swap and Less no adjacent pair is out of order and the payload/key pairs are a permutation of the original pairs |
| Sorting.Sorter.Insert | sort.go:74-80 | one insertion step extends the sorted prefix by one and keeps the pairs |
| Sorting.KeysFollowPayloads | sort.go:74-80 | when every key was selected from its payload before sorting, it still is afterwards |
| Sorting.Ascending | sort.go:74-80 | under a strict weak order, adjacent order implies that no later key is less than an earlier one |
| Sorting.Descending | sort.go:102-106 | under a strict weak order, adjacent order by the negated comparer implies that no earlier key is less than a later one |
| Sorting.OrderBy | sort.go:69-86 | the output is a permutation of the input whose selected keys are in adjacent order for the comparer (defaultSort when nil) |
| Sorting.OrderByDescending | sort.go:91-115 | empty input yields nothing; otherwise a permutation in adjacent order for the negated comparer |
| Sorting.OrderByDefaultIsAscending | sort.go:69-86 | with the default comparer and one key class, no later key is less than an earlier one |
| Sorting.NegatedGreaterIsAscending | sort.go:102-106 | sorting by the negated default "more" comparer orders keys ascending |
| Sorting.DescendingByGreaterIsAscending | sort.go:91-115 | OrderByDescending with a "greater" comparer gives ascending output |
| Sorting.Reverse | sort.go:118-132 | output i is input n-1-i |
| Sorting.ReverseTwice | sort.go:118-132 | reversing twice gives the input back |
| Aggregation.BestLoop | aggregation.go:13-25 | the replace-when-strictly-better loop returns the reduced value, or the zero value on empty input |
| Aggregation.Min | aggregation.go:10-27 | Min reduces with the given comparer, or the default less comparer, and returns the zero value when empty |
| Aggregation.Max | aggregation.go:34-51 | Max reduces with the given comparer, or the default more comparer, and returns the zero value when empty |
| Aggregation.ReducedEmpty | aggregation.go:10-27 | an empty sequence reduces to the zero value |
| Aggregation.BestIsElement | aggregation.go:13-25 | on non-empty input the result is an input element |
| Aggregation.BestIsEarliestMinimum | aggregation.go:13-25 | under a strict weak order the result is at some position k, no element beats it, and it strictly beats every element before k, so it is the earliest of tied minima |
| Aggregation.Count | aggregation.go:120-127 | the number of elements, 0 when empty |
| Aggregation.WrapSignedAdd | aggregation.go:67-69 | adding to an int64 total that already wrapped equals wrapping the exact sum |
| Aggregation.WrapUnsignedAdd | aggregation.go:70-71 | the same for the uint64 total |
| Aggregation.IntRunningIsTruncatedTotal | aggregation.go:67-69 | the int64 accumulator is the exact signed total wrapped to 64 bits |
| Aggregation.UintRunningIsTruncatedTotal | aggregation.go:70-71 | the uint64 accumulator is the exact unsigned total wrapped to 64 bits |
| Aggregation.FloatRunningIsTotal | aggregation.go:72-73 | the float accumulator is the exact total of the float values |
| Aggregation.Accumulate | aggregation.go:67-74 | one step of the switch adds a numeric value to the accumulator of its class and leaves the others alone |
| Aggregation.Sum | aggregation.go:54-83 | the loop's result is the sum over the values before the first non-number, typed by the last value inspected |
| Aggregation.SumInspected | aggregation.go:59-82 | the same loop, stated over the values it inspects: it returns SumOf of them |
| Aggregation.SumStep | aggregation.go:67-74 | one pass over a number turns the accumulators of the prefix before it into those of the prefix through it |
| Aggregation.SumReturn | aggregation.go:76-82 | after the loop stops, the accumulator chosen by the last value inspected is SumOf the inspected values |
| Aggregation.SumAt | aggregation.go:64-66 | stopping at position i (end of input or a non-number) sums exactly the prefix before i |
| Aggregation.SumResultIsRunning | aggregation.go:76-82 | the result is the int64, uint64 or float64 accumulator, chosen by the class of the last value inspected |
| Aggregation.SumOfInts | aggregation.go:54-83 | over signed integers whose total fits int64, Sum is that total as an int64 |
| Aggregation.SumOfUints | aggregation.go:54-83 | over unsigned integers whose total fits uint64, Sum is that total as a uint64 |
| Aggregation.SumStopsAtNonNumber | aggregation.go:64-66 | nothing after the first non-number is summed, and a non-number inspected last makes the result a float64 |
| Aggregation.SumOfNothing | aggregation.go:54-83 | empty input sums to the float64 zero |
| Quantifiers.All | quantifier.go:11-18 | true iff every element satisfies the predicate (true when empty); it inspects elements only up to the first failing one |
| Quantifiers.Any | quantifier.go:21-28 | true iff some element satisfies the predicate (false when empty) |
| Quantifiers.AllIsNotAnyNot | quantifier.go:11-28 | All(p) equals not Any(not p); on empty input All is true and Any false |
| Quantifiers.Contains | quantifier.go:36-49 | true iff some element matches the value by the first comparer; without a comparer, iff the value occurs |
| Joins.RowIsSelectOfWhere | join.go:22-35 | one outer element's outputs are resultSelector applied to the inner elements whose key matches, in inner order |
| Joins.JoinedLength | join.go:23-34 | the output has one element per matching (outer, inner) pair |
| Joins.UnmatchedRowIsEmpty | join.go:23-34 | an outer element with no matching inner element contributes nothing |
| Joins.JoinRow | join.go:24-34 | the inner loop appends one outer element's row, matching by `==` without a comparer and by the first comparer otherwise |
| Joins.Join | join.go:9-41 | the nested loop yields the rows of the outer elements in outer order |
| Groups.GroupedKeys | group.go:20-33 | the groups' keys are exactly the keys of the input |
| Groups.GroupedValues | group.go:20-33 | the group of key k holds the elements of the values with key k, in input order, and is never empty; absent keys have no such values |
| Groups.Collect | group.go:20-33 | the appending loop builds the grouping map |
| Groups.Emit | group.go:34-36 | one resultSelector call per key, each key once, in some order |
| Groups.GroupBy | group.go:8-42 | one output per distinct key (after getHash), each resultSelector(key, the key's group) |
| Groups.OneHashOneGroup | group.go:29-31 | a getHash sending every key to one value gives a single group holding every element in order |
| Lookups.GroupingKeys | lookup.go:69-90 | the keys of a list of groupings, in order |
| Lookups.MakeGroupings | lookup.go:69-90 | one grouping per key, no key twice, each with its values and Count equal to their number |
| Lookups.AsLookup | lookup.go:36-97 | the map groups the input by key, Count is the number of distinct keys, the groupings cover the map, and their Counts add up to the input length |
| Lookups.ContainsKeyOfLookup | lookup.go:13-16 | `Lookups.ContainsKey` on the lookup AsLookup builds holds for k iff some input element has key k |
| Lookups.GetValueOfLookup | lookup.go:19-24 | `Lookups.GetValue` on the lookup AsLookup builds gives, for k, the elements with key k in input order, or nil when there are none |
| Lookups.CountSumIsSizes | lookup.go:69-90 | the groupings' Counts add up to the sizes of the groups they name |
| Lookups.GroupSizesSum | lookup.go:42-57 | over a list naming every key once, the group sizes add up to the input length |
| Lookups.GroupingCountsSum | lookup.go:42-90 | the sum of all groupings' Counts equals the input length |
| Converters.ToSlice | converter.go:6-12 | the elements in iteration order; an empty slice for empty input |
| Converters.ToMap | converter.go:15-21 | the loop assigns keySelector(v) to elementSelector(v) for each value in order |
| Converters.MappedContents | converter.go:15-21 | the map's keys are the selected keys, so its size is their number; each key holds the element of the last value with that key |
| Converters.SliceTToAny | converter.go:38-44 | an array of the same length holding each value converted to `any` at its index |
| Predicates.And | predicate.go:6-10 | p.And(q)(t) is p(t) and q(t) |
| Predicates.Or | predicate.go:13-17 | p.Or(q)(t) is p(t) or q(t) |
| Predicates.CombinatorExamples | predicate.go:6-17 | (v>2).And(v<10) holds at 5 and not at 2; (v>2).Or(v<10) holds at 5 and at 2 |

## Left out

- Channels and goroutines. An Enumerable is the sequence it yields. The model
  does not capture the unbuffered hand-off, `defer close`, or a producer left
  blocked when a consumer returns early. `Enumerables.Channel` models only
  what `AsEnumerableFromChannel` observes: items received in order, then the
  zero value.
- `ParallelEnumerable`, including `ParallelEnumerable.AsEnumerable`
  (enumerable.go:20-39). Its output order is nondeterministic, and its
  ordering helpers are defined in none of the files.
- Strings: `StringValue` holds a sequence of characters (code points). A Go
  string holding bytes that are not valid UTF-8 cannot be represented. On
  valid UTF-8, comparing code points agrees with Go's byte-wise order.
- Floating point. A float is an exact real, with no rounding, NaN or
  infinities. `Average`, the `floatToActual*` and `*ToActualFloat`
  conversions, and `defaultConvertToFloat` are left out.
- Definition.DefaultConvertToNumber: requires that neither the target nor the
  value is a float, because float conversions are left out.
- Sorting.DefaultSort: covers the non-float kinds only, for the same reason.
- Reflection and `unsafe`:
  - `AsEnumerableTFromAny`, `AsEnumerableTFromSliceAny` and `SliceAnyToT` are
    type assertions from `any` back to `T`, with no counterpart in a typed
    model.
  - The `unsafe` cast fallback in `AsLookup` is replaced by the `asV`
    parameter.
  - `GetValue` returns the stored values without the `SliceAnyToT` round trip.
- Panics become plain results:
  - The default comparers and `defaultSort` switch on the kind of the first
    operand and read the second through the accessor of that kind
    (definition/definition.go:258-298, sort.go:27-46). When the first operand
    is a number or a bool and the second is of another kind, Go panics, and so
    does `defaultSort` on a nil first operand. The model answers false.
  - Definition.DefaultLessComparer, Definition.DefaultMoreComparer and
    Sorting.DefaultSort: when the first operand is a string and the second is
    not, Go does not panic. `reflect.Value.String()` renders the second as
    `"<T Value>"` (`"<invalid Value>"` for nil), and the two strings are
    compared. The model answers false in that case too, because `Value` does
    not carry Go type names. So `Min(nil)` over `[]any{5, "!"}` returns `"!"`
    in Go (`"!" < "<int Value>"`) and 5 in the model.
  - Quantifiers.Contains and Modification.Remove: without a comparer, Go
    compares `reflect.ValueOf(x).Interface()` of both sides (quantifier.go:39,
    modification.go:138). When T is `any` and either side is nil, `.Interface()`
    on the zero `reflect.Value` panics. When the dynamic type is not
    comparable (a slice, map or func), `==` panics. The model compares
    structurally and returns a plain result.
  - Joins.Join: without a comparer, Go compares two `any` keys with `==`
    (join.go:28), which panics when their dynamic type is not comparable. The
    model's `KeysMatch` compares structurally instead.
  - Go panics when a non-comparable value (a slice) is used as a map key. The
    model compares values structurally instead.
- Go map iteration order. `GroupBy` and `AsLookup` visit keys in an order
  chosen nondeterministically. `Groups.GroupBy` returns that order as a ghost
  out-parameter and states everything about it except its ordering.
- `sort.Sort` is replaced by an insertion sort written over `Sorter.Swap` and
  `Sorter.Less`. It makes no stability claim, and neither does `sort.Sort`.
- Sorting.Sorter.Sort: does not name the exact permutation `sort.Sort` would
  produce, because the library's algorithm is not part of this model.
- Sorting.Sorter.constructor: requires two distinct arrays. `NewSorter` is
  called only on two fresh slices.
- Helpers from package `lingo` (`isEmptyOrNil`, `isNumber`, `isInt`,
  `defaultLessComparer`, ...) are used by retrieve.go and aggregation.go but
  are not part of this model. They are taken to behave like the
  definition package functions of the same name.
- Aggregation.Count: the int64 counter is unbounded here, since wrapping
  would need more than 2^63 elements.
- Retrieve.ElementAtOrNil: `index + 1` overflows at MaxInt64. The model
  leaves this out, because it matters only for sequences longer than 2^63.
- Retrieve.ElementAtOrDefault: the same `index + 1` overflow is left out.
- Enumerables.Range: uses an unbounded counter; the 64-bit counter is
  modelled separately (see Findings).
- Joins.Join: the inner sequence is materialised once with `ToSlice`; the
  model reads it as a sequence taken once before the outer loop.
- Single-use results. `Where` (filter.go:4-19), `Skip`, `SkipWhile`, `Take`
  and `TakeWhile` (patition.go:4-85), `OrderBy`, `OrderByDescending` and
  `Reverse` (sort.go:69-132) start their goroutine when they are called and
  return an Enumerable over that one channel (the `iterator` field). Their
  result can be iterated only once, and `Min`, `Max`, `Sum` and `Count` drain
  the receiver's `iterator` channel the same way. Every other operator (the
  `getIter` field) starts a fresh goroutine on each iteration. The model
  treats every Enumerable as a sequence that can be read again, so it does
  not capture that a second read of an `iterator` result yields nothing.
- Partition.TakeThenSkip and Partition.TakeWhileThenSkipWhile rely on that
  read-again abstraction. In Go, `e.Take(n)` and `e.Skip(n)` both read the
  one channel `e.iterator`, so the two results share its values between
  them, and the concatenation identity is a statement about the sequence,
  not about the two Go results.
- `Intersect` and `Except` deduplicate their output, as the code does: each
  value is emitted at most once. They are not multiset operations.

## Findings

| source | as written | input that shows it | evidently intended | confidence | as-written member | corrected member |
|---|---|---|---|---|---|---|
| enumerable.go:212-229 | the loop `for i <= end { ...; i++ }` on a 64-bit `int` wraps from MaxInt64 to MinInt64, so `i <= end` always holds when end = MaxInt64 | Range(MaxInt64, MaxInt64) yields MaxInt64, MinInt64, MinInt64+1, ... without end | yields start..end inclusive, a single value here | not executed | Enumerables.RangeAsWrittenNeverEnds | Enumerables.Range |
| modification.go:177-198 | the iterator closure decrements the captured parameter `count`, so every later iteration of the same Enumerable starts from the reduced count | [1,2,3,4,5].RemoveRange(1, 2) yields [1,4,5] on the first iteration and [1,2,3,4,5] on the second | every iteration yields [1,4,5] | not executed | Modification.RemoveRangeIteratedTwice | Modification.RemoveRange |
