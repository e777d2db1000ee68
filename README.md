# Apriori frequent-itemset miner, modelled and proved in Dafny

This project models package `algorithm` of goapriori (`algorithm/algorithm.go`), an
implementation of the Apriori algorithm for mining frequent itemsets.

**What the Go package does.**
- `ReadFile` reads a transaction file into a vertical index. Each line is one
  transaction of space-separated integer item ids. The index maps each item to the
  ordered list of transaction numbers that contain the item.
- `SetMinsup` turns a relative minimum support into an absolute count, `minsupCount`.
- `Run` first finds the frequent 1-itemsets among the ids `1..maxItemID`. It then
  calls `nextLevelLargeItemsets` level by level:
  - It tries to merge every pair of k-itemsets of the current level
    (`mergeItemsets`). The merge succeeds when the second itemset is the first with one
    item left out and a larger item appended. The result is the first itemset
    followed by the second's last item.
  - It counts in `candidateItemsets` how often each (k+1)-candidate is produced.
  - When a candidate has been produced k times, it computes the
    candidate's support by chained intersection of the items' transaction lists
    (`itemsetCount`). A (k+1)-candidate `c` is produced once for each of its
    k-subsets in the level other than the prefix `c[..k]`, so k times when all of
    them are present. It keeps the candidate when that support reaches `minsupCount`.
  - Frequent itemsets are recorded in `frequentItemsetCount` under the key
    `ItemsetsToString`, for example `"1,2,3"`.
  - The recursion stops when the new level is empty, or when it holds fewer than
    m + 1 itemsets of size m, because a frequent (m+1)-itemset needs all m + 1 of
    its m-subsets in that level.

**Modules.**
- `Keys`: `ItemsetsToString` as the decimal digits of each id, joined by commas. It
  is proved injective, so the string-keyed maps of the source behave as maps keyed by
  itemsets.
- `Itemsets`: ascending itemsets, lexicographic order, removal of one item, and
  `mergeItemsets` as an in-place method on an array. A function `Merged` specifies that
  method.
- `TransactionIndex`: the index built by `ReadFile` (`IndexOf`), its lists, and
  `maxItemID` (`MaxItemOf`). Support is defined by set membership and, as a reference,
  by scanning the transactions. The module also has the merge walk over two lists
  of `itemsetCount` (`Intersect`, `Intersection`, `Chain`).
- `Candidates`: how often the pass produces each candidate. It is produced at most k
  times, k times exactly when all of its k-subsets are in the level, and its k-th
  production is the pair whose second itemset drops its first item.
- `Mining`: the functional specification of the pass (`Step`, `RowFrom`, `PassFrom`,
  `NextLevel`), the level-1 loop (`SeedFrom`), and the recursion (`MineFrom`, `RunFrom`).
- `Correctness`: the theorems.
  - Level k+1 is exactly the set of frequent (k+1)-itemsets.
  - The stop rule loses nothing.
  - The maps hold exactly the supports of the frequent itemsets.
  - `Run` finds every frequent itemset.
- `Reading`: the input of `ReadFile` as lines of fields. Each field is what
  `strconv.Atoi` returned for it: a number, or an error together with the value that
  came with the error.
- `Algorithm`: the `Apriori` object as a class whose methods update its fields. The
  Go `nil` test on `relatedTransactions` is the field `hasIndex`. Go's linked lists are
  `seq<int>` and `seq<seq<int>>`.

**Where the model follows the code.**
- `Run` scans the ids `1..maxItemID`. It reads `relatedTransactions[i]` for every such
  id, and in Go that dereferences `nil` when an id never occurs. `Run` therefore
  requires every one of those ids to have a list. Item ids below 1 are never mined, and
  `IsFrequentSet` is stated over the ids `1..maxItemID` accordingly.
- `ReadFile` raises `maxItemID` with the value `Atoi` returned before it looks at the
  error. So on a rejected field, `maxItemID` already includes that field's value, but
  the index does not. `ReadFile` keeps every list it built before the error, and
  `lenOfDB` counts the complete lines.
- `mergeItemsets` writes into its third argument even when it returns false. It is
  only called on two different itemsets of equal length; on equal itemsets the Go code
  would read `two` past its end.
- The candidate map never stores the k-th count. A candidate reaching k is checked,
  and the map is left at k − 1.

## Model

| member | source | states |
|---|---|---|
| Keys.ItemsetsToStringInjective | algorithm/algorithm.go:33-35 | two itemsets with the same key string are equal, so keys identify itemsets |
| Keys.ItemsetsToString | algorithm/algorithm.go:33-35 | the key has at least 2n - 1 characters for n items: one digit or more per item and a comma between neighbours |
| Keys.KeyShape | algorithm/algorithm.go:33-35 | the key is empty exactly for the empty itemset and contains a comma exactly when the itemset has two or more items |
| Keys.SingletonKey | algorithm/algorithm.go:135 | the key strconv.Itoa(i) used for level 1 is the key ItemsetsToString gives the 1-itemset [i] |
| Keys.ItoaInjective | algorithm/algorithm.go:135 | different ids have different decimal strings |
| Itemsets.MergeItemsets | algorithm/algorithm.go:192-217 | returns true exactly when, from their first difference p on, one[p] < two[p] and the rest of one is two shifted by one place; then the array holds one followed by two's last item |
| Itemsets.MergeShape | algorithm/algorithm.go:192-217 | a successful merge has k+1 items, starts with one, ends with two's last item, is ascending when its inputs are, removing the first differing position gives back two, and one precedes two lexicographically |
| Itemsets.MergeOfRemovals | algorithm/algorithm.go:192-217 | every ascending (k+1)-itemset is the merge of its prefix with any other of its k-subsets, so every candidate is generated |
| Itemsets.RemoveOrder | algorithm/algorithm.go:152-156 | removing a later item gives a lexicographically smaller subset, which fixes the order in which subsets occur in a level |
| TransactionIndex.IndexOfLookup | algorithm/algorithm.go:66-73 | the list of x holds the numbers of the transactions containing x, in order, once per occurrence, and x has a list exactly when it occurs |
| TransactionIndex.PushAllKeys | algorithm/algorithm.go:66-73 | reading a line adds a list for exactly the items of the line |
| TransactionIndex.OccurrencesSorted | algorithm/algorithm.go:72 | each list is non-decreasing, strictly ascending when no line repeats an item, and holds only numbers below lenOfDB |
| TransactionIndex.IndexOfWellFormed | algorithm/algorithm.go:37-83 | over lines without repeated items every list of the index is strictly ascending within 0..lenOfDB-1 |
| TransactionIndex.MaxItemOfBounds | algorithm/algorithm.go:58-60 | maxItemID is at least 0, bounds every item read and is 0 or one of the items |
| TransactionIndex.SupportIsScan | algorithm/algorithm.go:37-83 | the support computed from the index equals the number of transactions whose lines contain every item |
| TransactionIndex.SupportAntiMonotone | algorithm/algorithm.go:165-172 | a superset has at most the support of any of its subsets, the fact the k-subset count relies on |
| TransactionIndex.IntersectionCorrect | algorithm/algorithm.go:232-267 | the merge walk of two ascending lists yields the ascending list of their common entries |
| TransactionIndex.Intersect | algorithm/algorithm.go:232-267 | the loop computes the merge walk, and on ascending lists its result is ascending and holds exactly the common entries |
| TransactionIndex.SupportByIntersectionCorrect | algorithm/algorithm.go:219-274 | the length of the chained intersection equals the number of transactions holding every item of the itemset |
| Candidates.LevelDistinct | algorithm/algorithm.go:152-156 | in a level two positions hold the same itemset only when they are equal, and position order is lexicographic order |
| Candidates.SeenBound | algorithm/algorithm.go:162-165 | no candidate is produced more than k times during a pass |
| Candidates.SeenAtEnd | algorithm/algorithm.go:152-182 | at the end of a pass a candidate has been produced k times exactly when it is an ascending (k+1)-itemset all of whose k-subsets are in the level |
| Candidates.CompletedBefore | algorithm/algorithm.go:165-170 | a candidate completed earlier in the pass precedes lexicographically any candidate completed later, so the new level comes out sorted |
| Mining.Step | algorithm/algorithm.go:157-178 | one pair adds at most one itemset to the new level, and numFrequentItemsets grows by exactly the number added |
| Mining.StepShape | algorithm/algorithm.go:157-178 | one pair either leaves the new level alone or appends the merged candidate, which then merges and is frequent; the candidate and count maps change only at the merged candidate's key |
| Mining.StepUnmerged | algorithm/algorithm.go:160 | unfolding of Step, for the branch at line 160: a pair that does not merge changes nothing |
| Mining.StepCounted | algorithm/algorithm.go:161-163 | unfolding of Step, for the branch at lines 161-163: a candidate produced fewer than k times has its count raised by one |
| Mining.StepChecked | algorithm/algorithm.go:165-172 | unfolding of Step, for the branch at lines 165-172: a candidate produced for the k-th time is appended with its support exactly when that support reaches minsupCount |
| Mining.PassFromRow | algorithm/algorithm.go:152-182 | a pass is row i of the outer loop followed by the pass from row i + 1 |
| Mining.NextLevelSpec | algorithm/algorithm.go:147-182 | the new level holds exactly the frequent ascending (k+1)-itemsets whose k-subsets are all in the level, in lexicographic order; their supports are recorded and the counter grows by their number |
| Mining.MineFromStep | algorithm/algorithm.go:184-189 | after a pass the recursion stops on an empty level, appends and stops on a level with fewer than k+2 itemsets, and otherwise appends and goes on from the new level |
| Mining.SeedSpec | algorithm/algorithm.go:126-137 | level 1 holds exactly the [i] with 1 <= i <= maxItemID whose list reaches minsupCount, in order, with their list lengths recorded under their keys |
| Correctness.CountIsSupport | algorithm/algorithm.go:166 | over a well-formed index, itemsetCount of an itemset of ids 1..maxItemID is its support |
| Correctness.SeedCorrect | algorithm/algorithm.go:126-137 | level 1 is exactly the set of frequent 1-itemsets |
| Correctness.FrequentPrefix | algorithm/algorithm.go:165-172 | every prefix of a frequent itemset is frequent |
| Correctness.PassCorrect | algorithm/algorithm.go:147-182 | if a level is exactly the frequent k-itemsets, the pass yields exactly the frequent (k+1)-itemsets |
| Correctness.StopRuleSound | algorithm/algorithm.go:186 | if any (k+1)-itemset is frequent then the exact level k holds at least k+1 itemsets, so stopping on fewer loses nothing |
| Correctness.CompleteBound | algorithm/algorithm.go:184-189 | when mining ends no frequent itemset is longer than the number of levels |
| Correctness.MineFromCorrect | algorithm/algorithm.go:147-190 | mining from an exact level yields exact levels, the supports of every frequent itemset found, no other keys, a counter equal to the number found, and no frequent itemset beyond the last level |
| Correctness.RunCorrect | algorithm/algorithm.go:120-145 | the levels are non-empty and sorted; an itemset is frequent exactly when it is in the level of its size; every frequent itemset has its support in the count map, every key belongs to a frequent itemset, and numFrequentItemsets is their total |
| Correctness.RunMonotone | algorithm/algorithm.go:120-190 | lowering minsupCount keeps every itemset found, with the same count, and never shortens the levels |
| Correctness.RunEveryTransaction | algorithm/algorithm.go:120-190 | with minsupCount equal to lenOfDB the run finds exactly the itemsets held by every transaction |
| Correctness.RunOccurring | algorithm/algorithm.go:120-190 | with minsupCount 1 the run finds exactly the itemsets held by some transaction |
| TransactionIndex.SupportAll | algorithm/algorithm.go:219-274 | the support is at most the number of transactions, and equals it exactly when every transaction holds the itemset |
| TransactionIndex.SupportSome | algorithm/algorithm.go:219-274 | the support is positive exactly when some transaction holds the itemset |
| Correctness.IndexSupport | algorithm/algorithm.go:37-83 | over lines without repeated items, the index ReadFile builds is well formed and the support it gives equals the count of lines containing the itemset |
| Reading.FirstBad | algorithm/algorithm.go:55-64 | the field where ReadFile stops is rejected, and every field before it is a number |
| Reading.FirstBadIs | algorithm/algorithm.go:55-64 | that field is the only rejected field with no rejected field before it |
| Reading.FirstBadLine | algorithm/algorithm.go:52-76 | the line where ReadFile stops has a rejected field, and every line before it is all numbers |
| Reading.FirstBadLineIs | algorithm/algorithm.go:52-76 | that line is the only line with a rejected field and no such line before it |
| Reading.ReadField | algorithm/algorithm.go:56-73 | reading one field pushes the transaction number onto that item's list and raises the running maximum to the field's value |
| Reading.ReadLine | algorithm/algorithm.go:52-76 | reading one whole line extends the index and maxItemID exactly as the transactions so far plus that line determine |
| Algorithm.Ceil | algorithm/algorithm.go:88 | the least integer not below x |
| Algorithm.CeilThreshold | algorithm/algorithm.go:88 | a count reaches minsupCount exactly when it reaches lenOfDB * minsup |
| Algorithm.CeilMonotone | algorithm/algorithm.go:88 | a smaller minsup never gives a larger minsupCount, so Correctness.RunMonotone applies to fractions as well as counts |
| Algorithm.Apriori.New | algorithm/algorithm.go:29-31 | every field is at its zero value and there is no index |
| Algorithm.Apriori.ReadFile | algorithm/algorithm.go:37-83 | resets the file name, index, maxItemID and lenOfDB. On an unopenable file it fails with an empty index. On a file of numbers it builds the index and maxItemID of its lines and counts them. On a rejected field it fails, holding the index up to the field before it, a maxItemID that includes the rejected field's value, and lenOfDB counting only complete lines. Mining state is unchanged |
| Algorithm.Apriori.SetMinsup | algorithm/algorithm.go:85-90 | once an index exists, stores minsup and sets minsupCount to Ceil(lenOfDB * minsup); otherwise changes nothing |
| Algorithm.Apriori.GetMinsup | algorithm/algorithm.go:92-94 | returns minsup |
| Algorithm.Apriori.GetFrequentItemsets | algorithm/algorithm.go:96-98 | returns the levels found |
| Algorithm.Apriori.GetFrequentItemsetsCount | algorithm/algorithm.go:100-102 | returns the count map |
| Algorithm.Apriori.GetLenOfDB | algorithm/algorithm.go:104-106 | returns the number of transactions read |
| Algorithm.Apriori.GetNumItems | algorithm/algorithm.go:108-110 | returns the number of items that have a list |
| Algorithm.Apriori.GetNumFrequentItemsets | algorithm/algorithm.go:112-114 | returns the counter of frequent itemsets |
| Algorithm.Apriori.GetMinsupCount | algorithm/algorithm.go:116-118 | returns the absolute threshold |
| Algorithm.Apriori.ItemsetCount | algorithm/algorithm.go:219-274 | returns the length of the list of the first item, intersected in turn with the list of each further item |
| Algorithm.Apriori.MergeStep | algorithm/algorithm.go:157-178 | one turn of the inner loop leaves the candidate map, the new level, the count map and the counter as the specification step does, and touches no other field |
| Algorithm.Apriori.MergeRow | algorithm/algorithm.go:153-179 | the inner loop over j computes the specification's row i |
| Algorithm.Apriori.MergeLevel | algorithm/algorithm.go:148-182 | the two loops compute the specification's pass, so the new level has the contents NextLevelSpec describes |
| Algorithm.Apriori.NextLevelLargeItemsets | algorithm/algorithm.go:147-190 | the levels, count map and counter become what mining from the level yields, and every other field is unchanged |
| Algorithm.Apriori.Run | algorithm/algorithm.go:120-145 | with transactions and a non-zero minsup, the fields become the result of mining from level 1. Over a well-formed index the levels hold exactly the frequent itemsets, by size, with their supports in the count map, and numFrequentItemsets is their total. Otherwise nothing changes |

## Left out

- File I/O is not modelled. `ReadFile` receives the file's content already split into
  lines and fields, or `None` when the file cannot be opened. The `os.Open` call and the
  `defer content.Close()` are not modelled for the same reason.
- `strings.Split` on a single space is not modelled. An empty line or a doubled space
  gives an empty field, which `Atoi` rejects; the model represents it as a `Bad` token.
- The decimal parsing and clamping inside `strconv.Atoi` is not modelled. Each field
  arrives as the value `Atoi` returned, marked as a number or an error.
- `scanner.Err()` is not modelled. A read or scan error after the last line is I/O.
  The scanner's limit on line length is I/O as well.
- `float64` arithmetic is not modelled: `minsup` is a real number. `Run`'s test
  `minsup != 0.0` is kept.
- Algorithm.Apriori.SetMinsup: states `minsupCount == Ceil(lenOfDB * minsup)` over
  the reals. The `float64` rounding of the product and the truncating `int`
  conversion are not modelled, because the model has no floating point.
- The `valuOfMinsup` field is not modelled: the package never reads or writes it.
- The capacity constants `defaultNumFrequentItemset` and
  `defaultNumFrequentItemsetMaxLen` are not modelled: they only size allocations.
- References to `container/list` values are not modelled (lists are values).
  `GetFrequentItemsets` and `GetFrequentItemsetsCount` return copies rather than
  aliases of the object's own lists and map.
- `ItemsetsToString` produces the `fmt.Sprint` text only for itemsets. That is the
  digits of each id, with a `-` for a negative id, joined by commas. No other formatting
  of `fmt.Sprint` is modelled.
- The body of `nextLevelLargeItemsets` is split into three methods: `MergeStep` for one
  turn of the inner loop, `MergeRow` for the inner loop, and `MergeLevel` for the outer
  loop. The recursion stays in `NextLevelLargeItemsets`. Together they run the same
  statements in the same order.
- Algorithm.Apriori.Run: requires every id `1..maxItemID` to have a list in the
  index, because the Go code would dereference `nil` on a missing id.
- Algorithm.Apriori.Run: the promise that every frequent itemset is found, and that the count map holds
  its support, is stated only over a well-formed index. Well-formed means every list is
  strictly ascending within `0..lenOfDB-1`. That is what `ReadFile` builds when no line
  repeats an item (`Correctness.IndexSupport`). For arbitrary indexes `Run` is stated
  only as equal to the specification functions.
- Itemsets.MergeItemsets: requires two different itemsets of equal length and an
  output array one longer. This is how the only caller uses it, and on equal itemsets
  the Go code would index out of range.
