# Four contrib modules, modelled and proved in Dafny

The project models the data-structure core of four PostgreSQL extension modules kept under
`contrib/`: the query language and the index keys of **intarray**, the packed maps of **hstore**,
the truncated variable-length keys of **btree_gist**, and the path order of **ltree**. Each of
them has a fast form (postfix items with jumps, compressed or hashed keys, a byte layout, cut
prefixes) that has to agree with something simple (a formula, a set of integers, a map, an order).
The proofs say where it does, for every input, and where it does not they give the exact condition.

To check all files together: `dafny verify dfyconfig.toml`. Every lemma carries
`{:induction false}`: inductions are written out.

## Layout

| files | what they hold |
|---|---|
| `Options`, `Int32`, `Doubling`, `Sorting`, `Lex` | optional values; 32- and 16-bit wrap-around and the allocation limit; buffers that double; the library sort; `memcmp` order and common prefixes |
| `QuerySyntax`, `QueryParse`, `QueryText`, `QuerySpell`, `QueryEval`, `QueryIndex`, `QueryPrint` | intarray boolean queries: grammar, operator-stack compiler, tokenizer, how a text spells an expression, links and evaluation, use in GiST and GIN, printing |
| `IntTool`, `RangeKeys`, `RangeOptimal`, `SetKeys` | intarray set operations, range compression, its optimality, trees of set keys |
| `Signatures`, `IntBig`, `HStoreGist` | bit signatures, page splits, and the searches built on them |
| `VarKeys` | btree_gist keys over byte strings, cut to a prefix |
| `LTree` | ltree paths: order, ancestors, search bounds |
| `HStoreLayout`, `HStoreBuild`, `HStoreMap` | the byte layout of an hstore, packing it, the map it stands for |
| `HStoreUnique`, `HStoreFind`, `HStoreOps`, `HStoreCmp` | sorting and dropping duplicates, lookups, deletions and concatenation, the btree order |
| `HStoreText`, `HStoreSpell`, `HStoreList`, `HStoreEscape`, `HStoreParser`, `HStorePrint`, `HStoreIO` | the text of an hstore: scanning, how a text spells strings and lists of pairs, escaping, parsing, printing, both together |
| `HStoreCompat`, `HStoreUpgrade` | the conversion from the older layout, and the choice between the layouts |

Byte strings are sequences of integers with a range predicate. Hash functions are arbitrary.
`qsort` is a method whose contract only promises some sorted rearrangement. Errors raised by
`elog` and `ereport` are results, and so are allocations beyond `MaxAllocSize` wherever a size
depends on the data, and arrays of more than 134217727 elements, which may not be asked for
their length; the exceptions are named at the end. A packed hstore `h`
stands for a map `m` when `HStoreMap.Denotes(h, m)`: its bytes are the layout of the list of the
map's pairs in key order. Sizes are those of a 64-bit build, words are stored low byte first, and
signed arithmetic wraps, as PostgreSQL is compiled.

## What the proofs found

- A page split in btree_gist cuts both halves to one length. On inner entries that can lose a
  value: `VarKeys.SplitLosesExample` runs the split on four small pages, after which an equality
  search finds a stored value in neither half. `VarKeys.SplitCoversIff` says exactly when a half
  still covers its entries, and `VarKeys.SplitFindsIff` exactly when no search misses a value.
  Unions and leaf splits never lose anything.
- `findoprnd` stores its link in 16 bits. A link is right exactly when the right operand has at
  most 32767 items (`QueryEval.LinksTrueIff`); a longer one is read without complaint, for example
  `0 | 1 & 1 & ... & 1` with 16385 ones, and its link then leaves the item array
  (`QueryPrint.LongQueryAccepted`, `QueryEval.LongRightOperand`).
- A query prints exactly when its text is shorter than 2^29 - 1 characters, because the output
  buffer only doubles (`QueryPrint.BqarrOut`); `QueryPrint.LongTextRefused` has a text that is read
  as a query that does not.
- Range compression is optimal exactly when all neighbouring differences fit in 32 bits: a
  difference that overflows looks negative and is closed first (`RangeOptimal.OptimalIff`,
  `RangeOptimal.OverflowExample`).
- An integer set of 200 elements or more can be compressed exactly when twice its length is an
  allowed array length, and keys can be united exactly when all of them together are
  (`SetKeys.GIntCompress`, `SetKeys.GIntUnion`, `SetKeys.TooLongExample`): the doubled array and the
  concatenation are asked for their lengths.
- A compressed integer set can be read back exactly when its greatest element is below 2147483647
  and its ranges fit in one allocation (`SetKeys.CompressAndRead`). The counter wraps at
  2147483647, so that a key ending there is written without end (`SetKeys.EndlessExample`). A key
  of more than 134217727 integers is read back, and the test on it is an error
  (`SetKeys.GIntConsistent`).
- A contained-by search finds an array below every inner key of every tree exactly when the array
  is not empty, over range keys as over signatures (`SetKeys.ContainedByIff`,
  `IntBig.ContainedByIff`).
- Above the leaves the index tests prune all they can: the test on a key is true exactly when some
  value that may lie below it satisfies the query (`SetKeys.PrunesIff`, `IntBig.SignPrunesIff`,
  `HStoreGist.PrunesIff`, and with strict comparisons taken as not strict `VarKeys.PrunesIff` and
  `LTree.PrunesIff`). Boolean queries are the exception, because a negation is taken as true: no
  array satisfies `1 & !1`, and the test on the key {1} is true (`SetKeys.NegationPasses`,
  `QueryIndex.ExecuteIsRelaxed`).
- The GIN search mode is the narrowest that finds every match, unless a negation is itself negated:
  `!(!1)` is searched for in the whole index, although every match has the value 1
  (`QueryIndex.ModeLeast`, `QueryIndex.NestedNegation`).
- Escaping is as short as it can be: of all the bytes that are read as a string between quotes, the
  escaped string is the only shortest (`HStoreEscape.EscShortest`).
- Printing an hstore and reading the text gives the same bytes exactly when it has at most 2^24
  pairs; beyond that the parser's array of pairs cannot be doubled any more
  (`HStoreIO.RoundTrip`, and `HStoreIO.RoundTripFails` for an hstore with one pair more).
- A value in the older hstore layout is taken for one in the newer, and its first value turns from
  null to a string, exactly when it is shorter than 32768 bytes and the length stored for that null
  is 32768 or more (`HStoreUpgrade.EarlyIff`, `HStoreUpgrade.Upgrade`); `HStoreUpgrade.LeftOverExample`
  has the bytes of one.
- The scaled result of comparing two ltree paths overflows exactly when one is compared with an
  ancestor 14654 levels or more above it (`LTree.ScaledFitsIff`), and its sign is wrong exactly at
  the differences in levels that `LTree.LosesSign` lists (`LTree.SignIff`).

## Model

| member | source | states |
|---|---|---|
| `QueryParse.FactorCompiled` | contrib/intarray/_int_bool.c:153-224 | the operator stack compiles a negation, number or parenthesis to its postfix items, or reports that 16 stacked operators are exceeded, for every stack and rest |
| `QueryParse.ConjCompiled` | contrib/intarray/_int_bool.c:153-224 | the same for a conjunction |
| `QueryParse.ExprCompiled` | contrib/intarray/_int_bool.c:153-224 | the same for a disjunction |
| `QueryParse.ExprClosed` | contrib/intarray/_int_bool.c:200-223 | at a closing parenthesis or the end, exactly the postfix form of the expression has been written |
| `QueryParse.PolExact` | contrib/intarray/_int_bool.c:153-224 | compiling succeeds if and only if the tokens are an expression of the grammar within the depth limit, and then yields its postfix form |
| `QueryParse.NegationsFit` | contrib/intarray/_int_bool.c:177-189 | sixteen negations in a row are within the depth limit, seventeen are not |
| `QueryText.StreamShaped` | contrib/intarray/_int_bool.c:48-131 | every text tokenizes to operands and operators in alternation, with parentheses counted, ending in an end or an error |
| `QueryText.WorkState.ReadOperand` | contrib/intarray/_int_bool.c:86-105 | reads one number and leaves the text behind it: `QuerySpell.NumberRead` says which |
| `QueryText.WorkState.GetToken` | contrib/intarray/_int_bool.c:48-131 | the token, the remaining text, the state and the parenthesis count of one call |
| `QueryText.WorkState.PushQuery` | contrib/intarray/_int_bool.c:136-146 | appends one item |
| `QueryText.WorkState.EmitTight` | contrib/intarray/_int_bool.c:170-175 | pops the pending `&` and `!` operators and writes them in stack order |
| `QueryText.WorkState.TakeOperator` | contrib/intarray/_int_bool.c:177-189 | writes an or at once on a non-empty stack, otherwise stacks the operator or fails at depth 16 |
| `QueryText.WorkState.MakePol` | contrib/intarray/_int_bool.c:153-224 | the recursive, stack-driven method computes the compilation of the remaining token stream |
| `QuerySpell.StrtolPlaces` | contrib/intarray/_int_bool.c:97-99 | the value of every numeral, by its places: base 8 behind a leading zero, base 10 otherwise, with its sign |
| `QuerySpell.NumberRead` | contrib/intarray/_int_bool.c:86-105 | a numeral is read as its value whatever follows it but a digit, if and only if it has at most 15 characters, fits in 32 bits and does not end the text within a parenthesis |
| `QuerySpell.SpelledStream` | contrib/intarray/_int_bool.c:48-131 | tokens spelled with any number of spaces between them, none included, are read as those tokens |
| `QuerySpell.StreamSpelled` | contrib/intarray/_int_bool.c:48-131 | a text that is read to its end is such a spelling |
| `QuerySpell.TokensIff` | contrib/intarray/_int_bool.c:48-131 | a text tokenizes to an expression if and only if it spells it |
| `QueryEval.FindOprnd` | contrib/intarray/_int_bool.c:440-471 | ends one formula below its start, patches every item of the formula, and touches no other item |
| `QueryEval.LinksTrueIff` | contrib/intarray/_int_bool.c:461-470 | all links are right if and only if no right operand has more than 32767 items |
| `QueryEval.ExecuteIsTruth` | contrib/intarray/_int_bool.c:266-295 | evaluation by offsets is the truth of the formula under every valuation |
| `QueryEval.QueryMeaning` | contrib/intarray/_int_bool.c:266-295 | a linked query evaluates to the truth of its formula |
| `QueryEval.BqarrIn` | contrib/intarray/_int_bool.c:477-543 | a query is built if and only if the text is an expression within the depth and size limits, and the errors otherwise; its items are the linked postfix form of that expression. Said of the text itself: whenever it spells an expression, with or without spaces, the result is the query of that expression's formula or the error for its depth or size, and only such texts give a query |
| `QueryEval.BuildItems` | contrib/intarray/_int_bool.c:511-528 | fills the item array and links it |
| `QueryEval.OneReading` | contrib/intarray/_int_bool.c:136-224 | a postfix list is the form of one formula only |
| `QueryEval.LongRightOperand` | contrib/intarray/_int_bool.c:461-470 | with a right operand of 32768 to 65534 items the stored link points past the array |
| `QueryIndex.ApproximationSound` | contrib/intarray/_int_bool.c:266-306 | evaluation that answers true for every negation never loses an exact match, for any looser check of the values |
| `QueryIndex.ExecuteIsRelaxed` | contrib/intarray/_int_bool.c:266-306 | what that evaluation computes: the formula with every negation taken as true |
| `QueryIndex.PositiveExact` | contrib/intarray/_int_bool.c:266-306 | without negations it is the exact evaluation |
| `QueryIndex.ExecuteCongruent` | contrib/intarray/_int_bool.c:266-295 | evaluation depends only on the answers for values |
| `QueryIndex.CheckConditionArr` | contrib/intarray/_int_bool.c:235-255 | binary search decides membership in a sorted array |
| `QueryIndex.ExecConsistent` | contrib/intarray/_int_bool.c:266-320 | the recursion over items, run on an array |
| `QueryIndex.RequiredIsPresent` | contrib/intarray/_int_bool.c:364-405 | if a value is required, every matching array holds one of the extracted values |
| `QueryIndex.RequiredIff` | contrib/intarray/_int_bool.c:364-405 | a value is required if and only if the approximate evaluation is false where no value is present |
| `QueryIndex.ValuesHold` | contrib/intarray/_int_bool.c:351-357 | where each value of the query lies among the extracted ones |
| `QueryIndex.QueryExtract` | contrib/intarray/_int_gin.c:13-106 | the entries and the search mode for each strategy |
| `QueryIndex.GinBoolConsistent` | contrib/intarray/_int_bool.c:328-362 | with check bits that say membership, equals exact evaluation |
| `QueryIndex.GinConsistent` | contrib/intarray/_int_gin.c:110-181 | the answer and the recheck flag for each strategy |
| `QueryIndex.GinExact` | contrib/intarray/_int_gin.c:13-181 | a matching array is presented to the check and accepted; without recheck an accepted array matches |
| `QueryIndex.ModeLeast` | contrib/intarray/_int_gin.c:33-102 | a search mode presents every matching array if and only if it is at least as wide as the one chosen, unless a negation is negated |
| `QueryIndex.NestedNegation` | contrib/intarray/_int_gin.c:33-41 | of `!(!1)` the mode is wider than needed |
| `QueryIndex.AcceptsIff` | contrib/intarray/_int_gin.c:110-181 | a presented array is accepted if and only if some array with the same of the extracted values satisfies the query |
| `QueryPrint.Infix.Append` | contrib/intarray/_int_bool.c:557-562 | the doubled buffer has room, or fails if and only if the text would pass half the allocation limit |
| `QueryPrint.Infix.Run` | contrib/intarray/_int_bool.c:564-638 | printing from the last item writes the text of the formula and stops below it, and fails for want of room only |
| `QueryPrint.LeadBound` | contrib/intarray/_int_bool.c:564-638 | what is printed before the first number is at most three fifths of the text, so that the fixed room asked for a number never decides |
| `QueryPrint.BqarrOut` | contrib/intarray/_int_bool.c:641-660 | the whole query printed, or an error if and only if the text has 2^29 - 1 characters or more |
| `QueryPrint.DocTruth` | contrib/intarray/_int_bool.c:564-638 | the expression the printed text spells has the truth of the formula under every valuation |
| `QueryPrint.DocShape` | contrib/intarray/_int_bool.c:564-638 | it stacks at most three operators a level and has as many items |
| `QueryPrint.PrintedInOrder` | contrib/intarray/_int_bool.c:564-638 | without its parentheses the printed text has the numbers and operators in the order of the formula |
| `QueryPrint.PrintLexes` | contrib/intarray/_int_bool.c:564-638 | the printed text tokenizes to that expression, whatever follows it |
| `QueryPrint.DecimalBack` | contrib/intarray/_int_bool.c:570-576 | a 32-bit number is printed as a numeral of at most 11 characters, whose value by its places it is, and reads back as itself |
| `QueryPrint.PrintedMeaning` | contrib/intarray/_int_bool.c:564-660 | printing keeps the meaning of every well-formed query |
| `QueryPrint.PrintAndRead` | contrib/intarray/_int_bool.c:477-660 | if and only if the text is shorter than 2^29 - 1 characters, printing a query and reading the text gives a query, which is of the same size and evaluates alike under every valuation |
| `QueryPrint.ConjunctionExample` | contrib/intarray/_int_bool.c:477-660 | `1&2` is stored as the items 1, 2 and `&` with the link -2, and printed as `1 & 2` |
| `QueryPrint.PrintExample` | contrib/intarray/_int_bool.c:564-638 | 1 and either 2 or not 3 is printed as `1 & ( 2 | !3 )` |
| `QueryPrint.LongQueryAccepted` | contrib/intarray/_int_bool.c:440-543 | the text that joins a zero by `or` to a conjunction of 16385 to 32767 ones is accepted, and the last link of the result leaves the array |
| `QueryPrint.LongTextRefused` | contrib/intarray/_int_bool.c:477-660 | a text of 2^25 numbers under 25 nested disjunctions that is read as a query that cannot be printed |
| `QueryPrint.BalancedReads` | contrib/intarray/_int_bool.c:153-224 | nested disjunctions in parentheses are read as the formula they were printed from |
| `IntTool.InnerContains` | contrib/intarray/_int_tool.c:11-44 | the merge decides whether every element of the second set is in the first |
| `IntTool.InnerOverlap` | contrib/intarray/_int_tool.c:46-74 | the merge decides whether two sorted arrays share an element |
| `IntTool.InnerUnion` | contrib/intarray/_int_tool.c:76-131 | strictly increasing, and exactly the elements of both, if and only if the two lengths together are an allowed array length; which error otherwise |
| `IntTool.RoomExact` | contrib/intarray/_int_tool.c:218-235 | a block whose size is counted in 32 bits holds its elements if and only if the true size is within the allocation limit |
| `IntTool.Unique` | contrib/intarray/_int_tool.c:292-313 | drops repetitions in place and loses no element |
| `RangeKeys.Spread` | contrib/intarray/_int_gist.c:189-190 | turns every element into a range of its own, in place from the back |
| `RangeKeys.SomeGapSmall` | contrib/intarray/_int_gist.c:193-205 | while too many ranges remain, some gap is below INT_MAX, so the candidate is refreshed on every pass |
| `RangeKeys.FindCandidate` | contrib/intarray/_int_gist.c:196-202 | finds the smallest gap as 32-bit arithmetic sees it |
| `RangeKeys.CloseGap` | contrib/intarray/_int_gist.c:203-204 | removing two numbers joins two neighbouring ranges and leaves the others |
| `RangeKeys.CompressRanges` | contrib/intarray/_int_gist.c:181-214 | ends with exactly 200 numbers: 100 ordered ranges whose ends are elements, cut at gaps no narrower than any closed one |
| `RangeOptimal.FewOpenGaps` | contrib/intarray/_int_gist.c:181-214 | no cover by n ranges leaves n or more gaps open |
| `RangeOptimal.WideCutsFillLeast` | contrib/intarray/_int_gist.c:194-205 | keeping the widest gaps open fills the fewest integers |
| `RangeOptimal.CompressedIsOptimal` | contrib/intarray/_int_gist.c:181-214 | without overflow the result covers every element and no more integers than any cover by 100 ranges |
| `RangeOptimal.OverflowClosed` | contrib/intarray/_int_gist.c:196-204 | an overflowing difference is the widest gap and is closed |
| `RangeOptimal.BetterCover` | contrib/intarray/_int_gist.c:196-204 | then a smaller cover by as many ranges exists |
| `RangeOptimal.OptimalIff` | contrib/intarray/_int_gist.c:181-214 | the result is optimal if and only if every neighbouring difference fits in 32 bits |
| `RangeOptimal.OverflowExample` | contrib/intarray/_int_gist.c:181-214 | compressing the least integer with the 199 greatest covers 0, and is not optimal |
| `SetKeys.InternalSize` | contrib/intarray/_int_tool.c:276-290 | the number of integers the ranges hold, as a sum in 32 bits has it |
| `SetKeys.WriteRange` | contrib/intarray/_int_gist.c:261-270 | one range is written if and only if it ends below 2147483647 and fits in the block |
| `SetKeys.Decompress` | contrib/intarray/_int_gist.c:261-270 | within its block if and only if the last number is below 2147483647 and the block has room for all, and then strictly increasing, exactly the covered integers |
| `SetKeys.GIntCompress` | contrib/intarray/_int_gist.c:138-214 | short arrays are stored unchanged, others as 100 proper ranges that cover them, if and only if twice the length is an allowed array length; which error otherwise |
| `SetKeys.GIntDecompress` | contrib/intarray/_int_gist.c:216-279 | a stored key is read back if and only if it is short, or ends below 2147483647 and has ranges that fit in one block: itself when short, else all integers its ranges cover; which error otherwise |
| `SetKeys.CompressAndRead` | contrib/intarray/_int_gist.c:138-279 | for every set that compresses, when reading back works, stated on the set's greatest element and the size of the ranges, and that nothing is lost |
| `SetKeys.EndlessExample` | contrib/intarray/_int_gist.c:261-270 | a set of 200 integers up to 2147483647 whose key cannot be read back |
| `SetKeys.StoreAndRead` | contrib/intarray/_int_gist.c:138-279 | what is read back contains what was stored, and equals it below 200 elements |
| `SetKeys.GIntUnion` | contrib/intarray/_int_gist.c:98-133 | the sorted union of the keys, each element once, if and only if all their lengths together are an allowed array length; which error otherwise |
| `SetKeys.TooLongExample` | contrib/intarray/_int_gist.c:98-214 | two keys of 67108864 integers cannot be united, and one such set not compressed |
| `SetKeys.Prepare` | contrib/intarray/_int.h:37-43 | the sorted array without repetitions, or an error if and only if the array is too long to be asked for its length |
| `SetKeys.GIntConsistent` | contrib/intarray/_int_gist.c:33-96 | the answer for every strategy, on leaves and above, or an error if and only if the query, or under a known strategy the key, is too long |
| `SetKeys.PrunesIff` | contrib/intarray/_int_gist.c:33-96 | above the leaves the test is true if and only if some array of elements of the key satisfies the query, not the empty one for contained-by; for boolean queries without negation |
| `SetKeys.NegationPasses` | contrib/intarray/_int_bool.c:266-306 | the test on {1} is true for `1 & !1`, which no array satisfies |
| `SetKeys.GIntSame` | contrib/intarray/_int_gist.c:306-337 | equality of two keys |
| `SetKeys.KeyContains` | contrib/intarray/_int_gist.c:98-279 | in a tree of any height every inner key contains each array below it |
| `SetKeys.NoLostMatch` | contrib/intarray/_int_gist.c:33-133 | at every ancestor of a matching array the test is true, or the error for arrays that are too long, for all strategies, contained-by on non-empty arrays |
| `SetKeys.ContainedByIff` | contrib/intarray/_int_gist.c:82-90 | contained-by is turned away by no inner key of any tree that holds the array if and only if the array is not empty, or the query is an error |
| `SetKeys.EmptyPageBuilt` | contrib/intarray/_int_gist.c:98-133 | the tree that shows the other half: a page with nothing but the empty array |
| `SetKeys.LeafExact` | contrib/intarray/_int_gist.c:33-96 | on leaves the test is the operator itself, and only too long a query is an error |
| `SetKeys.SortedOnce` | contrib/intarray/_int_gist.c:306-337 | a set has one strictly increasing array |
| `Signatures.MakeSign` | contrib/intarray/_intbig_gist.c:141-177 | a bit is set if and only if some value hashes to it |
| `Signatures.UnionKey` | contrib/intarray/_intbig_gist.c:255-266 | ORs a signature into the buffer or reports the all-true key |
| `Signatures.Union` | contrib/intarray/_intbig_gist.c:268-298 | a bit is set if and only if some key has it |
| `Signatures.CompressInner` | contrib/hstore/hstore_gist.c:149-170 | the all-true form keeps every bit |
| `Signatures.BitsBelow` | contrib/intarray/_intbig_gist.c:255-489 | through any number of unions and splits a key has a bit if and only if some value below it hashes to it |
| `Signatures.HemDistCounts` | contrib/intarray/_intbig_gist.c:207-247 | the distance of two keys is the number of bits that just one of them has, all-true ones included |
| `Signatures.Seeds` | contrib/intarray/_intbig_gist.c:359-383 | two different seeds, the most distant pair of the entries that are considered |
| `Signatures.EnlargedBits` | contrib/intarray/_intbig_gist.c:448-479 | a side's key after taking an entry has the bits of both and no others |
| `Signatures.Distribute` | contrib/intarray/_intbig_gist.c:429-480 | each entry of the order joins its own side, if it is a seed, and otherwise the left one if and only if it differs from that side's union in fewer bits than from the other's, with the balance term added; each key is kept as the union of its seed and its side |
| `Signatures.PickSplit` | contrib/hstore/hstore_gist.c:334-496 | for any order of the costs: the entries are dealt that way from the two most distant seeds, each offset goes to exactly one side, both sides are non-empty, and each key has just the bits of the entries on its side |
| `Signatures.SplitPartitions` | contrib/intarray/_intbig_gist.c:327-489 | each offset lands on exactly one side, once |
| `Signatures.UnionBuilt` | contrib/intarray/_intbig_gist.c:268-298 | a node over a union keeps the invariant of the tree |
| `Signatures.SplitBuilt` | contrib/intarray/_intbig_gist.c:327-489 | so does each half of a split page, so that no search loses a match in trees with splits either |
| `IntBig.BitsOverlap` | contrib/intarray/_intbig_gist.c:68-84 | some element of the query has its bit |
| `IntBig.BitsContain` | contrib/intarray/_intbig_gist.c:86-102 | all elements of the query have their bits |
| `IntBig.GIntbigConsistent` | contrib/intarray/_intbig_gist.c:491-601 | the answer for every strategy, on leaves and above, or an error if and only if an array query too long to be asked for its length meets a key that is not all true |
| `IntBig.SignPrunesIff` | contrib/intarray/_intbig_gist.c:491-601 | above the leaves the test is true if and only if the key is all true or some array whose bits it has satisfies the query; for boolean queries without negation |
| `IntBig.SignatureSound` | contrib/intarray/_int_bool.c:257-306 | for any hash function, a query an array satisfies is accepted on every signature that has the array's bits |
| `IntBig.NoLostSignature` | contrib/intarray/_intbig_gist.c:491-601 | no search loses a match at any height: the test is true, or the error for too long a query |
| `IntBig.ContainedByIff` | contrib/intarray/_intbig_gist.c:556-592 | contained-by is turned away by no key above a leaf, in any tree that holds the array, if and only if the array is not empty, or the query is an error |
| `HStoreGist.LeafSign` | contrib/hstore/hstore_gist.c:111-148 | the leaf signature has exactly the bits of the keys and of the values that are not null |
| `HStoreGist.PairsConsistent` | contrib/hstore/hstore_gist.c:513-545 | every key, and every value that is not null, has its bit |
| `HStoreGist.AllConsistent` | contrib/hstore/hstore_gist.c:553-575 | all named keys have their bits, null elements skipped |
| `HStoreGist.AnyConsistent` | contrib/hstore/hstore_gist.c:576-600 | some named key has its bit |
| `HStoreGist.PrunesIff` | contrib/hstore/hstore_gist.c:499-605 | the test is true if and only if the key is all true or some map whose bits it has satisfies the query |
| `HStoreGist.NoLostMap` | contrib/hstore/hstore_gist.c:499-605 | for any hash function and any height, a map that matches is never rejected, for the four strategies |
| `VarKeys.NodeCpLen` | contrib/btree_gist/btree_utils_var.c:120-162 | the length of the longest common prefix of the bounds |
| `VarKeys.BinUnion` | contrib/btree_gist/btree_utils_var.c:233-278 | the join of two keys, or the first key alone |
| `VarKeys.Union` | contrib/btree_gist/btree_utils_var.c:322-358 | the join of all keys, cut behind the common prefix |
| `VarKeys.UnionEnds` | contrib/btree_gist/btree_utils_var.c:322-358 | the bounds are the least lower and the greatest upper one, each cut two bytes behind what the two have in common |
| `VarKeys.TruncateShape` | contrib/btree_gist/btree_utils_var.c:204-229 | cutting keeps prefixes, order and common prefix, and a cut upper bound is two bytes longer than the common prefix |
| `VarKeys.CutCovers` | contrib/btree_gist/btree_utils_var.c:204-229 | a value within the bounds is covered by the cut bounds |
| `VarKeys.JoinCpBound` | contrib/btree_gist/btree_utils_var.c:233-278 | why a cut bound survives the next union: it is long enough |
| `VarKeys.UnionCovers` | contrib/btree_gist/btree_utils_var.c:322-358 | whatever an entry covers, the union covers |
| `VarKeys.FairCovers` | contrib/btree_gist/btree_utils_var.c:204-543 | a union, and a split from which no entry escapes, keep what their entries cover |
| `VarKeys.TreeKeyCovers` | contrib/btree_gist/btree_utils_var.c:204-543 | through any nesting of unions and such splits every value below a key is at least the lower bound and at most the upper or an extension of it |
| `VarKeys.UnionBuilt` | contrib/btree_gist/btree_utils_var.c:322-358 | every union of such trees is one |
| `VarKeys.LeafSplitBuilt` | contrib/btree_gist/btree_utils_var.c:458-547 | so is each half of a split leaf page |
| `VarKeys.CoveredIsConsistent` | contrib/btree_gist/btree_utils_var.c:553-611 | a covered match is accepted, for all six strategies |
| `VarKeys.PrunesIff` | contrib/btree_gist/btree_utils_var.c:553-611 | above the leaves the test is true if and only if a value the key cannot exclude satisfies the strategy, a strict one taken as not strict; for inequality, if and only if a value between the bounds does |
| `VarKeys.NoLostMatch` | contrib/btree_gist/btree_utils_var.c:553-611 | no inner key of such a tree rejects a subtree holding a match, and on leaves the test is exact |
| `VarKeys.PickSplit` | contrib/btree_gist/btree_utils_var.c:458-547 | the sorted entries are halved, and the two keys are the joins of the halves, cut to one length |
| `VarKeys.SideIsJoinAll` | contrib/btree_gist/btree_utils_var.c:511-527 | the running union of a half is the join of its keys |
| `VarKeys.SplitLengthLeast` | contrib/btree_gist/btree_utils_var.c:529-543 | the length both halves are cut to is the least one behind the common prefixes of both |
| `VarKeys.SplitCoversIff` | contrib/btree_gist/btree_utils_var.c:529-543 | a cut half covers all its entries cover if and only if no open upper bound is left behind by a longer one whose rest is not all 0xFF |
| `VarKeys.SplitFindsIff` | contrib/btree_gist/btree_utils_var.c:529-611 | no search under any strategy misses a value in a cut half if and only if that holds or the lowest bound is a prefix of the highest |
| `VarKeys.SplitPage` | contrib/btree_gist/btree_utils_var.c:458-547 | the split of any page of ordered keys: for each half, exactly when no search misses a value of its entries |
| `VarKeys.SplitLoses` | contrib/btree_gist/btree_utils_var.c:529-543 | where an entry's bound is left behind, a value of that entry lies beyond the half's upper bound and does not extend it |
| `VarKeys.SplitMisses` | contrib/btree_gist/btree_utils_var.c:529-611 | and an equality search for such a value is turned away |
| `VarKeys.SplitLosesExample` | contrib/btree_gist/btree_utils_var.c:458-547 | the split run on four pages: two entries go to each half, and an equality search for a stored value is turned away by both |
| `VarKeys.ExampleKeys` | contrib/btree_gist/btree_utils_var.c:322-358 | the keys of those pages are unions of leaf entries |
| `VarKeys.ExampleArranged` | contrib/btree_gist/btree_utils_var.c:443-456 | and they come in the order of the sort |
| `VarKeys.LeafSplitCovers` | contrib/btree_gist/btree_utils_var.c:458-547 | a split of leaf entries loses nothing |
| `LTree.LtreeCompare` | contrib/ltree/ltree_op.c:41-67 | the sign of the scaled difference is the order of paths by level |
| `LTree.CompareBefore` | contrib/ltree/ltree_op.c:41-67 | the order is that of the dictionary over labels, and labels are ordered as in the dictionary over bytes |
| `LTree.ScaledFitsIff` | contrib/ltree/ltree_op.c:41-67 | of stored paths the scaled difference fits in an int unless the second is an ancestor 14654 levels or more above the first |
| `LTree.SignIff` | contrib/ltree/ltree_op.c:41-67 | of stored paths the sign of the int is their order if and only if the second is not an ancestor of the first at one of the listed differences in levels |
| `LTree.PathTotal` | contrib/ltree/ltree_op.c:41-67 | the order is total and antisymmetric |
| `LTree.PathTrans` | contrib/ltree/ltree_op.c:41-67 | and transitive, strictly where one step is |
| `LTree.TruncMonotone` | contrib/ltree/ltree_gist.c:454-477 | cutting to n levels keeps the order |
| `LTree.InnerIsParent` | contrib/ltree/ltree_op.c:135-157 | true if and only if the path is a prefix |
| `LTree.LcaInner` | contrib/ltree/ltree_op.c:405-468 | the longest common prefix strictly shorter than every path, none if a path is empty |
| `LTree.MostSharedIsLowest` | contrib/ltree/ltree_op.c:405-468 | every common proper ancestor lies above it |
| `LTree.Union` | contrib/ltree/ltree_gist.c:150-232 | bounds that are the least and greatest of the bounds united |
| `LTree.Query.GistIsParent` | contrib/ltree/ltree_gist.c:425-443 | true if and only if some ancestor of the query is within the bounds; the query is restored |
| `LTree.GistIsChild` | contrib/ltree/ltree_gist.c:454-477 | true if and only if some descendant of the query is within the bounds |
| `LTree.ChildIff` | contrib/ltree/ltree_gist.c:454-477 | why the bounds cut to the query's length decide that |
| `LTree.LtreeConsistent` | contrib/ltree/ltree_gist.c:606-669 | the answer for every ordering and hierarchy strategy, on leaves and above |
| `LTree.BoundedIsConsistent` | contrib/ltree/ltree_gist.c:606-669 | above the leaves a match within the bounds is accepted, for every ordering and hierarchy strategy |
| `LTree.PrunesIff` | contrib/ltree/ltree_gist.c:606-669 | above the leaves the test is true if and only if a path within the bounds satisfies the strategy, a strict one taken as not strict |
| `LTree.KeyEncloses` | contrib/ltree/ltree_gist.c:150-232 | through any number of unions a key bounds every path below it |
| `LTree.NoLostPath` | contrib/ltree/ltree_gist.c:606-669 | no subtree holding a match is rejected, and on leaves the test is the operator itself |
| `HStoreLayout.EncodeDecodes` | contrib/hstore/hstore.h:23-30 | flags and end position survive packing into 32 bits |
| `HStoreLayout.PairAt` | contrib/hstore/hstore.h:27-83 | the access macros read every pair back from the layout |
| `HStoreLayout.RepDecodes` | contrib/hstore/hstore.h:74-83 | one hstore holds one list of pairs |
| `HStoreLayout.RepUnique` | contrib/hstore/hstore.h:74-140 | one list has one layout, to the byte |
| `HStoreLayout.SmallestPair` | contrib/hstore/hstore.h:19-62 | the eight bytes of the hstore with one empty key and no value |
| `HStoreBuild.CopyTo` | contrib/hstore/hstore.h:99-106 | copies two adjoining strings and stores two entries, nothing else |
| `HStoreBuild.AddTo` | contrib/hstore/hstore.h:112-126 | copies a key and a value, if there is one, and stores two entries |
| `HStoreBuild.Builder.CopyItem` | contrib/hstore/hstore.h:99-106 | appends one pair to the hstore under construction |
| `HStoreBuild.Builder.AddItem` | contrib/hstore/hstore.h:112-126 | appends one pair to the hstore under construction |
| `HStoreBuild.Builder.Finalize` | contrib/hstore/hstore.h:129-140 | the result is the exact layout of the pairs, one first flag, the strings shifted down, the size exact |
| `HStoreBuild.HstorePairs` | contrib/hstore/hstore_io.c:374-401 | packs a list exactly, or fails if and only if it is beyond the allocation limit |
| `HStoreMap.ListUnique` | contrib/hstore/hstore_io.c:281-351 | a map has one list in key order |
| `HStoreMap.KeyBefore` | contrib/hstore/hstore_io.c:281-303 | a shorter key comes first, keys of one length come in dictionary order |
| `HStoreMap.DenotesUnique` | contrib/hstore/hstore_op.c:1234-1255 | two packed maps are equal if and only if their bytes are |
| `HStoreUnique.Qsort` | contrib/hstore/hstore_io.c:325 | a rearrangement of the items in the order of comparePairs |
| `HStoreUnique.CompareTrans` | contrib/hstore/hstore_io.c:281-303 | the comparison of pairs is transitive, so sorting makes sense |
| `HStoreUnique.Compact` | contrib/hstore/hstore_io.c:326-350 | keeps the first item of every run of equal keys, in place, and adds up exactly their bytes |
| `HStoreUnique.FirstsDedup` | contrib/hstore/hstore_io.c:326-350 | of sorted items that leaves one item of each key, strictly increasing |
| `HStoreUnique.UniquePairs` | contrib/hstore/hstore_io.c:311-351 | strictly increasing keys, the same key set, each kept item one of the input, and the exact number of bytes to be packed |
| `HStoreUnique.ArrayToPairs` | contrib/hstore/hstore_op.c:73-126 | the keys an array names, sorted, each once; too long an array is an error |
| `HStoreFind.SameVal` | contrib/hstore/hstore_op.c:999-1003 | values are equal, null equal to null only |
| `HStoreFind.FindKey` | contrib/hstore/hstore_op.c:36-71 | from a valid lower bound, finds the key if and only if the map has it, and leaves a bound valid for every higher key |
| `HStoreFind.NextBound` | contrib/hstore/hstore_op.c:30-35 | the bound one search leaves is valid for the next, higher key |
| `HStoreFind.ExistsAny` | contrib/hstore/hstore_op.c:163-194 | true if and only if the map has some named key |
| `HStoreFind.ExistsAll` | contrib/hstore/hstore_op.c:197-228 | true if and only if the map has all named keys |
| `HStoreFind.Contains` | contrib/hstore/hstore_op.c:966-1011 | true if and only if every pair of the template is a pair of the map |
| `HStoreFind.Slice` | contrib/hstore/hstore_op.c:633-692 | the packed form of the map restricted to the named keys |
| `HStoreOps.Delete` | contrib/hstore/hstore_op.c:246-290 | the packed form of the map without the key |
| `HStoreOps.DeleteArray` | contrib/hstore/hstore_op.c:293-369 | the packed form of the map without the named keys |
| `HStoreOps.DeleteHstore` | contrib/hstore/hstore_op.c:372-469 | the packed form of the map without the pairs the other map has too |
| `HStoreOps.Concat` | contrib/hstore/hstore_op.c:472-567 | the packed form of the first map overridden by the second, or an error if and only if both sizes together pass the allocation limit |
| `HStoreOps.CopyWhole` | contrib/hstore/hstore.h:143-147 | setting the size from the last entry leaves an exact hstore as it is |
| `HStoreCmp.HstoreCmp` | contrib/hstore/hstore_op.c:1086-1164 | -1, 0 or 1; -1 if and only if the first has no pairs and the second has, or its strings come first in the dictionary, or of equal strings it has fewer pairs, or of as many pairs the first entry that differs ends earlier, or as early and is not null; 1 the other way round; 0 if and only if the maps are equal |
| `Lex.CmpBefore` | contrib/hstore/hstore_op.c:1117-1128 | `memcmp` and then the lengths is the order of the dictionary: the first byte that differs decides, else the shorter string comes first |
| `HStoreCmp.OrderFlip` | contrib/hstore/hstore_op.c:1086-1164 | antisymmetric |
| `HStoreCmp.OrderTrans` | contrib/hstore/hstore_op.c:1086-1164 | transitive, strictly where one step is |
| `HStoreCmp.OrderZero` | contrib/hstore/hstore_op.c:1086-1164 | zero if and only if the maps are equal, and then the bodies are identical |
| `HStoreCmp.SizeExact` | contrib/hstore/hstore_op.c:1242-1251 | the size assertion of hashing holds of every packed map |
| `HStoreParser.HSParser.Store` | contrib/hstore/hstore_io.c:42-51 | the doubled word buffer always has room, up to the allocation limit |
| `HStoreParser.HSParser.GetVal` | contrib/hstore/hstore_io.c:60-173 | the five-state loop finds the word, its quoting and where it stopped, no word, or an error; `HStoreSpell.SpellingRead` and `HStoreSpell.ValueRead` say which words |
| `HStoreParser.HSParser.Parse` | contrib/hstore/hstore_io.c:182-279 | the five-state loop reads the pairs of the text or fails |
| `HStoreSpell.SpellingRead` | contrib/hstore/hstore_io.c:60-173 | a string spelled in quotes or bare, any of its characters escaped, behind any white space, is read as its characters, with its quoting and the exact stopping place |
| `HStoreSpell.ValueRead` | contrib/hstore/hstore_io.c:60-173 | every word that is read is spelled there in that way |
| `HStoreSpell.NothingRead` | contrib/hstore/hstore_io.c:60-173 | no word is found if and only if nothing but white space is left |
| `HStoreList.ListParsed` | contrib/hstore/hstore_io.c:182-279 | a list of pairs spelled from a place on, with any white space around `=>` and commas, is read as its pairs, a bare NULL in any case as no value; one pair too many is an error |
| `HStoreList.ListRead` | contrib/hstore/hstore_io.c:182-279 | every text that is read is such a spelling |
| `HStoreList.ParseIff` | contrib/hstore/hstore_io.c:182-279 | a text parses to a list of pairs if and only if it spells it, and it has at most 2^24 pairs |
| `HStoreEscape.ReadExample` | contrib/hstore/hstore_io.c:60-279 | `a=>b` is read as the key a with the value b |
| `HStoreEscape.PrintedIsParsed` | contrib/hstore/hstore_io.c:182-279 | the parser reads from the printed text exactly its pairs, in order, if and only if there are at most 2^24 |
| `HStoreText.ParseWithin` | contrib/hstore/hstore_io.c:182-279 | parsed strings never take more bytes than the text |
| `HStorePrint.Cpw` | contrib/hstore/hstore_io.c:1104-1116 | writes the escaped string, within twice its length, behind what was there; `HStoreEscape` says what the escaped string is |
| `HStoreEscape.EscLength` | contrib/hstore/hstore_io.c:1104-1116 | the escaped string is longer by the number of quotes and backslashes in the string |
| `HStoreEscape.EscPlain` | contrib/hstore/hstore_io.c:1104-1116 | a string without them is its own escaped string |
| `HStoreEscape.EscShortest` | contrib/hstore/hstore_io.c:1104-1116 | of all bytes that are read as the string between quotes, the escaped string is the only shortest |
| `HStoreEscape.EscRead` | contrib/hstore/hstore_io.c:1104-1116 | and it is one of them |
| `HStorePrint.BufferLength` | contrib/hstore/hstore_io.c:1134-1152 | the bound of the buffer, which never leaves 32 bits |
| `HStorePrint.HstoreOut` | contrib/hstore/hstore_io.c:1118-1186 | the text of the pairs within the buffer, or an error if and only if the bound passes the allocation limit |
| `HStoreEscape.RestJoin` | contrib/hstore/hstore_io.c:1157-1182 | the text of two lists together is the two texts with a comma and a space between them |
| `HStoreEscape.PrintExample` | contrib/hstore/hstore_io.c:1118-1186 | a with the value b and c without one are printed as `"a"=>"b", "c"=>NULL` |
| `HStoreIO.HstoreIn` | contrib/hstore/hstore_io.c:404-421 | a map with every parsed key and, for each, one of its parsed values: packed, or an error if and only if its packed form is beyond the allocation limit; an error for every text that does not parse. Said of the text itself: it is refused unless it spells a list of at most 2^24 pairs, and each key of a list it spells gets the value of one of that key's pairs |
| `HStoreIO.TextReads` | contrib/hstore/hstore_io.c:1118-1186 | the text of a map without NUL bytes is fit to be read, and parses to its pairs |
| `HStoreIO.RoundTrip` | contrib/hstore/hstore_io.c:404-421 | printing gives the text of the pairs, or an error if and only if the bound passes the allocation limit; reading the text gives back the same bytes if there are at most 2^24 pairs, and fails otherwise |
| `HStoreIO.RoundTripFails` | contrib/hstore/hstore_io.c:190-212 | an hstore of 2^24 + 1 pairs that packs and prints, and whose text is refused |
| `HStoreCompat.ValidOldFormat` | contrib/hstore/hstore_compat.c:170-229 | accepts if and only if key lengths rise, positions are contiguous and entries and strings fit in the block; says exact if and only if they fill it |
| `HStoreCompat.SizeUnsigned` | contrib/hstore/hstore_compat.c:220-228 | though the sum may wrap as an int, compared as an unsigned number it is the true size |
| `HStoreCompat.OldReads` | contrib/hstore/hstore_compat.c:99-106 | every entry of the older layout is read from its eight bytes |
| `HStoreCompat.UpgradeEntry` | contrib/hstore/hstore_compat.c:334-347 | overwrites one old entry with its two new ones and leaves the entries still to be read |
| `HStoreCompat.UpgradeOld` | contrib/hstore/hstore_compat.c:325-353 | the result is the exact new layout of the key, value and null list the old value held |
| `HStoreUpgrade.ValidNewFormat` | contrib/hstore/hstore_compat.c:118-162 | accepts if and only if the flag is set, there are no pairs, or entries rise, keys do not shorten and entries and strings fit in the block |
| `HStoreUpgrade.PackedIsNew` | contrib/hstore/hstore_compat.c:118-162 | every hstore that is packed passes the test of the newer layout, with or without its flag, and fills its block |
| `HStoreUpgrade.FixedReads` | contrib/hstore/hstore_compat.c:257-271 | setting count and size keeps the entries and every string within the block |
| `HStoreUpgrade.EarlyIff` | contrib/hstore/hstore_compat.c:243-247 | of the values in the older layout exactly those are returned untouched that are short and begin with a null whose stored length is 32768 or more |
| `HStoreUpgrade.EarlyReads` | contrib/hstore/hstore_compat.c:243-247 | and then the first null is no longer read as one |
| `HStoreUpgrade.Upgrade` | contrib/hstore/hstore_compat.c:235-356 | the result for every value: untouched, converted to the exact layout of its pairs, flagged, or an error; a value in the older layout keeps its pairs if and only if it is not returned untouched |
| `HStoreUpgrade.LeftOverExample` | contrib/hstore/hstore_compat.c:243-247 | nine bytes that hold a key without a value and read as that key with an empty value |

## Left out

- Datum, varlena headers, TOAST, memory contexts and the function-call interface: values are sequences and arrays; an allocation fails when it is beyond `MaxAllocSize`, and freeing is not modelled.
- Signatures.Distribute: works for any order of the entries, of which the sort by cost is one, with a balance term over the reals; the penalty functions are not modelled.
- VarKeys.PickSplit: entries come already sorted; bit keys, which convert leaves to inner form, and multibyte text are not modelled.
- VarKeys.NoLostMatch: is about trees of unions and of splits that let no entry escape, as leaf splits do; for other splits on inner entries it fails, and `VarKeys.SplitFindsIff` says when.
- SetKeys.NoLostMatch: leaf arrays have fewer than 200 elements, and the keys on the way are ones that can be read back; `SetKeys.GIntDecompress` says which.
- LTree.LtreeCompare: works over unbounded integers, with a `memcmp` that answers -1, 0 or 1; `LTree.ScaledFitsIff` says where the int32 product of the C code is the same.
- QueryEval.BqarrIn: the stack-depth error that deeply nested or long texts raise in `makepol` and `findoprnd` (check_stack_depth) is not modelled, because the limit depends on the server's configuration.
- QueryEval.ExecuteIsTruth: evaluation raises no stack-depth error either.
- QueryPrint.Infix.Run: nor does printing.
- QueryPrint.BqarrOut: nor does, therefore, the output function.
- QueryPrint.PrintAndRead: nor do printing and reading together.
- IntTool.InnerContains: the error for arrays beyond 134217727 elements is raised by its caller, `SetKeys.GIntConsistent`.
- IntTool.InnerOverlap: the same.
- SetKeys.GIntSame: the same.
- QueryIndex.QueryExtract: does not model that error for the array a query is extracted from, because nothing else depends on it.
- HStoreIO.HstoreIn: which of several values of one key is kept depends on the library's sort, so the contract promises one of them.
- HStoreParser.HSParser.GetVal: white space is that of the C locale, and the case of NULL is folded for ASCII letters only.
- HStoreUnique.UniquePairs: the byte count is an unbounded integer; `HStoreIO.HstoreIn` shows that it fits, from the length of the text.
- HStoreUpgrade.Upgrade: the entries the count announces are taken to be there, as the code does before any test; the copy made of a shared value and the warning for values valid in both layouts are not modelled.
- hstore lookups that return text, arrays or sets of rows, and conversions to and from JSON, records, Perl and Python: easy members or wrappers over code elsewhere.
- hstore_recv and hstore_send, the hstore GIN support, and hstore subscripting of arrays: not modelled.
- intarray sorting, slicing, concatenation and inner_int_inter: they would only add easy members.
- ltree signature keys for lquery and ltxtquery, and the lquery matcher: not modelled.
- btree_gist for other types, cube, isn, fuzzystrmatch and the extensions that do input and output: not modelled.
