# Proofs about the MergeTree engine

A model of six parts of the MergeTree storage engine, with proofs of what they are for. `dafny verify dfyconfig.toml` verifies all of it.

* **Sparse-index conditions** (`KeyCondition.cpp`). A filter is normalised by pushing NOT down to its atoms (`Inversion`), becomes a program in reverse Polish notation (`Rpn`), and is then interpreted over boxes of key values (`Masks` has what the answers are and why they are sound, `Pruning` where they are exact, `CheckInRange` the loops); the boxes come from splitting a lexicographic interval of key tuples, over one box that is overwritten in place (`Hyperrectangles`). On top of that stand the test for one continuous range (`ExactRange`), the split into conjuncts and per-column conditions (`Conjunction`), the extraction of plain ranges and bounds (`PlainRanges` over `RangeLists`, with `Readings` for what the code cannot see of relaxed atoms) and the prefix of a regular expression (`RegexPrefix`). A key value is a real number between two infinities, which are bounds and never values.
* **Bit packing** (`BitpackingBlockCodecImpl<false>`). Four 64-bit accumulators are flushed as 32-bit words. `Words` has the word arithmetic, `BitpackingFormat` says what the packed bytes are, `BitpackingLayout` where in them each bit of the input stands, `Bitpacking` and `BitUnpacking` are the loops, `BitpackingRoundTrip` puts them together.
* **Active parts** (`ActiveDataPartSet`, `FutureMergedMutatedPart`). An ordered map of disjoint block ranges that looks at neighbours only (`Parts`, `ActiveParts`), and merging (`Merging`). The map is a field of a class, kept as a sequence in key order; an iterator is an index.
* **Mutations on the fly** (`AlterConversions::filterMutationCommands`). A backward slice over UPDATE and DELETE commands (`Mutations`).
* **Part exchange** (`DataPartsExchange.cpp`). A versioned writer and its reader over a byte stream (`Wire`, `PartsExchange`), what the sender's checksums must say (`SenderChecksums`), and what the reader does with streams that nobody wrote (`DamagedStreams`).
* **Keeper protocols** (`LeaderElection.h`, `EphemeralLockInZooKeeper.cpp`). Read-then-multi loops against a small Keeper state (`SequentialNodes`, `LeaderElection`, `BlockNumberLocks`). What other clients do before each request is a parameter, a schedule, over which every theorem ranges.

Code that changes things step by step is modelled by methods with loops and by classes; each is tied to a function on values, and the theorems are about that function or about the state before and after.

## Where the code does less than it promises

Each is stated as it is, with the exact condition under which the promise holds, and an input for which it fails where the condition can fail; where a condition is only sufficient, the item says so.

* `getPartsCoveredByImpl` stops at the first part to the right that is not contained, so it misses contained parts behind it: all of them are found if and only if there is no such obstacle (`GetPartsCoveredByImpl`, `ObstacleExample`), and there is none where `checkIntersectingParts` does not throw (`CheckedHasNoObstacle`). The two methods that remove covered parts inherit this.
* `removePartAndCoveredParts` always answers false: an active part covers itself and is erased twice, and a part that is not active is not there to erase (`RemovePartAndCoveredParts`).
* `assign` computes the level in 32 bits: the merged part contains its sources, and replaces them without an intersection, if and only if none of them has the largest level (`MergedContainsSources`, `MergeIsClean`, `LargestLevelExample`). Parsing a part's name maps such a level to `MAX_LEVEL` (`MergeTreePartInfo.cpp:133-140`), so that a part like this arises in memory only.
* A mixed update that also deletes rows is split with the update first. A row keeps its fate if and only if the first command that deletes it keeps its predicate on, or a later command deletes it all the same (`SliceExactAt`, and for all rows `SlicePreservesMeaning`); for one command, if and only if the kept assignments never turn the predicate off (`SplitExact`, `SplitCounterexample`). From the commands alone it is enough that no such command keeps an assignment to a column of its own predicate (`SafeSplitsStay`).
* `extractSingleColumnConditions` builds a condition from the complex conjuncts but never stores it to the out parameter (`ExtractSingleColumnConditions`).
* The DAG push-down cancels a double negation also where its value is compared: every argument keeps its value if and only if nothing but 0, 1 and NULL is negated twice where a value counts (`CloneDagPreservesMeaning`, `CloneDagPreservesValue`, `DoubleNegationExact`, `DoubleNegationCounterexample`); which expressions are safe in every row can be read off their form (`SafeFormExact`). For the truth value of the whole this is enough and not necessary, because a comparison may not notice the changed argument (`UnnoticedExample`).
* The scanner of a regular expression drops one byte before a quantifier that allows no occurrence, also of a character of several bytes, whose first bytes then stay in the prefix: all strings matched start with the prefix if and only if no character is cut or what follows it begins with the same bytes (`ChosenPrefixExact`, `CutExample`).
* Plain ranges read a relaxed atom as its range: under NOT they can lose keys (`RelaxedNotExample`). The code sees tests and flags, and not what a relaxed or unknown atom stands for. At each key, no condition with these tests and flags loses the key if and only if its most favourable reading, which `Reading` computes from the flags, does not lose it (`AnswerExact`, `ExtractPlainRanges`); for bounds, the readings are taken conjunct by conjunct (`BoundsCover`, `ConjunctsReading`). Where every relaxed atom stands on the right side of its negations this holds for all keys (`LeanMeaning`).
* A part with a transaction file is sent completely, but sender and receiver sum up different files, so the receiver's comparison fails: the two agree if and only if there is no such file and the totals of the projections agree (`ChecksumsAgree`, `TransactionFileExample`), which they do for projections that have neither such a file nor projection entries of their own (`ProjectionMapsAgree`).
* The check of a leader by name and version can be fooled when the table is dropped and created again under the same path between the listing and the last request of one try (`RecreatedTableExample`). Without that it cannot (`CheckNoOldLeaders`), and with it others can fool it for every leader that it reads (`OnlyRecreationFools`).

## Model

| member | source | states |
|---|---|---|
| Rpn.RunFrame | raw/MergeTree/KeyCondition.cpp:4735-4758 | a program evaluates above whatever already is on the stack, which stays untouched |
| Rpn.RunConcat | raw/MergeTree/KeyCondition.cpp:4396-4775 | running two programs one after the other is running their concatenation |
| Rpn.BinaryTerm | raw/MergeTree/KeyCondition.h:239-300 | two well-formed conditions followed by AND or OR are well formed and mean the conjunction or disjunction |
| Rpn.NotTerm | raw/MergeTree/KeyCondition.h:239-300 | a well-formed condition followed by NOT is well formed and means the negation |
| Hyperrectangles.BoxesPartitionFrom | raw/MergeTree/KeyCondition.cpp:3861-3961 | from any prefix on, a tuple lies in exactly one box when it is in the rest of the interval and in no box otherwise |
| Hyperrectangles.BoxesPartitionInterval | raw/MergeTree/KeyCondition.cpp:3861-3961 | for every key size the boxes partition the lexicographic interval: each tuple of it lies in exactly one box, every other tuple in none |
| Hyperrectangles.BoxesIgnoreRest | raw/MergeTree/KeyCondition.cpp:3895-3958 | what an earlier call left behind the fixed components of the shared box never changes the boxes |
| Hyperrectangles.SkipEqual | raw/MergeTree/KeyCondition.cpp:3876-3890 | fixing the components in which the bounds agree leaves the boxes to visit the same |
| Hyperrectangles.OpenMiddle | raw/MergeTree/KeyCondition.cpp:3911-3926 | the shared box becomes the open box and keeps its fixed components |
| Hyperrectangles.Descend | raw/MergeTree/KeyCondition.cpp:3937-3958 | a recursive call on the overwritten box answers for exactly the boxes of its side and keeps the components fixed before |
| Hyperrectangles.VisitOpen | raw/MergeTree/KeyCondition.cpp:3909-3960 | the middle and the two sides together answer for all boxes, wherever the mask asks, with every early exit |
| Hyperrectangles.ForAnyHyperrectangle | raw/MergeTree/KeyCondition.cpp:3861-3961 | the callback sees the boxes in order, all of them unless the mask is complete, and none after one that completes it; the answer agrees with combining all answers in every component that the mask asks for |
| CheckInRange.ApplyMonotonicFunctionsChainToRange | raw/MergeTree/KeyCondition.cpp:3989-4031 | the loop computes the image range of the chain, or nothing where a function is not monotonic |
| Masks.ChainRangeCoversImage | raw/MergeTree/KeyCondition.cpp:3989-4031 | the image range contains the image of every value of the range, also for decreasing functions and infinite ends |
| Masks.AtomSound | raw/MergeTree/KeyCondition.cpp:4404-4734 | the mask of an atom allows for its truth at every tuple of the box |
| Masks.BoxMaskSound | raw/MergeTree/KeyCondition.cpp:4379-4781 | the answer for a box allows for the truth of the whole condition at every tuple of the box |
| CheckInRange.CheckElement | raw/MergeTree/KeyCondition.cpp:4396-4768 | one element's effect on the mask stack |
| CheckInRange.CheckInHyperrectangle | raw/MergeTree/KeyCondition.cpp:4379-4781 | the loop over the program computes the answer for the box |
| Masks.CombinedSound | raw/MergeTree/KeyCondition.cpp:3964-3987 | a tuple in some box is allowed for in the combined answer |
| CheckInRange.CheckInRange | raw/MergeTree/KeyCondition.cpp:3964-3987 | pruning is sound: a tuple of the interval that satisfies (fails) the condition makes can-be-true (can-be-false) true, and the early-exit mask never changes the component asked for; where `Exact` holds (finite ends, plain atoms on different columns) each answer is given if and only if the most (least) favourable reading, for plain conditions the condition itself, is true (false) at some tuple of the interval |
| CheckInRange.MayBeTrueInRange | raw/MergeTree/KeyCondition.cpp:4867-4874 | false only if no tuple of the interval satisfies the condition, and the same as without early exit; where `Exact` holds, true if and only if some tuple of the interval satisfies the most favourable reading |
| Pruning.BoxMaskPrecise | raw/MergeTree/KeyCondition.cpp:4379-4781 | for a box: where each key column occurs once and every atom is precise, an answer is given only if some reading of the condition gives it at a tuple of the box |
| Pruning.PlainPrecise | raw/MergeTree/KeyCondition.cpp:4404-4734 | comparisons of a bare key column, sets with an exact lookup, tests for NULL and constants admit an answer only where it is given at a tuple of the box |
| Pruning.RangeAnswerExact | raw/MergeTree/KeyCondition.cpp:3964-3987 | for an interval: a granule can be true (false) if and only if the most (least) favourable reading is true (false) at some tuple of the interval |
| Pruning.PlainAnswerExact | raw/MergeTree/KeyCondition.cpp:3964-3987 | and this holds for all plain atoms on different columns between finite ends |
| Pruning.ChainApplies | raw/MergeTree/KeyCondition.cpp:3989-4031 | the image of a range is computed whenever all functions are monotonic |
| Pruning.ChainTight | raw/MergeTree/KeyCondition.cpp:3989-4031 | the image of a closed range is bounded by the images of its ends |
| Pruning.OneColumnPrecise | raw/MergeTree/KeyCondition.cpp:4404-4475 | with one key column, comparisons under a chain of functions are precise too |
| Pruning.SharedColumnExample | raw/MergeTree/KeyCondition.cpp:4735-4758 | two tests of one column that exclude each other, and an interval that is not skipped |
| ExactRange.CheckMonotonicityOfChain | raw/MergeTree/KeyCondition.cpp:4039-4062 | whether all functions are always monotonic, and whether all are strict |
| ExactRange.ConjunctiveRun | raw/MergeTree/KeyCondition.cpp:4036-4154 | with AND as the only operator a condition holds exactly when every atom does |
| ExactRange.AtomConvex | raw/MergeTree/KeyCondition.cpp:4081-4126 | an accepted atom that holds at two keys holds at a key between them in each column it touches |
| ExactRange.AcceptedIsConvex | raw/MergeTree/KeyCondition.cpp:4036-4154 | the key tuples that satisfy an accepted condition are convex in lexicographic order |
| ExactRange.Constrain | raw/MergeTree/KeyCondition.cpp:4073-4129 | one element updates the column constraints to what they mean, or the method gives up exactly on the unsupported ones |
| ExactRange.ConstrainBySet | raw/MergeTree/KeyCondition.cpp:4081-4104 | a one-row set pins or touches exactly the columns it maps |
| ExactRange.IsContinuous | raw/MergeTree/KeyCondition.cpp:4131-4153 | accepts exactly points, then at most one range, then unconstrained columns |
| ExactRange.MatchesExactContinuousRange | raw/MergeTree/KeyCondition.cpp:4036-4154 | says yes exactly for the conditions described, and then the satisfying tuples (unknown atoms read as true) are convex |
| ExactRange.AcceptedExact | raw/MergeTree/KeyCondition.cpp:4036-4154 | a satisfiable conjunction of direct comparisons on different columns is accepted if and only if it mentions a key column and the tuples that satisfy it are convex |
| ExactRange.PointThenRangeAccepted | raw/MergeTree/KeyCondition.cpp:4081-4126 | under functions: a point of strictly monotonic functions in front of a range of an always monotonic function is accepted |
| Conjunction.AndSplits | raw/MergeTree/KeyCondition.cpp:5220-5233 | the conjuncts of both operands of AND, in either order, are disjoint and together mean the AND |
| Conjunction.TopLevelConjunction | raw/MergeTree/KeyCondition.cpp:5181-5247 | the loop finds the conjuncts of the specification TopConjuncts |
| Conjunction.TopConjunctsSplit | raw/MergeTree/KeyCondition.cpp:5181-5247 | disjoint slices, each a well-formed condition and no AND, whose conjunction is the whole condition |
| Conjunction.ClassifyConjunct | raw/MergeTree/KeyCondition.cpp:5258-5283 | the one column a conjunct is about, or none exactly when it is about no single column |
| Conjunction.SingleColumnMeans | raw/MergeTree/KeyCondition.cpp:5258-5283 | a conjunct is about one column if and only if some atom is about it and all others are about it or about none |
| Conjunction.JoinedMeaning | raw/MergeTree/KeyCondition.cpp:5293-5302 | slices copied one after the other with ANDs are well formed and mean the conjunction of the slices |
| Conjunction.AddRpnRanges | raw/MergeTree/KeyCondition.cpp:5293-5302 | the loop appends that joined program |
| Conjunction.GroupConjuncts | raw/MergeTree/KeyCondition.cpp:5252-5291 | every conjunct is filed under its one column or among the complex ones |
| Conjunction.BuildColumnConditions | raw/MergeTree/KeyCondition.cpp:5304-5321 | one well-formed condition per column, about that column only, together equivalent to the filed conjuncts |
| Conjunction.ExtractSingleColumnConditions | raw/MergeTree/KeyCondition.cpp:5249-5333 | the per-column conditions and the complex conjuncts together are equivalent to the original condition; the out parameter for the complex condition keeps its old value |
| RangeLists.InvertRange | raw/MergeTree/KeyCondition.cpp:4217-4220 | the inverted range holds exactly the values outside the range, in parts that are in order and apart |
| RangeLists.IntersectWith | raw/MergeTree/KeyCondition.cpp:4169-4179 | the intersection of two lists of ranges covers exactly the common values; of lists that are in order and without overlaps it is one again |
| RangeLists.UnionWith | raw/MergeTree/KeyCondition.cpp:4180-4189 | the union covers exactly the values of either list, and joins ranges that meet, so that it is in order and without overlaps where the lists are |
| RangeLists.PlainOnce | raw/MergeTree/KeyCondition.cpp:4164-4165 | in a list in order and without overlaps a value is in one range at most, and only the empty list has no value |
| RangeLists.InvertAndIntersect | raw/MergeTree/KeyCondition.cpp:4191-4210 | NOT of a list of ranges covers exactly the values outside, in order and without overlaps where the list is |
| RangeLists.GapRanges | raw/MergeTree/KeyCondition.cpp:4246-4284 | the gaps built for NOT IN cover exactly the values that are not in the set, in order and without overlaps |
| Readings.ReadingBounds | raw/MergeTree/KeyCondition.cpp:4211-4310 | every condition with the same tests and flags holds where the least favourable reading does, and only where the most favourable one does; NOT swaps the readings |
| Readings.ReadingIsAlike | raw/MergeTree/KeyCondition.cpp:4211-4310 | both readings are themselves such conditions |
| Readings.AnswerExact | raw/MergeTree/KeyCondition.cpp:4156-4318 | an answer given from tests and flags is implied by every such condition if and only if the most favourable reading implies it, and implies every one if and only if it implies the least favourable reading |
| Readings.ConjunctsReading | raw/MergeTree/KeyCondition.cpp:4332-4377 | the readings of a condition are those of its top-level conjuncts, taken one by one |
| PlainRanges.AtomRanges | raw/MergeTree/KeyCondition.cpp:4211-4310 | the ranges of an atom cover exactly the values that pass its range or set test; it gives up exactly on function chains and on filtered unknowns |
| PlainRanges.RangeStep | raw/MergeTree/KeyCondition.cpp:4167-4311 | an element keeps the stack of range lists in step with the truth values of the program read that way |
| PlainRanges.ExtractPlainRanges | raw/MergeTree/KeyCondition.cpp:4156-4318 | answers exactly when it can, and then the ranges cover exactly the keys that satisfy the condition with each atom read as its range or set test, which for plain conditions is the condition itself; at each key, they lose (add) it for no condition with these tests and flags if and only if they do not for the most (least) favourable reading; they are in order and without overlaps where no atom has a blank range |
| PlainRanges.ExtractableMeans | raw/MergeTree/KeyCondition.cpp:4211-4310 | extraction needs bare key columns and, beside a filter, no unknown atoms, and nothing else |
| PlainRanges.AlikeTests | raw/MergeTree/KeyCondition.cpp:4211-4310 | conditions that differ only in what relaxed and unknown atoms stand for are the same to the extraction |
| PlainRanges.LeanMeaning | raw/MergeTree/KeyCondition.cpp:4211-4310 | a condition on the flags alone that suffices: the extracted reading accepts every key of the condition where it leans over, and no other where it leans under; NOT swaps the two, AND and OR need both operands |
| PlainRanges.RelaxedNotExample | raw/MergeTree/KeyCondition.cpp:4217-4220 | a relaxed range under NOT, which holds at a key that none of the extracted ranges covers |
| PlainRanges.ExtractBounds | raw/MergeTree/KeyCondition.cpp:4332-4377 | with one key column and a filter, the bounds cover exactly the keys at which every top-level conjunct whose ranges can be extracted holds; otherwise they are the universe; they are in order and without overlaps where no atom has a blank range |
| PlainRanges.BoundsCover | raw/MergeTree/KeyCondition.cpp:4332-4377 | at each key: no condition with these tests and flags has it outside the bounds if and only if the most favourable readings of all conjuncts, where they hold, put it inside; likewise for keys inside and the least favourable readings |
| PlainRanges.LeaningBoundsCover | raw/MergeTree/KeyCondition.cpp:4332-4377 | it suffices that no extractable conjunct has a relaxed atom on the wrong side of a NOT: then every key that satisfies the condition is inside the bounds |
| PlainRanges.BoundsExact | raw/MergeTree/KeyCondition.cpp:4332-4377 | if every conjunct is extractable and exact, the keys inside the bounds are exactly those that satisfy the condition |
| PlainRanges.BoundsEmpty | raw/MergeTree/KeyCondition.cpp:4332-4377 | and then the bounds cover nothing, and are an empty list where they are in order, if and only if no key satisfies the condition |
| Inversion.InverseNegates | raw/MergeTree/KeyCondition.cpp:684-708 | the inverse table negates each relation, in three-valued logic |
| Inversion.InverseTable | raw/MergeTree/KeyCondition.cpp:684-708 | every relation but one has an inverse, and all but two are the inverse of their inverse |
| Inversion.CloneAstPreservesMeaning | raw/MergeTree/KeyCondition.cpp:719-764 | the clone means the negation of the original with inversion requested and the original without |
| Inversion.CloneAstPushesDown | raw/MergeTree/KeyCondition.cpp:719-764 | NOT remains only on nodes without an entry in the inverse table |
| Inversion.CloneDagPreservesValue | raw/MergeTree/KeyCondition.cpp:783-958 | the clone keeps the value of the original and of every argument inside if and only if nothing but 0, 1 or NULL is negated twice where the value counts |
| Inversion.CloneDagPreservesMeaning | raw/MergeTree/KeyCondition.cpp:783-958 | every argument inside keeps its value if and only if nothing but 0, 1 or NULL is negated twice inside arguments, and then the clone means the original or its negation, as requested |
| Inversion.SafeFormExact | raw/MergeTree/KeyCondition.cpp:836-843 | the expressions that are safe in every row are exactly those in which only boolean expressions are negated twice where the value counts |
| Inversion.CloneDagPushesDown | raw/MergeTree/KeyCondition.cpp:783-958 | at every depth, also inside arguments, no alias, materialisation or trivial cast is left and NOT remains only on nodes without an entry in the inverse table |
| Inversion.DoubleNegationExact | raw/MergeTree/KeyCondition.cpp:836-843 | cancelling a double negation keeps the value exactly where the operand is 0, 1 or NULL |
| Inversion.DoubleNegationCounterexample | raw/MergeTree/KeyCondition.cpp:836-843 | a comparison over a double negation that is true while its clone is false |
| Inversion.UnnoticedExample | raw/MergeTree/KeyCondition.cpp:836-843 | a comparison whose argument changes in the clone and whose truth does not |
| RegexPrefix.ExtractFixedPrefixFromRegularExpression | raw/MergeTree/KeyCondition.cpp:152-218 | the scan of an anchored expression, character by character |
| RegexPrefix.ExpressionHasUnescapedAlternation | raw/MergeTree/KeyCondition.cpp:220-235 | whether a bar occurs that no backslash escapes |
| RegexPrefix.SplitBranches | raw/MergeTree/KeyCondition.cpp:282-346 | the branches of an anchored group, or nothing where the scan gives up |
| RegexPrefix.ExtractCommonPrefixFromAlternationBranches | raw/MergeTree/KeyCondition.cpp:282-365 | the common prefix of two or more branches, with the early exit |
| RegexPrefix.MatchPrefix | raw/MergeTree/KeyCondition.cpp:613-627 | the prefix that is pruned on, empty for patterns with a zero byte |
| RegexPrefix.ScanIsPrefix | raw/MergeTree/KeyCondition.cpp:152-218 | what the first scanner collects starts every match of the branch, before each kind of quantifier, unless it cuts a character of several bytes that may be absent |
| RegexPrefix.ScanCollects | raw/MergeTree/KeyCondition.cpp:152-218 | for every branch the scanner finds exactly the literal beginning: up to the first item that is no plain character, without a last character whose quantifier allows none |
| RegexPrefix.FixedPrefixExact | raw/MergeTree/KeyCondition.cpp:152-218 | and so for every anchored expression without alternation |
| RegexPrefix.PrefixExample | raw/MergeTree/KeyCondition.cpp:152-218 | the prefix of `^abc.*` is abc |
| RegexPrefix.AlternationShape | raw/MergeTree/KeyCondition.cpp:282-346 | the second scanner succeeds only on one anchored, unquantified group of plain branches with nothing but an end anchor behind it |
| RegexPrefix.ChosenPrefixSound | raw/MergeTree/KeyCondition.cpp:613-627 | every string that an expression matches starts with the chosen prefix, unless a character of several bytes is cut before a quantifier that allows none |
| RegexPrefix.ChosenPrefixExact | raw/MergeTree/KeyCondition.cpp:201-209 | all strings that an expression matches start with the chosen prefix if and only if no such character is cut or whatever follows it begins with the same bytes |
| RegexPrefix.CutExample | raw/MergeTree/KeyCondition.cpp:201-209 | an expression with an optional two-byte letter that matches a string which does not start with the chosen prefix |
| RegexPrefix.CommonIsLongest | raw/MergeTree/KeyCondition.cpp:351-364 | no longer prefix is shared by all branches |
| RegexPrefix.LiteralPrefixExact | raw/MergeTree/KeyCondition.cpp:152-218 | for an anchored plain text the prefix is the whole text |
| RegexPrefix.AlternationPrefixExact | raw/MergeTree/KeyCondition.cpp:282-365 | for an anchored group of plain alternatives it is the longest common prefix |
| Words.PushBits | raw/MergeTree/BitpackingBlockCodec.h:246-252 | appending a value by shift and OR keeps every bit; an accumulator never needs more than its 64 |
| Words.FlushBits | raw/MergeTree/BitpackingBlockCodec.h:254-268 | truncation to 32 bits takes the oldest 32 and the shift keeps the rest |
| Words.TakeBits | raw/MergeTree/BitpackingBlockCodec.h:354-365 | mask and shift take the oldest value out of an accumulator |
| BitpackingFormat.PackedLength | raw/MergeTree/BitpackingBlockCodec.h:117-128 | for every width 0 to 32 the stream is as long as promised |
| BitpackingFormat.BlocksInvisible | raw/MergeTree/BitpackingBlockCodec.h:801-822 | whole blocks of 128 packed on their own give the same stream as packing everything at once |
| BitpackingFormat.WordRoundTrip | raw/MergeTree/BitpackingBlockCodec.h:254-258 | a 32-bit word survives being copied to bytes and back |
| BitpackingLayout.Layout | raw/MergeTree/BitpackingBlockCodec.h:237-268 | for widths 1 to 31, bit k of value i is bit (i / 4) * width + k of lane i % 4, lowest bits first in words of four bytes |
| BitpackingLayout.PaddingIsZero | raw/MergeTree/BitpackingBlockCodec.h:461-474 | the values missing in the last group are written as zeros |
| BitpackingLayout.RestIsZero | raw/MergeTree/BitpackingBlockCodec.h:270-276 | the rest of the last words is zero |
| BitpackingLayout.FullWidthLayout | raw/MergeTree/BitpackingBlockCodec.h:216-222 | with width 32 the values stand one behind the other |
| Bitpacking.AppendGroup | raw/MergeTree/BitpackingBlockCodec.h:237-268 | one group goes into the accumulators, and a word per lane comes out when 32 bits are there |
| Bitpacking.PackFixed | raw/MergeTree/BitpackingBlockCodec.h:205-278 | writes the packed bytes of its groups, nothing else, and returns their end |
| Bitpacking.PackTail | raw/MergeTree/BitpackingBlockCodec.h:396-500 | writes the packed bytes of the tail, the last group padded with zeros |
| Bitpacking.PackingLength | raw/MergeTree/BitpackingBlockCodec.h:801-822 | blocks and tail together write the packed bytes of the whole input |
| BitUnpacking.UnpackFixed | raw/MergeTree/BitpackingBlockCodec.h:304-371 | decodes its groups, writes nothing else and stops at the end of their bytes |
| BitUnpacking.UnpackTail | raw/MergeTree/BitpackingBlockCodec.h:521-609 | decodes the values of the tail only and stops at the end of their bytes |
| BitpackingRoundTrip.MaxbitsLength | raw/MergeTree/BitpackingBlockCodec.h:91-115 | the smallest width into which every value fits |
| BitpackingRoundTrip.ReadStream | raw/MergeTree/BitpackingBlockCodec.h:339-352 | reading a written stream word by word gives the bits back |
| BitpackingRoundTrip.UnpackedPacked | raw/MergeTree/BitpackingBlockCodec.h:846-867 | decoding an encoded list gives every value masked to the width |
| BitpackingRoundTrip.UnpackingLength | raw/MergeTree/BitpackingBlockCodec.h:846-867 | the decoder consumes exactly the bytes written; for width zero the output stays as it was |
| BitpackingRoundTrip.Encode | raw/MergeTree/BitpackingBlockCodec.h:147-156 | refuses widths over 32, otherwise writes the stream and returns its size |
| BitpackingRoundTrip.CalculateNeededBytesAndMaxBits | raw/MergeTree/BitpackingBlockCodec.h:132-139 | the smallest width, and the size of the stream with it |
| BitpackingRoundTrip.RoundTrip | raw/MergeTree/BitpackingBlockCodec.h:801-867 | for every length, width and input, decoding after encoding masks each value and reads what was written |
| BitpackingRoundTrip.LosslessRoundTrip | raw/MergeTree/BitpackingBlockCodec.h:132-175 | with the width the codec chooses nothing is lost |
| Parts.LessTotal | raw/MergeTree/MergeTreePartInfo.h:75-77 | the order of the map's keys is total |
| Parts.LessMeans | raw/MergeTree/MergeTreePartInfo.h:75-76 | patch parts come last; inside one partition the order is by first block, last block, level and mutation |
| Parts.ContainsIsPartialOrder | raw/MergeTree/MergeTreePartInfo.h:84-99 | containment is reflexive, antisymmetric and transitive, with the two special levels |
| Parts.ContainsMeans | raw/MergeTree/MergeTreePartInfo.h:84-122 | containment and disjointness in terms of the blocks of both parts, with level, mutation and the two special levels |
| ActiveParts.CoveringIsNeighbour | raw/MergeTree/ActiveDataPartSet.cpp:195-215 | in a disjoint set only the two neighbours of a part's place can cover it |
| ActiveParts.ActiveDataPartSet.GetContainingPartImpl | raw/MergeTree/ActiveDataPartSet.cpp:195-215 | finds a covering part if and only if there is one anywhere |
| ActiveParts.ActiveDataPartSet.EraseOnLeft | raw/MergeTree/ActiveDataPartSet.cpp:109-135 | erases the contained parts to the left, in place, with their names in key order; it stops at the beginning, at a disjoint part, or at one that intersects, and says which |
| ActiveParts.ActiveDataPartSet.EraseOnRight | raw/MergeTree/ActiveDataPartSet.cpp:137-156 | erases the contained parts to the right, in place, and reports an intersection |
| ActiveParts.ActiveDataPartSet.AddImpl | raw/MergeTree/ActiveDataPartSet.cpp:96-161 | adds exactly when nothing covers the part and every overlapping part is contained in it; replaces exactly those; after a reported intersection with the part before its place nothing has changed, and after one with a part behind, exactly the run of contained parts in front of that is gone and named; the set stays disjoint |
| ActiveParts.ActiveDataPartSet.Add | raw/MergeTree/ActiveDataPartSet.cpp:29-40 | throws exactly on an intersection, with the same remains, otherwise says whether the part was added |
| ActiveParts.ActiveDataPartSet.CheckIntersectingParts | raw/MergeTree/ActiveDataPartSet.cpp:42-67 | throws exactly when some active part overlaps and is not contained |
| ActiveParts.ActiveDataPartSet.GetPartsCoveredByImpl | raw/MergeTree/ActiveDataPartSet.cpp:218-254 | exactly the longest run of contained parts around the part's place, in order; all contained parts if and only if no obstacle stands between |
| ActiveParts.RunUnique | raw/MergeTree/ActiveDataPartSet.cpp:218-254 | there is one such run |
| ActiveParts.ObstacleExample | raw/MergeTree/ActiveDataPartSet.cpp:236-247 | an active set in which a contained part is hidden |
| ActiveParts.CheckedHasNoObstacle | raw/MergeTree/ActiveDataPartSet.cpp:42-67 | where nothing intersects the part there is no obstacle, so that checking for intersections first makes the methods for covered parts exact |
| ActiveParts.ActiveDataPartSet.Remove | raw/MergeTree/ActiveDataPartSet.h:58-61 | erases exactly the part, and says whether it was there |
| ActiveParts.ActiveDataPartSet.RemovePartAndCoveredParts | raw/MergeTree/ActiveDataPartSet.h:74-82 | answers false always; removes the part and exactly that run, which is all that the part contains if and only if no obstacle stands between |
| ActiveParts.ActiveDataPartSet.RemovePartsCoveredBy | raw/MergeTree/ActiveDataPartSet.h:85-94 | removes exactly that run without the part itself, which is all that the part contains besides itself if and only if no obstacle stands between |
| ActiveParts.CoveredMisses | raw/MergeTree/ActiveDataPartSet.cpp:218-254 | behind an obstacle some contained part other than the part itself is missed |
| ActiveParts.AddUncovered | raw/MergeTree/ActiveDataPartSet.cpp:96-161 | adding to the maximal parts of a family gives the maximal parts of the larger family |
| ActiveParts.AddCovered | raw/MergeTree/ActiveDataPartSet.cpp:100-101 | a covered part does not change the maximal parts |
| ActiveParts.AddAll | raw/MergeTree/ActiveDataPartSet.cpp:17-22 | parts of which any two are disjoint or nested can be added in any order without an error, and exactly the maximal ones remain |
| Merging.FutureMergedMutatedPart.Assign | raw/MergeTree/FutureMergedMutatedPart.cpp:39-76 | the merged part spans the blocks from the first to the last source; its level is the least above the levels of all sources, in 32 bits; its mutation is the least that is not below zero and not below that of any source or patch; throws exactly for parts of different partitions |
| Merging.MaxVersionBounds | raw/MergeTree/FutureMergedMutatedPart.cpp:57-70 | the mutation is zero or that of a source or patch, and not below any of them |
| Merging.MergedContainsSources | raw/MergeTree/MergeList.cpp:46-53 | the merged part contains each source if and only if no source has the largest level |
| Merging.MergedDisjointFromOthers | raw/MergeTree/FutureMergedMutatedPart.cpp:72-76 | the merged part overlaps no active part outside the run |
| Merging.MergeIsClean | raw/MergeTree/FutureMergedMutatedPart.cpp:39-76 | nothing covers or intersects the merged part if and only if no source has the largest level, and then it contains exactly the run and takes its place |
| Merging.ReplaceByMerge | raw/MergeTree/ActiveDataPartSet.cpp:96-161 | adding the merged part of a contiguous run succeeds if and only if no source has the largest level, and then replaces exactly the run |
| Merging.WrappedMergeIntersects | raw/MergeTree/FutureMergedMutatedPart.cpp:39-76 | with a source of the largest level the wrapped level lets the merged part intersect it |
| Merging.LargestLevelExample | raw/MergeTree/FutureMergedMutatedPart.cpp:39-76 | a run of one part of the largest level whose merged part does not contain it |
| Mutations.SlicePreservesMeaning | raw/MergeTree/AlterConversions.cpp:466-529 | for every list, the slice gives all rows the same survival and the same value in each requested column as all commands if and only if every row is deleted in time, which holds if no kept assignment turns off the predicate of its own command |
| Mutations.SliceNeedsOnlyReadColumns | raw/MergeTree/AlterConversions.cpp:520-524 | a row cut down to the columns to read is enough, in exactly the cases of SliceExactAt |
| Mutations.SliceExactAt | raw/MergeTree/AlterConversions.cpp:466-529 | for every list and row, the slice on a row with the columns to read gives the same survival and the same value in each requested column as all commands, if and only if the first deleting command keeps its predicate on or a later one deletes the row all the same |
| Mutations.SafeSplitsStay | raw/MergeTree/AlterConversions.cpp:499-511 | no predicate is turned off where no deleting command keeps an assignment to a column of its own predicate |
| Mutations.SliceColumnsAreRead | raw/MergeTree/AlterConversions.cpp:520-524 | every column that a kept command reads or writes is among the columns to read |
| Mutations.OnlyNeededAreRead | raw/MergeTree/AlterConversions.cpp:499-524 | a column that is read was requested or occurs in a kept command |
| Mutations.OnlyNeededAreKept | raw/MergeTree/AlterConversions.cpp:499-518 | a kept command is a deletion, or it assigns something, and only columns that were requested or that a later kept command reads or writes |
| Mutations.SplitExact | raw/MergeTree/AlterConversions.cpp:499-511 | splitting a mixed update keeps its meaning exactly when its assignments never turn its predicate off |
| Mutations.SplitCounterexample | raw/MergeTree/AlterConversions.cpp:499-511 | an update that loses a deletion when it is split |
| Mutations.FilterMutationCommands | raw/MergeTree/AlterConversions.cpp:466-529 | the reverse loop computes the slice and the grown list of columns without repetition, and throws exactly on other commands |
| Mutations.FilterCommand | raw/MergeTree/AlterConversions.cpp:475-518 | one command's part of the slice and of the columns |
| Mutations.SortAssignments | raw/MergeTree/AlterConversions.cpp:483-497 | the kept assignments, the names in them and the lightweight delete, in whatever order they come |
| Wire.ReadVarUIntWritten | raw/MergeTree/DataPartsExchange.cpp:303-304 | a length prefix is read back as it was written |
| Wire.ReadTextWritten | raw/MergeTree/DataPartsExchange.cpp:701-702 | a string is read back as it was written, and reading stops behind it |
| Wire.ReadWordWritten | raw/MergeTree/DataPartsExchange.cpp:701-702 | a 64-bit number is read back as it was written |
| PartsExchange.CollectFilesToReplicate | raw/MergeTree/DataPartsExchange.cpp:231-257 | the loop over checksums and auxiliary files computes the set that SentExactly describes |
| PartsExchange.SentExactly | raw/MergeTree/DataPartsExchange.cpp:231-271 | for every version: a file of the disk is sent if and only if it has a checksum and is no projection entry, or is checksums.txt, columns.txt or txn_version.txt, or is one of the three newer files and the version is at least 4, 8 or 9 respectively; with content or metadata, only once, and nothing else is sent |
| PartsExchange.CompleteMeans | raw/MergeTree/DataPartsExchange.cpp:231-271 | the sender demands exactly the checksummed files, checksums.txt and columns.txt on its disk |
| PartsExchange.SendFiles | raw/MergeTree/DataPartsExchange.cpp:300-325 | writes the count, then each file with name, size, bytes and hash, and sums up the checksummed ones |
| PartsExchange.SendProjections | raw/MergeTree/DataPartsExchange.cpp:273-288 | writes name and files of each projection, or takes over its checksum; a missing file is the error only where one is missing |
| PartsExchange.SendPartFromDisk | raw/MergeTree/DataPartsExchange.cpp:224-331 | succeeds exactly when every file exists and the checksums agree, and then has written the part; the error tells a missing file from different checksums |
| SenderChecksums.ConfirmedExactly | raw/MergeTree/DataPartsExchange.cpp:267-328 | the checksums collected while sending equal the part's own if and only if these give size and hash of each file, name none of the fixed files and, where projections are sent, have the total of each |
| SenderChecksums.SucceedsExactly | raw/MergeTree/DataPartsExchange.cpp:224-331 | sending succeeds if and only if the part and every projection sent have all files and checksums like that |
| PartsExchange.AddFilesMeans | raw/MergeTree/DataPartsExchange.cpp:303-325 | what is summed up: size and hash of each file that is not skipped, and nothing else |
| PartsExchange.SkippedMeans | raw/MergeTree/DataPartsExchange.cpp:737-742 | the names that the receiver and the sender leave out of their sums |
| PartsExchange.TokenizeCapabilities | raw/MergeTree/DataPartsExchange.cpp:177-189 | the loop splits at each delimiter |
| PartsExchange.TokensJoined | raw/MergeTree/DataPartsExchange.cpp:177-189 | the sender's tokens are the receiver's capabilities again |
| PartsExchange.ProcessQuery | raw/MergeTree/DataPartsExchange.cpp:120-221 | writes the response stream of the version and sets the two cookies, exactly when sending the part succeeds |
| PartsExchange.SameForServerVersion | raw/MergeTree/DataPartsExchange.cpp:134-135 | for a newer client the stream is that of the announced version |
| PartsExchange.VersionsCarry | raw/MergeTree/DataPartsExchange.cpp:137-221 | from which version on each header field, the projections and the zero copy are there |
| PartsExchange.ResponseExample | raw/MergeTree/DataPartsExchange.cpp:137-221 | all bytes of the response for one part, to the oldest and to the newest receiver |
| PartsExchange.ReceiveFile | raw/MergeTree/DataPartsExchange.cpp:697-743 | reads one file and compares its hash |
| PartsExchange.DownloadBaseOrProjectionPartToDisk | raw/MergeTree/DataPartsExchange.cpp:681-753 | reads a block of files and sums up all but the five unchecksummed ones |
| PartsExchange.DownloadProjections | raw/MergeTree/DataPartsExchange.cpp:828-842 | reads the announced number of projections and sums each up |
| PartsExchange.DownloadPartToDisk | raw/MergeTree/DataPartsExchange.cpp:755-911 | reads unique id, projections and files, demands the end of the stream and compares checksums |
| PartsExchange.FetchSelectedPart | raw/MergeTree/DataPartsExchange.cpp:510-622 | reads the header that the announced version carries, rejects unexpected cookies and downloads the part |
| PartsExchange.ReadHeaderWritten | raw/MergeTree/DataPartsExchange.cpp:529-603 | every header field of the version is read back, the others keep their initial values |
| PartsExchange.ReadPartWritten | raw/MergeTree/DataPartsExchange.cpp:773-859 | projections and files are read back and the stream ends there |
| PartsExchange.ExchangeRoundTrip | raw/MergeTree/DataPartsExchange.cpp:510-622 | for every client version, part, projection set and zero-copy choice the reader gets the fields, projections and files that the version carries and reaches the end of the stream |
| DamagedStreams.OnlyWhole | raw/MergeTree/DataPartsExchange.cpp:510-622 | a response that is accepted is rejected with anything behind it, and every proper beginning of it is rejected as cut off |
| DamagedStreams.DamageIsFound | raw/MergeTree/DataPartsExchange.cpp:722-735 | wherever it stands in its block, a file whose hash is not that of its content is rejected and named |
| DamagedStreams.TextsAccepted | raw/MergeTree/DataPartsExchange.cpp:529-573 | which texts are accepted for the TTL infos and the part type |
| DamagedStreams.CookieAccepted | raw/MergeTree/DataPartsExchange.cpp:583-591 | a cookie is accepted if and only if it names an offered disk and the version knows the zero copy |
| PartsExchange.ChecksumsAgree | raw/MergeTree/DataPartsExchange.cpp:900-910 | both sides collect the same checksums if and only if the part has no transaction file and the totals of the projections sent agree |
| PartsExchange.ProjectionMapsAgree | raw/MergeTree/DataPartsExchange.cpp:828-842 | for a projection both sides sum up the same if and only if it has neither a transaction file nor projection entries of its own |
| PartsExchange.TransactionFileExample | raw/MergeTree/DataPartsExchange.cpp:900-910 | a part with a transaction file that the sender sends without an error and the receiver rejects |
| PartsExchange.FetchAfterSend | raw/MergeTree/DataPartsExchange.cpp:510-622 | a fetch of what was sent without an error fails only on an unknown remote copy or, for a complete local transfer, exactly where the checksums collected differ; otherwise it yields the part |
| SequentialNodes.NamesMonotone | raw/MergeTree/LeaderElection.h:53-54 | names of sequential nodes sort like their numbers |
| SequentialNodes.ParseSequentialName | raw/MergeTree/EphemeralLockInZooKeeper.cpp:26-31 | the number read from a created path is the node's own sequence number |
| SequentialNodes.NumberExactly | raw/MergeTree/EphemeralLockInZooKeeper.cpp:25-31 | a number is read if and only if digits, and at least one, follow the prefix, and it is the number that these digits write |
| LeaderElection.PersistentIsSmallest | raw/MergeTree/LeaderElection.h:25 | the persistent node's name is less than that of any sequential node |
| LeaderElection.SmallestStays | raw/MergeTree/LeaderElection.h:53-74 | while others act, the smallest candidate stays the smallest as long as it lives |
| LeaderElection.SameNode | raw/MergeTree/LeaderElection.h:61-74 | a node that still has its version is still the node that was read |
| LeaderElection.FirstSorted | raw/MergeTree/LeaderElection.h:53-54 | the first of the sorted names |
| LeaderElection.Attempt | raw/MergeTree/LeaderElection.h:27-83 | one pass of the loop: it changes nothing but by ending the election; it goes on, or ends with a Keeper error, only if others acted in between |
| LeaderElection.CheckNoOldLeaders | raw/MergeTree/LeaderElection.h:21-88 | in every interleaving the persistent node is created only at a moment when the smallest live candidate, if any, allows several leaders, or after the table was created anew between the listing and the request of that try; nothing else is changed; a normal return means that the node exists or the path does not; the error names the first listed candidate, live and of an old version; a Keeper error means that the candidate read was written before the request; giving up means that others acted before at least a thousand requests; without interference the first try decides |
| LeaderElection.WindowIsFair | raw/MergeTree/LeaderElection.h:53-74 | whatever else others do between listing, reading and request, the request succeeds only where the smallest live candidate allows several leaders |
| LeaderElection.OnlyRecreationFools | raw/MergeTree/LeaderElection.h:61-74 | for every leader read that allows others: no actions without a re-creation fool the request, and some actions with one do |
| LeaderElection.RecreatedTableExample | raw/MergeTree/LeaderElection.h:61-74 | a table created anew under the same path lets the request succeed beside an old leader |
| BlockNumberLocks.LockAll | raw/MergeTree/EphemeralLockInZooKeeper.cpp:182-203 | the request takes the next number in every listed partition and changes nothing else, or fails on the version |
| BlockNumberLocks.EphemeralLocksInAllPartitions.Lock | raw/MergeTree/EphemeralLockInZooKeeper.cpp:170-218 | in every interleaving, success means exactly one lock for each partition that existed at that moment, with the node's own number, and no other new node; before the last request only others changed anything; it fails only when a partition has given out all its numbers, and then has changed nothing; with nobody else acting the first request decides |
| BlockNumberLocks.RecordLocks | raw/MergeTree/EphemeralLockInZooKeeper.cpp:205-214 | the recorded numbers are those of the created nodes |
| BlockNumberLocks.PathExample | raw/MergeTree/EphemeralLockInZooKeeper.cpp:182-214 | the path of one locked node, written out |
| BlockNumberLocks.LocksSeparateAllocations | raw/MergeTree/EphemeralLockInZooKeeper.cpp:170-218 | each locked number lies above all numbers given out before in its partition and below all given out later |
| BlockNumberLocks.EphemeralLocksInAllPartitions.Unlock | raw/MergeTree/EphemeralLockInZooKeeper.cpp:220-237 | sends one removal per lock before looking at answers; the nodes are gone and never come back; with nobody else acting nothing else changes; an error leaves the object as it was; a second call sends nothing |
| BlockNumberLocks.EphemeralLocksInAllPartitions.AssumeUnlocked | raw/MergeTree/EphemeralLockInZooKeeper.cpp:239-242 | forgets the session without a request |
| BlockNumberLocks.EphemeralLocksInAllPartitions.GetUnlockOps | raw/MergeTree/EphemeralLockInZooKeeper.cpp:244-251 | the removals that unlocking would send, none when nothing is held |
| BlockNumberLocks.GoneStays | raw/MergeTree/EphemeralLockInZooKeeper.cpp:220-237 | a removed node never comes back, because its number is not given out again |
| BlockNumberLocks.LocksStayAllocated | raw/MergeTree/EphemeralLockInZooKeeper.cpp:220-237 | locks that were taken can be given back at any later time |

## Left out

- Key values are reals; NULL, NaN, `single_point` mode and the shrinking of integer ranges are not modelled. `Range` and `PlainRanges` are not part of the repository and are implemented anew; `MergeTreeSetIndex` enters by the contract that its lookup over-approximates both answers.
- Monotonic functions enter by what they report about themselves, under the assumption that the reports are true. Type casts, function execution, constant folding, set preparation and the building of atoms from functions other than `match` are not modelled.
- Pruning.PlainAnswerExact: says nothing of intervals with an infinite end, nor of conditions that test one key column twice, whose atoms the code combines as if they were independent (`SharedColumnExample`); soundness holds for all of them.
- Space-filling curves, polygons, bloom filters and the partial-disjunction callback in `checkInHyperrectangle`.
- Inversion: `indexHint` is not modelled.
- RegexPrefix: inline flags that change how later characters match. Patterns and strings are bytes in UTF-8, and a quantifier applies to a whole character, as the matching library does by default; patterns that are not valid UTF-8 are not modelled. The string right after all strings with a prefix is computed by code outside the repository.
- The SIMD branch of the codec calls a library that is not part of the repository. Sizes are unbounded, so overflow of `size_t` is not modelled.
- Part names: parts are given by their fields; parsing and printing of names, the old date-based names and the kind of a part (derived from its partition id) are not modelled. Debug assertions are not modelled.
- Mutations: partition clauses and mutation versions are copied along and not modelled.
- Wire: the primitive encodings (64-bit little-endian words, length prefixes of seven bits a byte, 36 characters for a UUID, 16 bytes for a hash) come from code outside the repository. Hashes are arbitrary functions.
- PartsExchange: HTTP, disks, reservations, throttling, cancellation, the check of file paths, and the second attempt without zero copy. Sizes of files and their numbers fit 64 bits.
- LeaderElection: the list of children is a set, of which the first in order is picked without sorting the others. The data version of the election path stays 0. Hardware errors and lost sessions are not modelled.
- SequentialNodes: numbers are limited to the ten digits of a name.
- BlockNumberLocks: the parent node exists, and partitions are added and never removed; the lock for a single partition with its deduplication paths, warnings and metrics are not modelled. The constructor that throws is a method with a result code.
- Disk storage, backups, loading of parts, readers, writers, merge tasks, background threads, caches and mark ranges: input and output over classes outside the repository.
