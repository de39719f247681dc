# PlanFuzzer: a verified model of its core

PlanFuzzer finds bugs in query planners. It couples SQLsmith (random SQL), AFL++
(coverage-guided fuzzing) and a driver of its own that talks to a database
server as if it were a fork server. This project models the parts of the three
where most can go wrong and proves, in Dafny, what they are relied on for:

- **Hashing** (`Xxh3*`, `Xxh32*`, `Xxh64*`, `Mixing`, `Digits`): feeding a hash
  in pieces, of any size and number, gives the one-shot hash; the vector kernels
  compute what the scalar ones compute; messages that differ in one place have
  different hashes, with the exact exceptions; and the hashes have the published
  values.
- **Statement generation** (`Smith*`, `Impedance`): every statement the
  generator can return, for every outcome of the dice, is properly scoped, well
  typed, free of repeated aliases, bounded in height and free of blacklisted
  productions; over every run of the main loop a production is blacklisted
  exactly by its tally of failures, and for good.
- **Coverage** (`Words`, `Coverage`): word-wise comparison of trace and virgin
  map meets a byte-wise specification, the virgin map is the complement of the
  history, and the skimming pre-filter is exact.
- **The fork-server protocol** (`Pipe`, `Handshake`, `ForkServer`, `DbDriver`):
  safety over every run of the fork server on any kernel, a conversation that
  PlanFuzzer's driver keeps as well, and the exact condition under which a run
  serves the requests the fuzzer makes after their handshake.
- **Runtime support** (`GuardIds`, `PoolList`, `Rand`, `Realloc`, `PlanPool`):
  edge numbering, the pooled circular list, unbiased random numbers, growing
  buffers, and the pool of distinct query plans.

Words of 8, 32 and 64 bits are bounded naturals, with wrap-around written out;
bitwise operators are defined on them bit by bit (`Bits`, `Machine`).
Objects that the source updates in place are classes; a loop in the source is a
loop here, proved against a function that says what it should compute. Dice,
`/dev/urandom`, system calls and the database server may answer anything: a
die is an arbitrary choice, a system call takes its answer from an arbitrary
script that may end at any point.

## Findings

Six properties one would expect turned out to hold only under a condition. The
model keeps the code as it is and the lemmas give the exact condition.

- The handshake leaves both sides in step unless the target offers a dictionary
  but no shared test case and the fuzzer, not set to ignore dictionaries, turns
  it down: that refusal is then served as one run too many
  (`InStepUnlessBareRefusal`, `RunServesRequests`; an instance is
  `BareRefusalExample`).
- `next_pow2` rounds up to a power of two unless the argument minus one has 32
  adjacent zero bits below its leading one, which happens from 2^32 + 1 on
  (`NextIsLeastPow2`, `NoGapBelow`, `GapAbove`).
- `rand_below` is unbiased for every limit in the 64-bit build, but in the
  32-bit build only for limits that divide 2^32 (`Unbiased`, `UnbiasedIn32Bits`;
  the limit 3 does not, `BiasedForThree`).
- Outside of the fuzzer, `__afl_map_shm` can leave a map smaller than the highest
  guard when a size is forced on it (`MapHoldsGuards`). That takes edges numbered
  at link time, or a map at a fixed address (`MapTooSmall`, `StartTooSmall`).
- Changing one word of a message always changes its XXH32, but not always its
  XXH64: the difference can cancel where the word's lane is merged
  (`StripeWordChange`; an instance is `OneWordUnseen`).
- Plans with different node types have different trees, as long as no node has
  more than two children; beyond that only the first child counts (`SameTree`,
  `WideNodes`).

Where comments and code disagree the model follows the code: `rand_below` is
announced as slightly biased, `afl_realloc` as returning NULL for sizes below 1,
and `next_pow2` as always yielding a power of two.

## Model

| member | source | states |
|---|---|---|
| Xxh3Stream.Accumulate | AFLplusplus/include/xxhash.h:4908-4923 | the stripe loop folds the kernel over the stripes, the secret advancing 8 bytes per stripe |
| Xxh3Stream.AccumulatedIsRun | AFLplusplus/include/xxhash.h:4908-4971 | accumulating n stripes from any position inside a block is the stripe-by-stripe run, which has also scrambled when the block is full |
| Xxh3Stream.HashLongInternalLoop | AFLplusplus/include/xxhash.h:4925-4971 | blocks, a partial block and the last 64 bytes together give the lanes of the reference run over the whole message |
| Xxh3Stream.HashLong | AFLplusplus/include/xxhash.h:5020-5041 | lanes of the reference run, merged under the secret that was given |
| Xxh3Stream.OneShotDefault | AFLplusplus/include/xxhash.h:5156-5161 | the hash of the default mode, for every input length |
| Xxh3Stream.OneShotWithSecret | AFLplusplus/include/xxhash.h:5164-5172 | the hash under the caller's secret, for short and long inputs |
| Xxh3Stream.OneShotWithSeed | AFLplusplus/include/xxhash.h:5087-5181 | short inputs see the seed, long ones a secret made from it, unless it is 0 |
| Xxh3Stream.HashByMode | AFLplusplus/include/xxhash.h:5128-5181 | which seed and which secret reach the short hash and the merge in each mode; seed 0 and the default secret give the default hash |
| Xxh3Stream.ConsumeStripes | AFLplusplus/include/xxhash.h:5352-5383 | consuming stripes keeps accumulators and block position equal to the run over everything consumed, also across a block end |
| Xxh3Stream.RunAcrossBlockEnd | AFLplusplus/include/xxhash.h:5361-5372 | a batch that closes a block is: finish the block, scramble, start the next block |
| Xxh3Stream.State.constructor | AFLplusplus/include/xxhash.h:5261-5269 | a new state is valid but not yet ready for updates |
| Xxh3Stream.State.ResetInternal | AFLplusplus/include/xxhash.h:5287-5311 | the fields after a reset, with the custom secret left alone |
| Xxh3Stream.State.Reset | AFLplusplus/include/xxhash.h:5314-5320 | ready in default mode with nothing fed |
| Xxh3Stream.State.ResetWithSecret | AFLplusplus/include/xxhash.h:5323-5332 | succeeds exactly for a secret of at least 136 bytes, and is then ready in secret mode |
| Xxh3Stream.State.ResetWithSeed | AFLplusplus/include/xxhash.h:5335-5345 | ready in seed mode, with the custom secret regenerated only when it has to be |
| Xxh3Stream.State.Update | AFLplusplus/include/xxhash.h:5388-5474 | a null input is an error and changes nothing; any other input is appended to what was fed, and the state's invariant is kept |
| Xxh3Stream.State.CompleteBuffer | AFLplusplus/include/xxhash.h:5424-5440 | filling up and consuming the internal buffer; its last 64 bytes survive |
| Xxh3Stream.State.ConsumeInput | AFLplusplus/include/xxhash.h:5444-5462 | whole buffers are consumed straight from the input, leaving between 1 and 256 bytes |
| Xxh3Stream.State.DigestLong | AFLplusplus/include/xxhash.h:5485-5520 | the lanes of the message fed so far, whether the last stripe is buffered whole or has to be caught up from consumed bytes |
| Xxh3Stream.State.DigestPending | AFLplusplus/include/xxhash.h:5492-5502 | with a stripe or more buffered, the rest of the buffer and its last stripe complete the lanes |
| Xxh3Stream.State.DigestCatchUp | AFLplusplus/include/xxhash.h:5504-5518 | with less than a stripe buffered, the last stripe is put together from consumed and pending bytes |
| Xxh3Stream.State.Digest | AFLplusplus/include/xxhash.h:5523-5543 | the digest is the one-shot hash of everything fed, and the state is left as it was |
| Xxh3Stream.LongAccCatchUp | AFLplusplus/include/xxhash.h:5506-5518 | with fewer than 64 bytes buffered, the last stripe is rebuilt from the end of the buffer |
| Xxh3Stream.HashInPieces | AFLplusplus/include/xxhash.h:5261-5543 | for every kernel, mode and list of pieces: reset, updates and digest give the hash of the concatenation |
| Xxh3Kernels.Accumulate512Scalar | AFLplusplus/include/xxhash.h:4734-4754 | the in-place lane loop gives each lane its neighbour's input plus its own keyed 32x32 product |
| Xxh3Kernels.Accumulate512Vector | AFLplusplus/include/xxhash.h:4422-4463 | the shuffle-and-multiply registers (2, 4 or 8 lanes wide) give the same lanes as the scalar form |
| Xxh3Kernels.ScrambleAccScalar | AFLplusplus/include/xxhash.h:4756-4775 | every lane is scrambled with its key |
| Xxh3Kernels.ScrambleAccVector | AFLplusplus/include/xxhash.h:4465-4499 | the split 32-bit multiplication scrambles the lanes as the scalar form does |
| Xxh3Kernels.SplitProduct | AFLplusplus/include/xxhash.h:4488-4493 | low product plus shifted high product is the product modulo 2^64 |
| Xxh3Kernels.InitCustomSecretScalar | AFLplusplus/include/xxhash.h:4777-4846 | the bytes written are the default secret with the seed added to even lanes and subtracted from odd ones |
| Xxh3Kernels.InitCustomSecretVector | AFLplusplus/include/xxhash.h:4501-4543 | the register form writes the same secret |
| Xxh3Kernels.Mult64to128 | AFLplusplus/include/xxhash.h:3676-3735 | high * 2^64 + low is the exact product of any two 64-bit words |
| Xxh3Kernels.Carries32 | AFLplusplus/include/xxhash.h:3721-3730 | no intermediate sum of the long multiplication overflows and no carry is lost |
| Xxh3Kernels.NineTo16BranchesAgree | AFLplusplus/include/xxhash.h:5729-5769 | the 32-bit and the 64-bit branch add the same value modulo 2^64 |
| Xxh3Kernels.Xxh3InPieces | AFLplusplus/include/xxhash.h:5261-5543 | streaming with the kernels above, in any mode and any pieces, gives the hash of the concatenation |
| Xxh3Merge.MergeAccs | AFLplusplus/include/xxhash.h:4973-5041 | the loop adds the four folded products of keyed lane pairs to the scaled length |
| Xxh3Merge.AvalancheOneToOne | AFLplusplus/include/xxhash.h:3770-3777 | the last step never makes two values equal |
| Xxh3Merge.LanesKept | AFLplusplus/include/xxhash.h:4734-4775 | neither absorbing a stripe nor scrambling ever makes different lanes equal |
| Xxh3Answers.ZeroAnswer | AFLplusplus/include/xxhash.h:5020-5172 | the 64-bit hash of 241 zero bytes under a given secret, as a number |
| Xxh32.FinalizeRerolled | AFLplusplus/include/xxhash.h:2116-2137 | the loop form mixes exactly the remaining bytes |
| Xxh32.FinalizeUnrolled | AFLplusplus/include/xxhash.h:2139-2204 | the four fall-through chains mix the same bytes for each of the 16 tail lengths |
| Xxh32.OneShot | AFLplusplus/include/xxhash.h:2222-2273 | computes the reference hash of any input |
| Xxh32.AbsorbedAppend | AFLplusplus/include/xxhash.h:2239-2260 | absorbing whole stripes and then the rest is absorbing everything |
| Xxh32.CountWraps | AFLplusplus/include/xxhash.h:2361-2363 | the 32-bit length wraps, and flag plus wrapped length still tell whether 16 bytes were seen |
| Xxh32.State.Reset | AFLplusplus/include/xxhash.h:2328-2342 | nothing fed, lanes seeded |
| Xxh32.State.Update | AFLplusplus/include/xxhash.h:2345-2432 | a null input is an error; any other one is appended, with the buffer and lanes splitting what was fed at a stripe boundary |
| Xxh32.State.Digest | AFLplusplus/include/xxhash.h:2435-2455 | the one-shot hash of everything fed, at any total length |
| Xxh32.HashInPieces | AFLplusplus/include/xxhash.h:2328-2455 | every chunking of every input hashes like the whole |
| Xxh32Laws.RoundOneToOne | AFLplusplus/include/xxhash.h:2016-2022 | a round tells its input from the lane and the lane from its input |
| Xxh32Laws.ConvergeOneLane | AFLplusplus/include/xxhash.h:2259-2261 | lanes that differ in exactly one place converge differently |
| Xxh32Laws.AvalancheOneToOne | AFLplusplus/include/xxhash.h:2072-2081 | the last step never makes two values equal |
| Xxh32Laws.OneUnitChange | AFLplusplus/include/xxhash.h:2222-2273 | messages of one length that differ in one word, or in one byte behind the last word, never have the same hash under any seed |
| Xxh32Laws.SeedChange | AFLplusplus/include/xxhash.h:2263-2269 | a message shorter than a stripe has a different hash under every seed |
| Xxh32Answers.EmptyMessage | AFLplusplus/include/xxhash.h:2222-2273 | the published hash of the empty message |
| Xxh32Answers.Abc | AFLplusplus/include/xxhash.h:2222-2273 | the published hash of "abc" |
| Xxh32Answers.SeededLetters | AFLplusplus/include/xxhash.h:2222-2273 | the hash of one stripe under a seed, as a number |
| Xxh32Answers.Nobody | AFLplusplus/include/xxhash.h:2222-2273 | the published hash of a message of two stripes, a word and three bytes |
| Xxh64.Finalize | AFLplusplus/include/xxhash.h:2708-2741 | mixes exactly the remaining bytes, eight, four and one at a time |
| Xxh64.OneShot | AFLplusplus/include/xxhash.h:2753-2808 | computes the reference hash of any input |
| Xxh64.State.Reset | AFLplusplus/include/xxhash.h:2863-2877 | nothing fed, lanes seeded |
| Xxh64.State.Update | AFLplusplus/include/xxhash.h:2880-2956 | a null input is an error; any other one is appended |
| Xxh64.State.Digest | AFLplusplus/include/xxhash.h:2959-2988 | the one-shot hash of everything fed |
| Xxh64.HashInPieces | AFLplusplus/include/xxhash.h:2863-2988 | every chunking of every input hashes like the whole |
| Xxh64Laws.ConvergeOneLane | AFLplusplus/include/xxhash.h:2791-2796 | lanes that differ in exactly one place converge alike if and only if their differences cancel where that lane is merged; what is merged before always differs |
| Xxh64Laws.TailUnitChange | AFLplusplus/include/xxhash.h:2708-2741 | messages of one length that differ in one unit behind the stripes never have the same hash |
| Xxh64Laws.StripeWordChange | AFLplusplus/include/xxhash.h:2753-2808 | messages of one length that differ in one word of the stripes have the same hash if and only if the differences cancel |
| Xxh64Laws.SeedChange | AFLplusplus/include/xxhash.h:2798-2802 | a message shorter than a stripe has a different hash under every seed |
| Xxh64Answers.EmptyMessage | AFLplusplus/include/xxhash.h:2753-2808 | the published hash of the empty message |
| Xxh64Answers.Nobody | AFLplusplus/include/xxhash.h:2753-2808 | the published hash of a message of a stripe, a word of four bytes and three bytes |
| Xxh64Answers.SeededLetters | AFLplusplus/include/xxhash.h:2753-2808 | the hash of a stripe and a word of eight bytes under a seed, as a number |
| Xxh64Answers.OneWordUnseen | AFLplusplus/include/xxhash.h:2753-2808 | two messages of one stripe that differ in their first word and have the same hash |
| SmithScope.UidNameInjective | sqlsmith/relmodel.hh:105-110 | an issued name determines its prefix and number |
| SmithScope.WrappingNamesDistinct | sqlsmith/relmodel.hh:105-110 | with a 32-bit counter, n names of a prefix are distinct if and only if n is at most 2^32 |
| SmithScope.StmtSeq.Uid | sqlsmith/relmodel.hh:105-110 | the name is the prefix with its counter, which moves on by one; it differs from every name issued since the last new_stmt |
| SmithScope.Scope.TopLevel | sqlsmith/relmodel.hh:79-95 | the scope of a session sees its tables and no relation |
| SmithScope.Scope.constructor | sqlsmith/relmodel.hh:88-93 | a child scope starts with its parent's relations, tables and name counters |
| SmithScope.Scope.NewStmt | sqlsmith/relmodel.hh:112-114 | a new statement starts counting afresh |
| SmithScope.NewRefsDistinct | sqlsmith/grammar.cc:200-213 | relations with newly issued aliases can be added without making any visible name ambiguous |
| SmithSchema.PushAccepted | sqlsmith/schema.cc:15-48 | an index step lists exactly the items the type accepts |
| SmithSchema.GenerateIndexes | sqlsmith/schema.cc:11-62 | every index lists, for each type, exactly the routines, tables, operators or aggregates it accepts, and no empty entry |
| SmithSchema.IndexMeaning | sqlsmith/schema.cc:11-62 | the entries of each index spelled out: by result type, by result type without parameters, by some column's type |
| SmithProd.Prod.Child | sqlsmith/prod.cc:8-18 | a production is one level below its parent, in the same scope, with its own retry budget |
| SmithProd.Prod.Retry | sqlsmith/prod.cc:27-36 | fails exactly when the budget was already exceeded, and always counts |
| SmithProd.Match | sqlsmith/prod.cc:38-42 | a guarded production may go on exactly when it is not blacklisted, as BlacklistedWhen spells out |
| SmithGen.RefsOfType | sqlsmith/relmodel.hh:96-103 | exactly the pairs of a visible relation and one of its columns that the type accepts |
| SmithGen.NewColumnReference | sqlsmith/expr.cc:77-94 | the referenced relation is visible and unambiguous, the column is one of its columns, and a concrete type is met exactly |
| SmithGen.NewConstExpr | sqlsmith/expr.cc:195-208 | has the requested type |
| SmithGen.NewAtomicSubselect | sqlsmith/expr.cc:278-317 | a column of an existing table that the (aggregate's argument) type accepts, the aggregate being one the schema has; a concrete type is met exactly; the internal assertion cannot fail |
| SmithGen.PickProc | sqlsmith/expr.cc:210-252 | a routine of the given index that returns an accepted type and involves neither internal nor array types |
| SmithGen.NewFuncall | sqlsmith/expr.cc:210-261 | a routine or aggregate the schema has, with one good argument per parameter, of the parameter's type where that is concrete |
| SmithGen.NewCoalesce | sqlsmith/expr.cc:163-181 | both sides have the same type, and it is the requested one where that is concrete |
| SmithGen.NewCaseExpr | sqlsmith/expr.cc:42-58 | a Boolean condition over two good branches that do not have two different concrete types, with the type of the first; a concrete type is met exactly |
| SmithGen.Reconciled | sqlsmith/expr.cc:49-56 | values of equal type are kept; otherwise exactly the one the source picks is generated again, for the type of the other, which it meets where that is concrete |
| SmithGen.NewWindowFunction | sqlsmith/expr.cc:359-372 | stands only where window functions are allowed and not blacklisted, and has the type of its aggregate |
| SmithGen.ValueFactory | sqlsmith/expr.cc:17-40 | every successful value is good at its position, through all eight productions and all retries; for a type that accepts only itself it has exactly that type |
| SmithGen.NewComparisonOp | sqlsmith/expr.cc:143-161 | Boolean, from an operator the schema has for that result, with operands of its types where those are concrete; where both sides of the operator have one type, the operands do not have two different concrete ones |
| SmithGen.NewBoolTerm | sqlsmith/expr.hh:147-152 | Boolean, from two Boolean operands |
| SmithGen.NewNullPredicate | sqlsmith/expr.hh:103-118 | Boolean, over any good value |
| SmithGen.NewExistsPredicate | sqlsmith/expr.cc:119-122 | Boolean, over a good subquery that sees the enclosing relations |
| SmithGen.BoolFactory | sqlsmith/expr.cc:96-117 | every successful condition is good at its position and Boolean |
| SmithGen.NewQuerySpec | sqlsmith/grammar.cc:314-335 | selected values and the search condition see exactly the enclosing relations and those of the FROM clause |
| SmithGen.NewFromClause | sqlsmith/grammar.cc:200-213 | after the first item only lateral subqueries follow, each seeing the items before it; the query's scope gains exactly their relations |
| SmithGen.NewSelectList | sqlsmith/grammar.cc:215-226 | at least one value, each good at its position |
| SmithGen.NewTableName | sqlsmith/grammar.cc:33-36 | an alias of a table in scope, under a newly issued name |
| SmithGen.NewTableSample | sqlsmith/grammar.cc:60-72 | a base table, only while sampling is not blacklisted |
| SmithGen.NewSubquery | sqlsmith/grammar.cc:81-87 | the alias offers the columns of the subquery's select list; lateral ones are counted and guarded |
| SmithGen.NewJoinedTable | sqlsmith/grammar.cc:153-171 | the condition sees the relations of both sides |
| SmithGen.NewSimpleJoinCond | sqlsmith/grammar.cc:109-132 | equates two columns of the same type, the left one of a relation of the left side and the right one of a relation of the right side |
| SmithGen.NewExprJoinCond | sqlsmith/grammar.cc:138-147 | a Boolean expression in a scope of both sides |
| SmithGen.TableRefFactory | sqlsmith/grammar.cc:15-31 | every successful table reference is good, its relations have new names, and no alias in it is used twice |
| SmithStmt.PickVictim | sqlsmith/grammar.cc:339-349 | a base table in scope, outside of pg_catalog, with columns |
| SmithStmt.ColumnValues | sqlsmith/grammar.cc:379-383 | one value per column, of exactly the column's type; for concrete column types the source's assertion cannot fail |
| SmithStmt.NewSetList | sqlsmith/grammar.cc:408-419 | a non-empty list of columns of the target, each with a value of its type where that is concrete |
| SmithStmt.NewInsert | sqlsmith/grammar.cc:374-384 | a good insert statement, or a failure, or the assertion when a column type is not concrete |
| SmithStmt.NewUpsert | sqlsmith/grammar.cc:453-464 | as insert, with a good set list and condition |
| SmithStmt.NewDeleteReturning | sqlsmith/grammar.cc:362-372 | condition and returned values see the victim by its own name |
| SmithStmt.NewUpdateReturning | sqlsmith/grammar.cc:433-450 | condition, set list and returned values see the victim by its own name |
| SmithStmt.WhenFactory | sqlsmith/grammar.cc:585-682 | a WHEN clause with a Boolean condition and a good action |
| SmithStmt.NewMerge | sqlsmith/grammar.cc:541-558 | a good MERGE: the condition equates a column of the target with one of the source, and there is a WHEN clause; no alias in it, the target's among them, is used twice |
| SmithStmt.NewCommonTableExpression | sqlsmith/grammar.cc:498-525 | each WITH query sees the tables only, and the final query also sees the WITH aliases, under the select lists' columns |
| SmithStmt.StatementFactory | sqlsmith/grammar.cc:466-488 | a failed attempt is never returned; every statement returned is good; every alias that occurs in it, at any depth, was issued since new_stmt, and no two relations in it share one, even after failed attempts; no assertion fails when all column types are concrete |
| SmithMeasure.ExprFits | sqlsmith/expr.cc:17-40 | an expression good at level l below k lateral subqueries ends at level 104 + 3(k + its own lateral nesting) or above |
| SmithMeasure.StatementFits | sqlsmith/prod.cc:8-18 | a good statement is at most 104 + 3k high, k being its lateral nesting, and contains no blacklisted production |
| SmithMeasure.ExprMeasured | sqlsmith/prod.cc:8-18 | an expression is measured as higher than each of its operands, with everything they contain and its own guarded name |
| SmithMeasure.QueryMeasured | sqlsmith/prod.cc:8-18 | a query is measured with all its FROM items, selected values and its condition, each at its level |
| SmithMeasure.TableMeasured | sqlsmith/prod.cc:8-18 | so is a table reference, where a lateral subquery counts once more |
| SmithMeasure.StmtMeasured | sqlsmith/prod.cc:8-18 | so is a statement, with its own guarded name |
| SmithMeasure.WhenMeasured | sqlsmith/prod.cc:8-18 | so is a WHEN clause, with its condition, assignments or values |
| SmithMeasure.QueriesMeasured | sqlsmith/prod.cc:8-18 | no WITH query is missed |
| SmithMeasure.WhensMeasured | sqlsmith/prod.cc:8-18 | no WHEN clause is missed |
| Impedance.Feedback.Executed | sqlsmith/impedance.cc:28-32 | a success is counted once for each production found |
| Impedance.Feedback.Error | sqlsmith/impedance.cc:34-39 | a failure is counted once for each production found |
| Impedance.BlacklistedWhen | sqlsmith/impedance.cc:43-53 | a production is used exactly while it has fewer than 100 failures or at most 99 of them to every success |
| SmithRun.Visit | sqlsmith/impedance.cc:13-26 | whatever traversal visits, a guarded production is only found when the statement contains it |
| SmithRun.MainLoop | sqlsmith/sqlsmith.cc:196-233 | what happens is a run: each statement is good under the counts before it, and the counts follow from its outcome |
| SmithRun.BlacklistedForever | sqlsmith/impedance.cc:43-52 | over every run: once a guarded production is blacklisted, no later statement contains it, its counts never change and it stays blacklisted |
| SmithRun.CountersTally | sqlsmith/impedance.cc:13-39 | the counters are the numbers of failed and of successful rounds in which a production was found |
| SmithRun.BlacklistedByTally | sqlsmith/impedance.cc:43-53 | over every run from empty counters: blacklisted exactly with at least 100 failed rounds and more than 99 of them to every successful one |
| SmithRun.FailuresBounded | sqlsmith/impedance.cc:43-53 | a guarded production never fails more often than max(100, 99 * successes + 1) times, is blacklisted exactly when that number is reached, and only by a failed round in which it was found |
| Coverage.VerdictMeaning | AFLplusplus/include/coverage-64.h:77-107 | the fold yields 2 if some non-zero byte meets a pristine virgin byte, else 1 if any bits overlap, else 0 |
| Coverage.WordOverlap | AFLplusplus/include/coverage-64.h:83-83 | the word test is non-zero exactly when some byte overlaps |
| Coverage.WordCleared | AFLplusplus/include/coverage-64.h:103-103 | clearing a word clears each of its bytes |
| Coverage.DiscoverWord | AFLplusplus/include/coverage-64.h:77-107 | the verdict rises to that of the word's bytes and exactly its bits are cleared from the virgin map, for words of any size |
| Coverage.HasNewBits | AFLplusplus/src/afl-fuzz-bitmap.c:205-238 | verdict and new virgin map are those of the bytes, up to the map size rounded up to whole words |
| Coverage.Record | AFLplusplus/src/afl-fuzz-bitmap.c:205-238 | comparing any list of traces one after the other leaves the virgin map of the whole history, and each verdict is against the history before it |
| Coverage.WordSizesAgree | AFLplusplus/include/coverage-32.h:67-95 | the 32-bit and the 64-bit forms give the same verdict and the same virgin map |
| Coverage.VirginIsHistory | AFLplusplus/include/coverage-64.h:77-107 | after any history, the virgin map is the initial one without every bit any trace showed |
| Coverage.ScoresZeroIffCovered | AFLplusplus/include/coverage-64.h:77-107 | a trace scores 0 if and only if earlier traces cover it within the initial virgin map |
| Coverage.RecordedTwice | AFLplusplus/include/coverage-64.h:77-107 | a trace that was just recorded scores 0 |
| Coverage.InitCountClass16 | AFLplusplus/src/afl-fuzz-bitmap.c:172-187 | the 16-bit table classifies both bytes of every pair |
| Coverage.ClassMeaning | AFLplusplus/src/afl-fuzz-bitmap.c:156-168 | a class is a single bit, 0 only for no hit, grows with the count, and is shared by two counts exactly when they lie in one of the nine ranges |
| Coverage.ClassifiedAlike | AFLplusplus/src/afl-fuzz-bitmap.c:156-168 | two traces are classified alike exactly when their counts lie in the same ranges |
| Coverage.ClassifyWord | AFLplusplus/include/coverage-64.h:11-24 | looking up pairs classifies each byte of the word |
| Coverage.ClassifyCounts | AFLplusplus/include/coverage-64.h:58-73 | every byte of every whole word is classified and nothing else changes, although zero words are skipped |
| Coverage.SkimScalar | AFLplusplus/include/coverage-64.h:178-191 | 1 exactly when the classified trace overlaps the virgin map, for both word sizes |
| Coverage.SkimVector | AFLplusplus/include/coverage-64.h:111-172 | the same answer from the AVX2 and AVX-512 forms that mask out zero words |
| Coverage.HasNewBitsUnclassified | AFLplusplus/src/afl-fuzz-bitmap.c:250-269 | skimming first changes neither the verdict nor the virgin map; the trace is left raw exactly when nothing is new |
| Coverage.SimplifyTrace | AFLplusplus/include/coverage-64.h:26-56 | 1 for untouched and 128 for hit bytes of every whole word |
| Pipe.StatusWordRead | AFLplusplus/instrumentation/afl-compiler-rt.o.c:1240-1240 | the status macros tell exits, signals and stops apart on every status word |
| Handshake.OfferReadBack | AFLplusplus/include/types.h:53-64 | the fuzzer reads back from the offer exactly the options and the map size the target put in |
| Handshake.AgreedMapSize | AFLplusplus/src/afl-forkserver.c:1043-1071 | the fuzzer's map holds the target's, rounded up to whole cache lines; a target too large to offer its size leaves the fuzzer's own |
| Handshake.GivesUp | AFLplusplus/src/afl-forkserver.c:985-1068 | the fuzzer gives up on a target if and only if it wants shared test cases and the fuzzer has none, or its map is larger than the fuzzer's |
| Handshake.InStepUnlessBareRefusal | AFLplusplus/src/afl-forkserver.c:985-1110 | target and fuzzer agree on which control words are run requests and on the dictionary, if and only if the fuzzer does not refuse a dictionary without a shared test case to confirm; otherwise exactly one extra run is served |
| Handshake.BareRefusalExample | AFLplusplus/src/afl-forkserver.c:1075-1097 | a fuzzer that takes no dictionaries and a target with one are out of step: the refusal is served as a run before the first request |
| ForkServer.Server.Greet | AFLplusplus/instrumentation/afl-compiler-rt.o.c:1026-1118 | what the handshake puts on the pipes; the reply is kept as first request exactly when one was read, no dictionary was sent and no shared test case was mapped |
| ForkServer.ErrorRecognised | AFLplusplus/include/types.h:41-46 | every error word makes whoever reads it as an offer give up, and the code can be read back from it |
| ForkServer.Server.SendDictionary | AFLplusplus/instrumentation/afl-compiler-rt.o.c:1081-1108 | length word first, then the whole dictionary in order, however the kernel cuts it |
| ForkServer.Server.TakeRequest | AFLplusplus/instrumentation/afl-compiler-rt.o.c:1126-1181 | one control word is taken, and a stopped child reported killed is reaped |
| ForkServer.Server.StartChild | AFLplusplus/instrumentation/afl-compiler-rt.o.c:1183-1218 | exactly one child exists afterwards: the woken one or a new one |
| ForkServer.Server.AwaitChild | AFLplusplus/instrumentation/afl-compiler-rt.o.c:1220-1249 | child word, wait, status word of that child; childStopped says whether it was left stopped |
| ForkServer.Server.ServeOne | AFLplusplus/instrumentation/afl-compiler-rt.o.c:1120-1251 | keeps the loop-head invariant: the only unreaped child is childPid, not running, and only while childStopped; a failing call ends the round after a known stage |
| ForkServer.Server.Serve | AFLplusplus/instrumentation/afl-compiler-rt.o.c:1120-1251 | the log of any run is a chain of complete rounds and the beginning of one more |
| ForkServer.Server.Run | AFLplusplus/instrumentation/afl-compiler-rt.o.c:1002-1253 | at no moment of any run, on any kernel, is there more than one unreaped child |
| ForkServer.RoundsSafe | AFLplusplus/instrumentation/afl-compiler-rt.o.c:1120-1251 | the same for every chain of rounds; between rounds the unreaped child is the one left stopped |
| ForkServer.RoundsAreAConversation | AFLplusplus/instrumentation/afl-compiler-rt.o.c:1220-1249 | per control word exactly one child word and one status word of that child, before the next control word |
| ForkServer.RequestsServed | AFLplusplus/instrumentation/afl-compiler-rt.o.c:1058-1135 | the rounds serve exactly the control words that the handshake leaves as requests, in order |
| ForkServer.RunServesRequests | AFLplusplus/instrumentation/afl-compiler-rt.o.c:1026-1251 | when the control words of a run are the fuzzer's reply and then its requests, the rounds serve exactly those requests if and only if the reply is not a bare refusal |
| DbDriver.Driver.NextTestcase | src/db_driver.cc:174-187 | a test case is read between the control word and the start word; a failed call yields length 0 |
| DbDriver.Driver.EndTestcase | src/db_driver.cc:189-196 | the status word is 6 for a server crash and 0xffffff otherwise |
| DbDriver.Driver.ServeOne | src/db_driver.cc:225-270 | a non-empty test case is answered completely, whether or not its plan could be translated, unless the pipe closes or a crashed server stays down |
| DbDriver.Driver.Serve | src/db_driver.cc:225-270 | every run is a list of answered test cases and at most the beginning of one more |
| DbDriver.CasesAreAConversation | src/db_driver.cc:225-270 | to the fuzzer the driver speaks the fork server's protocol: one start word and one status word per control word |
| DbDriver.CrashVerdict | AFLplusplus/src/afl-forkserver.c:1760-1769 | the fuzzer reports a crash if and only if the database server crashed, or exit code 255 was declared to mean one |
| DbDriver.DriverInStep | src/db_driver.cc:161-172 | the fuzzer never answers the driver's offer, and gives up exactly when the map does not fit or it uses a cmplog binary |
| GuardIds.NumberedFresh | AFLplusplus/instrumentation/afl-compiler-rt.o.c:1600-1616 | without overflow a module's non-zero guards are new and strictly increasing |
| GuardIds.ReservedUnlessOverflow | AFLplusplus/instrumentation/afl-compiler-rt.o.c:1600-1616 | every selected guard is at least 6 if and only if the 32-bit counter does not overflow |
| GuardIds.NonZeroSelected | AFLplusplus/instrumentation/afl-compiler-rt.o.c:1600-1616 | without overflow exactly the selected guards are non-zero |
| GuardIds.MapHoldsGuards | AFLplusplus/instrumentation/afl-compiler-rt.o.c:292-398 | the map is larger than every guard unless, outside of the fuzzer, the size it is given does not exceed the counter and the counter is below what the constructors found or the map is at a fixed address |
| GuardIds.MapTooSmall | AFLplusplus/instrumentation/afl-compiler-rt.o.c:363-398 | two failing inputs: AFL_MAP_SIZE of 2097153 with 3000000 edges, and a fixed address with as many |
| GuardIds.StartTooSmall | AFLplusplus/instrumentation/afl-compiler-rt.o.c:1374-1433 | the first of them is reached by the constructors of a target whose edges were numbered at link time |
| GuardIds.Runtime.constructor | AFLplusplus/instrumentation/SanitizerCoverageLTO.so.cc:1050-1058 | a runtime starts with the number of edges that link-time instrumentation stored, and no guard handed out |
| GuardIds.Runtime.MapShm | AFLplusplus/instrumentation/afl-compiler-rt.o.c:282-574 | counter and map size follow from environment, counter and earlier map; guards handed out before stay valid; nothing happens when the map exists; under the fuzzer or for a size dump it exits exactly when a size is asked for, memory is missing or the size is refused |
| GuardIds.Runtime.UnmapShm | AFLplusplus/instrumentation/afl-compiler-rt.o.c:685-734 | the map may be mapped again |
| GuardIds.Runtime.AutoInit | AFLplusplus/instrumentation/afl-compiler-rt.o.c:1374-1433 | the constructors have effect once and keep the guards handed out |
| GuardIds.Runtime.Assign | AFLplusplus/instrumentation/afl-compiler-rt.o.c:1602-1616 | the loop numbers the selected guards consecutively in 32 bits and zeroes the others |
| GuardIds.Runtime.GrowMap | AFLplusplus/instrumentation/afl-compiler-rt.o.c:1626-1644 | an initialised map ends up one larger than the highest number |
| GuardIds.Runtime.GuardInit | AFLplusplus/instrumentation/afl-compiler-rt.o.c:1514-1646 | over every sequence of calls, until the 32-bit counter overflows, all guards handed out are distinct and at least 6, a module's first guard is set, any other exactly when the ratio is absent or 100 or its draw succeeds, a repeated module is left alone, and with shared memory initialised every guard is below the map size |
| PoolList.List.Append | AFLplusplus/include/list.h:70-94 | the sequence gains the item at its end; fatal exactly when pool and memory are exhausted |
| PoolList.List.Alloc | AFLplusplus/include/afl-prealloc.h:58-88 | a free slot below the limit, fresh memory from there on; the count stays the number of used slots |
| PoolList.List.FindFree | AFLplusplus/include/afl-prealloc.h:70-82 | with fewer than 64 used slots the search finds a free one, the first |
| PoolList.List.Init | AFLplusplus/include/list.h:73-81 | an empty ring whose head occupies the first slot |
| PoolList.List.LinkLast | AFLplusplus/include/list.h:88-92 | forward links spell the longer sequence and backward links its reverse |
| PoolList.List.Bypass | AFLplusplus/include/list.h:123-130 | forward and backward links spell the sequence without the element |
| PoolList.List.Free | AFLplusplus/include/afl-prealloc.h:107-138 | the slot is free again and the count correct; neither fatal case can happen to a list element |
| PoolList.List.Remove | AFLplusplus/include/list.h:148-166 | the first occurrence disappears; fatal exactly for an uninitialised list or a missing item |
| PoolList.List.Find | AFLplusplus/include/list.h:100-119 | following the links finds the first occurrence, or nothing exactly when there is none |
| PoolList.List.Contains | AFLplusplus/include/list.h:170-180 | true exactly for members; fatal exactly for an uninitialised list |
| PoolList.List.Clear | AFLplusplus/include/list.h:134-144 | visits every item once, in order, and leaves an empty list with one used slot |
| Rand.DuoBackNext | AFLplusplus/src/afl-performance.c:45-53 | a romuDuoJr step can be undone |
| Rand.TrioBackNext | AFLplusplus/src/afl-performance.c:57-68 | a RomuTrio32 step can be undone |
| Rand.SeededDuoNeverZero | AFLplusplus/src/afl-performance.c:30-53 | from every seed, no number of steps reaches the all-zero state |
| Rand.SeededTrioNeverZero | AFLplusplus/src/afl-performance.c:30-68 | the same in the 32-bit build |
| Rand.HitCount | AFLplusplus/include/afl-fuzz.h:1238-1245 | how often each residue is hit by draws below any bound |
| Rand.Unbiased | AFLplusplus/include/afl-fuzz.h:1238-1245 | in the 64-bit build every result has exactly the same number of accepted draws |
| Rand.UnbiasedIn32Bits | AFLplusplus/include/afl-fuzz.h:1238-1245 | in the 32-bit build nothing is rejected, and results are equally likely if and only if the limit divides 2^32 |
| Rand.BiasedForThree | AFLplusplus/include/afl-fuzz.h:1238-1245 | with a limit of 3 the 32-bit build hits 0 once more often than 1 or 2 |
| Rand.Rng.Next | AFLplusplus/src/afl-performance.c:45-53 | returns the first word and takes one step |
| Rand.Rng.Below | AFLplusplus/include/afl-fuzz.h:1219-1247 | the value of the first draw the bound accepts, counted from the state the reseeding rule starts with, reduced below the limit; and exactly that many steps are taken |
| Rand.Rng.BelowDatalen | AFLplusplus/include/afl-fuzz.h:1252-1273 | a draw below the limit, lowered by as many draws below limit - 1 as a draw below 3 says, and never raised; each is the accepted draw from where the one before it left the generator |
| Realloc.SmearBits | AFLplusplus/include/alloc-inl.h:617-622 | the fill sets a bit exactly when one of the 32 bits from it upwards is set |
| Realloc.NextPow2 | AFLplusplus/include/alloc-inl.h:606-625 | the sequence of assignments computes that fill plus one, wrapping at both ends |
| Realloc.NextIsLeastPow2 | AFLplusplus/include/alloc-inl.h:603-625 | a power of two, and then the least one not below the argument, if and only if there is no gap of 32 zero bits |
| Realloc.NoGapBelow | AFLplusplus/include/alloc-inl.h:606-625 | up to 2^32 there is no gap |
| Realloc.GapAbove | AFLplusplus/include/alloc-inl.h:606-625 | 2^e + 1 is not rounded up to a power of two for any e from 32 to 63 |
| Realloc.GrownSize | AFLplusplus/include/alloc-inl.h:683-696 | at least 64 and at least what is needed; up to 2^32 a power of two, and either 64 or less than twice what is needed |
| Realloc.NextTight | AFLplusplus/include/alloc-inl.h:606-625 | up to 2^32 rounding up does not double |
| Realloc.Buffer.Realloc | AFLplusplus/include/alloc-inl.h:663-717 | the capacity covers the request if and only if adding the header does not wrap; contents survive; within 2^32 sizes are powers of two from 64 on, every growth at least doubles and, beyond 64, stays below twice the request; a failed growth frees the buffer |
| PlanPool.AreIsomorphic | src/tree.py:42-53 | true exactly for equal trees |
| PlanPool.TreeKeepsTypes | src/preprocess.py:97-113 | the tree of a plan with at most two children per node has every node type at its place |
| PlanPool.SameTree | src/preprocess.py:97-113 | two such plans have the same tree exactly when their node types agree position by position |
| PlanPool.WideNodes | src/preprocess.py:106-111 | of three or more children only the first is kept |
| PlanPool.UniquePlan.Consider | src/preprocess.py:127-141 | a plan is kept exactly when it is new, kept plans differ pairwise, and the pool explains all of them but the first |
| PlanPool.UniquePlan.Build | src/preprocess.py:116-145 | every analysed plan has an equal kept one, and the capacity is not exceeded |

## Left out

- Hashing of inputs up to 240 bytes and the 128-bit merge of the lanes are parameters of the XXH3 model, so streaming is proved for every choice of them.
- The bytes of the default secret are a parameter, since nothing proved depends on them.
- NEON, VSX and aligned-load forms of the hash kernels repeat the same shapes.
- Printing statements as SQL text, and `distinct_pred`, which no factory calls.
- The lock modes of `select_for_update` and the check that drops them; the statement is modelled as the query underneath.
- SmithScope.StmtSeq.Uid: counts without bound; what a 32-bit counter changes is stated by WrappingNamesDistinct.
- SmithGen.ValueFactory: takes a budget of nested attempts so that generation ends; a run that uses it up is reported as stuck, and everything is proved for every budget.
- SmithRun.Visit: visits any part of a statement, because the source's traversal skips some children; what it finds is bounded from above.
- Impedance compares error rates as exact fractions where the source uses floating point.
- Connection loss and reconnection in the outer loop of SQLsmith, and its loggers.
- The snapshot variant of the fork server, and guard numbering after the fork server is up, which reuses numbers on purpose.
- GuardIds.Runtime.MapShm: models the sizes and which branch is taken, not the addresses or the contents of the mapped memory, and not selective coverage.
- Handshake covers the option words; parsing the dictionary and the fuzzer's check of its length are not part of the model.
- DbDriver.Driver.ServeOne: does not model the environment clean-up between test cases or the byte set in the coverage map.
- Rand.Rng.Below: stops after a given number of rejected draws, since nothing rules out an endless rejection; seeding is proved for every value of the seed's hash.
- Rand.Rng.BelowDatalen: draws its numbers from left to right, an order that C leaves open.
- Realloc.Buffer.Realloc: holds the buffer as a value, so it does not capture that realloc() may move it; `afl_realloc_exact` adds nothing new.
- Mutation, scheduling, the queue, and the translation of plans to statements (Haskell) are not part of this model.
