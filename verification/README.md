# RefineDB verification

RefineDB keeps typed documents in a flat ordered key-value store and runs queries as dataflow graphs. This project
models its hard core in Dafny 4.11 and proves what that core is for. `dafny verify dfyconfig.toml` checks all of it.

The model has three parts.

**Storage.** `SchemaCompiler` specialises generic table types and memoises them by printed name. `Planner` lays a compiled
schema out on 12-byte storage keys, inheriting the keys of an old plan where the old schema had the same field. `PathWalker`
follows a data path through a plan and spells its byte key: flattened tables vanish, set entries insert `00 pk 00`, recursive
tables jump back to an ancestor's layout. `KeyEncoding` serialises primary keys. `StoredDocuments` is what the executor's
write, delete and scan nodes do to keys.
The main results: a schema compiles exactly if its exports reach finitely many well-declared types (`Compilability`) and can be
planned exactly if those are declared, keyed and there are enough keys (`Plannability`); distinct paths have distinct keys
(`KeySpace`), every well-typed path walks except in one exactly described case (`WalkTyping`), migration leaves data under the
same bytes (`Migration`) and keys distinct exactly if renames are injective (`KeyDistinctness`), range deletes are exact, writes
change nothing else and read back except in two exactly described cases (`RoundTrip`, `EffectLaws`), and the set index agrees
with the data through every run (`IndexAgreement`), so a reduce is the fold over exactly the members in range (`SetScan`). The
byte store is connected to a store of path-named cells (`DocumentStore`) by a refinement, and most properties are proved on
the cells.

**Queries.** `Codegen` lowers `if`, `else`, `??` and `throw` to a graph of nodes with preconditions and `select`. `Scheduler`
and `Executor` run graphs, taking any pending node next. The main results: lowering accepts exactly the well-scoped programs
(`ScriptScopes`) and preserves their meaning (`CodegenTheorems`), every generated node has exactly the guards of its place in the program (`NodeGuards`), and every
completion order of every graph with distinct sources ends (`RunBounds`), and fails or returns what in-order evaluation returns
(`SelectConflict`). All orders agree with in-order evaluation (`Confluence`) if and only if no `select` is enabled before all
its candidates have arrived; `SelectOrders` decides from the graph and its in-order statuses whether all, some or no orders
succeed. Scripts of lowered graphs are order independent (`LoweredScripts`).

**Transactions.** `MemKv` is the in-memory multi-version store, `SnapshotIsolation` all interleavings over it, `Retry` the
retry loop of `run_graph`, and `SqliteLog` the operation log of the second backend. `CommitDecisions` says of every run, by the
operations alone, which commits succeed, what they leave and what their transactions were told.

## What turned out not to hold

In each case the code is modelled as it is, a lemma shows the failure, and the exact condition is proved.

- Walking a typed path can fail: a set element whose table type already occurs above it is an unresolved reference, so none
  of its fields can be entered (`WalkTyping.RecursiveSetElementsAreClosed`, `WalkTyping.PathWalksIff`).
- A plain node that names the source arriving last twice is started twice, the second time without parameters, which fails
  the run if its operator does not run without them; a `select` that has a value and names the arriving source twice fails the
  run (`RepeatedSources.SelfComparisonFails`, `RepeatedSources.StartedOnceIffSourceOnce`,
  `RepeatedSources.RepeatedSourceFails`, `RepeatedSources.SelectNamesSourceOnce`).
- The outcome of a query can depend on the completion order: in `if c { return select a b; }` with two values `a` and `b`, the
  `select` works if both arrive before `c` and fails otherwise (`ConditionalSelect.OrderDecides`,
  `SelectOrders.OrderIndependentIff`, `SelectOrders.OrdersDisagreeIff`).
- `a ?? x` with a bare name `x` is not gated: if both yield values, even equal ones, every completion order fails
  (`BareRight.BareRightFails`, `BareRight.BareRightIff`).
- Code in opposite branches of an `if` can both run: the null test of a `??` has no precondition
  (`NodeGuards.NullTestsIgnoreBranches`). Of nodes with a precondition at most one runs (`NodeGuards.OppositeBranchesExclude`).
- Strings are not escaped in keys, so a NUL byte lets one entry's keys run into another's
  (`KeyEncoding.PrefixCollisionIffNul`) and into the range that deletes it (`KeySpace.NulEntryInRange`). The statements about
  stored sets ask for NUL-free string keys.
- A rename from a field that is still there makes two fields share a key (`KeyDistinctness.RenameFromLiveFieldCollides`,
  `KeyDistinctness.MigrationKeepsKeysDistinct`).
- The two backends differ on keys that another commit created, since the transaction began, inside a range it deleted
  (`SqliteLog.PhantomExists`, `SqliteLog.PhantomIsNew`, `SqliteLog.BackendsAgreeIffNoPhantom`).
- Doubles with a clear sign bit are stored as plain numbers and read back as int64 (`RoundTrip.WriteThenRead`).
- Writing null to a set or table field deletes only the field's own key; members and fields stored below it stay and are still
  read (`IndexAgreement.NullLeavesMembers`, `DocumentStore.WriteHolds`, `RoundTrip.WriteThenRead`).

## How the model relates to the source

- Ordered maps are sequences of their entries in iteration order, or maps where the order does not matter.
- Randomness and the clock in `rand_storage_key` are a stream of candidate keys; the stream running dry is the loop not ending.
- Errors and panics of a query both end its run, so in the dataflow part they are one outcome. In the storage part a panic is
  the walk error that causes it, and nothing is committed.
- Operators that the scheduler does not look into are one operator with an arbitrary deterministic meaning.
- Each store operation is atomic, as the store's lock makes it; versions are natural numbers.
- `primary` in the statements about sets is an arbitrary assignment of a key field to every set, so it covers the one the
  schema makes.
- A stored primitive is a value together with the type-guessing order of untagged unpacking; MessagePack bytes are not modelled.
- Type names are identifiers, as the grammar guarantees.

## Model

| member | source | states |
|---|---|---|
| `ByteStrings.ImmediateSuccessor` | rdb-pgsvc/src/memkv.rs:176-190 | `k ++ 00` is the immediate successor of `k` in byte order: nothing lies strictly between, so moving a cursor there skips exactly `k` |
| `ByteStrings.PrefixRange` | rdb-analyzer/src/data/treewalker/exec.rs:851-865 | the range from a prefix to the prefix with its last byte incremented holds exactly the keys that start with the prefix |
| `ByteStrings.RangeUnderPrefix` | rdb-server/src/kv_backend/sqlite.rs:217-232 | prefixing both ends of a range gives exactly the prefixed keys of the range, and no key of another namespace |
| `KeyEncoding.EncodeMonotone` | rdb-analyzer/src/data/value.rs:61-101 | for two values of one type, byte order of the encodings is value order, both ways: int64 numerically, doubles by the total order of their bit patterns, strings and bytes lexicographically |
| `KeyEncoding.DoubleOrder` | rdb-analyzer/src/data/value.rs:90-99 | the sign-dependent flip or complement of a double's bits turns totalOrder (section 5.10 of IEEE 754-2019) into unsigned order |
| `KeyEncoding.EscapeOrder` | rdb-analyzer/src/data/value.rs:63-77 | escaping 00 as 00 FF and terminating with 00 keeps lexicographic order |
| `KeyEncoding.EncodeInjective` | rdb-analyzer/src/data/value.rs:61-101 | different values, of any types, have different encodings |
| `KeyEncoding.EncodePrefixFree` | rdb-analyzer/src/data/value.rs:61-101 | encoding followed by 00 is prefix-free for int64, double, bytes and NUL-free strings |
| `KeyEncoding.PrefixCollisionIffNul` | rdb-analyzer/src/data/value.rs:78-80 | the terminated encoding of some other value is a prefix of a value's own if and only if that value is a string with a NUL byte: strings are not escaped |
| `KeyEncoding.EntryComponentsApart` | rdb-analyzer/src/data/pathwalker.rs:257-294 | two different serialised primary keys never give comparable entry components |
| `Dataflow.StatusEquation` | rdb-analyzer/src/data/treewalker/exec.rs:157-307 | in-order evaluation of a topologically sorted graph is the solution of the node equations (fire when the precondition enables and all sources fired; `select` takes the first that fired) |
| `NodeLaws.AndLaws` | rdb-analyzer/src/data/treewalker/exec.rs:518-520 | `and` on logical values: true is neutral, false beats true, null beats both, order does not matter |
| `NodeLaws.DeMorgan` | rdb-analyzer/src/data/treewalker/exec.rs:521-524 | `not` is its own inverse, and `or` is `and` seen through it, nulls included |
| `NodeLaws.NullAbsorbs` | rdb-analyzer/src/data/treewalker/bytecode.rs:198-209 | a null parameter makes every operator but the null test, `nop`, `reduce`, `throw` and the map writers yield null, and an effect node nothing |
| `NodeLaws.ThrowEndsGraph` | rdb-analyzer/src/data/treewalker/exec.rs:726-735 | a `throw` whose precondition holds and whose parameter arrives fails its graph |
| `NodeLaws.NestingLimit` | rdb-analyzer/src/data/treewalker/exec.rs:543-548 | a call hands its parameters to the callee: a chain of calls returns the value it was given if it is at most 128 graphs deep, and fails otherwise |
| `NodeLaws.ReduceNode` | rdb-analyzer/src/data/treewalker/exec.rs:625-660 | `reduce` over a list: accumulators from the given start, each the subgraph's result on the one before and the item, up to the first null, the first failure or the end; null gives null |
| `Executor.GenerateFireRules` | rdb-analyzer/src/data/treewalker/exec.rs:890-907 | the table built by the nested loops holds, per source, exactly the fire items of that source in target order |
| `Executor.DeliverResult` | rdb-analyzer/src/data/treewalker/exec.rs:224-248 | the first pass over the fire items is the delivery function, including its error exits |
| `Executor.StartReady` | rdb-analyzer/src/data/treewalker/exec.rs:250-304 | the second pass starts exactly the targets that the specification says became ready, in order; the outcomes are as expected, or failures in an order dependent script |
| `Executor.ReduceOver` | rdb-analyzer/src/data/treewalker/exec.rs:625-660 | the list loop of `Reduce` is the fold that stops at the first null; in an order dependent script it may also fail with a subgraph call |
| `Executor.RecursivelyRunGraph` | rdb-analyzer/src/data/treewalker/exec.rs:157-307 | for every script with backward edges and distinct sources, the loop, which may take any pending future next, ends, and fails or returns what in-order evaluation returns, nested calls included; if the graphs are order independent it returns exactly that |
| `LoweredScripts.LoweredIsDeterministic` | rdb-analyzer/src/data/treewalker/asm/codegen.rs:110-326 | a script whose graphs are all lowered from programs without explicit `select`, with distinct sources, is order independent whatever it is called with |
| `LoweredScripts.LoweredCall` | rdb-analyzer/src/data/treewalker/exec.rs:157-307 | a call of such a graph fails if a node of it fails, and returns what its program returns otherwise |
| `LoweredScripts.RunLowered` | rdb-analyzer/src/data/treewalker/exec.rs:157-307 | the loop on such a script needs no further hypothesis |
| `Scheduler.RowDistinct` | rdb-analyzer/src/data/treewalker/exec.rs:890-907 | with distinct sources per node a row never names a target twice |
| `Confluence.CompleteStep` | rdb-analyzer/src/data/treewalker/exec.rs:212-305 | from a state that satisfies the invariant, if no `select` is enabled while a candidate is to come, completing any pending node keeps the invariant: the node had not run before, and the run fails exactly if that node or its delivery fails in the in-order semantics |
| `Confluence.RunInv` | rdb-analyzer/src/data/treewalker/exec.rs:157-307 | in an order independent graph the scheduler invariant holds in every state of every completion order |
| `Confluence.Quiescent` | rdb-analyzer/src/data/treewalker/exec.rs:157-307 | when nothing is pending, every node that fires in order has run |
| `Confluence.AnyScheduleRefinesInOrder` | rdb-analyzer/src/data/treewalker/exec.rs:157-307 | if the precondition of every `select` waits for all its candidates, or only one completes, every completion order takes at most one step per node, runs each node at most once with its in-order result, and ends with the in-order fired set and outcome |
| `RunBounds.EveryRunIsBounded` | rdb-analyzer/src/data/treewalker/exec.rs:212-305 | whatever the `select`s choose from: no node starts or completes twice in any run, so there are at most as many completions as nodes |
| `SelectConflict.SuccessfulRunsAgree` | rdb-analyzer/src/data/treewalker/exec.rs:212-306 | whatever the `select`s choose from: a run that succeeds returns the in-order value, completes exactly the nodes that fire in order, and has completed all candidates of every `select` with several of them before its precondition, which is there |
| `SelectOrders.SomeOrderSucceedsIff` | rdb-analyzer/src/data/treewalker/exec.rs:225-273 | some completion order succeeds if and only if in-order evaluation does and the nodes can be ranked so that sources precede users and the candidates of a conflicting `select` its precondition |
| `SelectOrders.EveryOrderFails` | rdb-analyzer/src/data/treewalker/exec.rs:225-273 | every completion order fails if a `select` with two completing candidates has no precondition, or one of them waits for it |
| `SelectOrders.OneConflictIff` | rdb-analyzer/src/data/treewalker/exec.rs:225-273 | in a graph that does not fail in order and has one `select` with several completing candidates, some order succeeds if and only if that has a precondition and no candidate waits for it |
| `SelectOrders.WaitsReaches` | rdb-analyzer/src/data/treewalker/exec.rs:225-273 | to wait for a node is to be below it in the graph, and without `select`s in between the converse |
| `SelectOrders.OrderIndependentIff` | rdb-analyzer/src/data/treewalker/exec.rs:212-306 | every completion order has the in-order outcome if and only if that is a failure, or the precondition of every conflicting `select` waits for all its candidates |
| `SelectOrders.OrdersDisagreeIff` | rdb-analyzer/src/data/treewalker/exec.rs:212-306 | two completion orders have different outcomes if and only if in-order evaluation succeeds, that condition fails and such a ranking exists |
| `ConditionalSelect.OrderDecides` | rdb-analyzer/src/data/treewalker/asm/codegen.rs:119-130 | the graph generated for `if c { return select a b; }`, the value it means, a completion order that returns it and one that fails |
| `Confluence.SchedulesAgree` | rdb-analyzer/src/data/treewalker/exec.rs:157-307 | any two completion orders that finish give the same outcome; one fails if and only if the other does |
| `RepeatedSources.StartedOnceIffSourceOnce` | rdb-analyzer/src/data/treewalker/exec.rs:250-304 | a plain target that is startable after a delivery is started as often as it names the completed source, so once if and only if it names it once |
| `RepeatedSources.SelectNamesSourceOnce` | rdb-analyzer/src/data/treewalker/exec.rs:252-273 | a `select` that has a value after a delivery fails the run unless it names the completed source at most once, and is then started as often as it names it |
| `RepeatedSources.RepeatedSourceFails` | rdb-analyzer/src/data/treewalker/exec.rs:250-304 | for a plain node that names a source twice and whose operator fails without parameters, every finished run in which that source arrives last has failed |
| `RepeatedSources.SelfComparisonFails` | rdb-analyzer/src/data/treewalker/exec.rs:250-304 | `x == x` on one node evaluates to true in order, but the executor starts it twice and the run fails |
| `RepeatedSources.RowCount` | rdb-analyzer/src/data/treewalker/exec.rs:890-907 | a row holds one item per occurrence of the source among a target's edges and precondition |
| `Codegen.GraphContext.GenerateExpr` | rdb-analyzer/src/data/treewalker/asm/codegen.rs:169-424 | the generator object ends in the state, and returns the node, that the generation function says; failure exactly when it fails |
| `Codegen.GraphContext.GenerateRight` | rdb-analyzer/src/data/treewalker/asm/codegen.rs:307-317 | the null test, its negation and the gated right operand of `??` |
| `Codegen.GraphContext.GenerateStmt` | rdb-analyzer/src/data/treewalker/asm/codegen.rs:110-158 | the generator object ends in the state that the generation function says, and fails exactly when it fails, which `ScriptScopes.GeneratesExactlyIf` decides from the text; the condition stack is restored |
| `Codegen.GraphContext.GenerateBranch` | rdb-analyzer/src/data/treewalker/asm/codegen.rs:123-144 | the same for one branch of an `if` |
| `Codegen.GraphContext.GenerateCondition` | rdb-analyzer/src/data/treewalker/asm/codegen.rs:160-167 | a nested condition is the conjunction with the innermost enclosing one |
| `Codegen.GraphContext.Append` | rdb-analyzer/src/data/treewalker/asm/codegen.rs:426-440 | appends one node and registers its name once; a second use of the name fails |
| `ScriptScopes.GeneratesExactlyIf` | rdb-analyzer/src/data/treewalker/asm/codegen.rs:72-440 | a graph is generated if and only if, reading its text from left to right, parameters first, every name is bound before it is used, none is bound twice and there is at most one `return`; its names are then exactly the bound ones, and it has an output exactly if there is a `return` |
| `NodeGuards.EveryNodeGuarded` | rdb-analyzer/src/data/treewalker/asm/codegen.rs:110-326 | the nodes of a generated graph are, one by one, the labels read off the program text: a node has a precondition if and only if its label names guards, and the precondition holds if and only if those hold: every enclosing `if` condition fired true, every enclosing `else` condition fired false, null enables neither |
| `CodegenCorrect.OrElseValue` | rdb-analyzer/src/data/treewalker/asm/codegen.rs:307-326 | `a ?? b` yields `a` when it is not null and `b` otherwise, and at most one of the two `select` candidates completes |
| `CodegenCorrect.GenExprCorrect` | rdb-analyzer/src/data/treewalker/asm/codegen.rs:169-424 | the node generated for an expression gets, in order, the status the expression has in the source program; all edges point backwards |
| `CodegenTheorems.GenStmtCorrect` | rdb-analyzer/src/data/treewalker/asm/codegen.rs:110-158 | the same for statements: bindings, return value and every statement node |
| `NodeGuards.OppositeBranchesExclude` | rdb-analyzer/src/data/treewalker/asm/codegen.rs:119-141 | of a node pushed for the `if` body and a node pushed for the `else` body, at any depth and in any later graph, both with a precondition, at least one stays idle |
| `NodeGuards.NoRunTakesBothBranches` | rdb-analyzer/src/data/treewalker/asm/codegen.rs:119-141 | so no completion order completes both |
| `NodeGuards.NullTestsIgnoreBranches` | rdb-analyzer/src/data/treewalker/asm/codegen.rs:307-310 | the exception: `x ?? _` in both branches of any `if` runs both null tests whenever `x` yields something |
| `CodegenTheorems.LoweringPreservesMeaning` | rdb-analyzer/src/data/treewalker/asm/codegen.rs:72-167 | for whole graphs whose `??` right operands are not bare names: names, return value and statements have the source program's statuses, edges point backwards, and no generated `select` is ambiguous |
| `CodegenTheorems.EveryScheduleRunsTheProgram` | rdb-analyzer/src/data/treewalker/exec.rs:157-307 | a lowered graph with distinct sources returns the source program's value in every completion order, or fails in every order |
| `BareRight.BareRightLowering` | rdb-analyzer/src/data/treewalker/asm/codegen.rs:177-178 | `a ?? x` with a bare name `x` leaves `x` ungated: what its graph computes in order, and that its `select` is ambiguous if and only if `x` completes and `a` is a value |
| `BareRight.BothYieldFails` | rdb-analyzer/src/data/treewalker/asm/codegen.rs:307-326 | wherever `a ?? x` runs with a value `a` and a yielding `x`, every finished run of every graph that contains it has failed |
| `BareRight.BareRightIff` | rdb-analyzer/src/data/treewalker/asm/codegen.rs:307-326 | a program that ends in `return a ?? x`, has no other bare right operand or explicit `select`, and does not fail in order: a finished run returns what the program returns if and only if `x` yields nothing or `a` is null |
| `BareRight.BareRightFails` | rdb-analyzer/src/data/treewalker/asm/codegen.rs:307-326 | `return a ?? x` on two non-null arguments, equal or not: the program means `a`, the graph is this one, and this run of it fails |
| `MemKv.MemStore.BeginTransaction` | rdb-pgsvc/src/memkv.rs:60-69 | a transaction sees the store as it was when it began |
| `MemKv.MemTransaction.Get` | rdb-pgsvc/src/memkv.rs:74-83 | reads go to the snapshot, not to the transaction's own writes |
| `MemKv.MemTransaction.Put` | rdb-pgsvc/src/memkv.rs:85-100 | one key is written; the version it started from is recorded once |
| `MemKv.MemTransaction.Delete` | rdb-pgsvc/src/memkv.rs:102-112 | a tombstone is written, with the same bookkeeping |
| `MemKv.MemTransaction.DeleteRange` | rdb-pgsvc/src/memkv.rs:142-171 | the loop tombstones exactly the keys the working copy has in the range |
| `MemKv.MemTransaction.Commit` | rdb-pgsvc/src/memkv.rs:122-140 | all written keys are validated before any is written: either every write goes in or nothing changes; when it succeeds is `CommitDecisions.CommitsUnlessOvertaken` |
| `MemKv.WriteLive` | rdb-pgsvc/src/memkv.rs:85-112 | a point write is a point update of what is visible, tombstones and versions aside |
| `MemKv.EraseRangeLive` | rdb-pgsvc/src/memkv.rs:142-171 | a range delete hides exactly the visible keys of the range |
| `MemKv.MemIterator.Next` | rdb-pgsvc/src/memkv.rs:176-190 | yields the least live key not yet passed and passes exactly that key; the cursor never passes the end |
| `MemKv.MemIterator.Drain` | rdb-pgsvc/src/memkv.rs:114-120 | exhausting a scan lists exactly the live keys of the range, each once, ascending |
| `MemKv.SortedFacts` | rdb-pgsvc/src/memkv.rs:174-191 | the listing is complete and strictly ascending |
| `SnapshotIsolation.FirstCommitterWins` | rdb-pgsvc/src/memkv.rs:122-140 | of two committed transactions that wrote a common key, the later began after the earlier committed |
| `SnapshotIsolation.SnapshotIsCurrent` | rdb-pgsvc/src/memkv.rs:60-140 | for every key a committer wrote, its snapshot holds what the store held just before the commit |
| `SnapshotIsolation.EveryRunIsSnapshotIsolated` | rdb-pgsvc/src/memkv.rs:60-140 | both, in every interleaving of any number of transactions |
| `SnapshotIsolation.CommitIsSerial` | rdb-pgsvc/src/memkv.rs:60-140 | if no key that a transaction touched without writing it changed since it began, its replies and its commit are those of running it alone at its commit point |
| `SnapshotIsolation.SelfContainedRunsAreSerial` | rdb-pgsvc/src/memkv.rs:60-140 | if every committed transaction uses point operations and reads only keys it also writes, all replies and the final store are those of running them one after another in commit order |
| `CommitDecisions.CommitsUnlessOvertaken` | rdb-pgsvc/src/memkv.rs:122-140 | a transaction in flight commits if and only if no commit since it began wrote a key that it wrote; otherwise nothing changes but that it is over |
| `CommitDecisions.EveryCommitIsDecided` | rdb-pgsvc/src/memkv.rs:60-140 | the same for every run, with the start of the transaction and its operations read off the events, and written keys defined by operations: point writes, and range deletes of keys that some earlier write, its own or committed before its start, had touched |
| `CommitDecisions.CommitLeaves` | rdb-pgsvc/src/memkv.rs:85-171 | a commit leaves at each key it wrote its own last word on it, starting from its snapshot, and every other key as it was |
| `CommitDecisions.EveryReplyIsAnswer` | rdb-pgsvc/src/memkv.rs:74-120 | in every run a `get` is answered from the store as it was when the transaction began, and a scan with the live keys of the range there after the transaction's own writes |
| `CommitDecisions.StepEnabled` | rdb-pgsvc/src/memkv.rs:60-140 | in every reachable system a transaction can begin, go on and try to commit whenever it may |
| `Retry.ConflictChangesNothing` | rdb-pgsvc/src/memkv.rs:122-140 | a conflicting commit leaves store and history as they were |
| `Retry.AppliedExactlyOnce` | rdb-analyzer/src/data/treewalker/exec.rs:120-155 | over every interleaving of retrying clients: a call that succeeded applied exactly one attempt, any other none, and no call makes more than ten |
| `Retry.GivesUpAfterTen` | rdb-analyzer/src/data/treewalker/exec.rs:120-155 | a call gives up after exactly ten attempts to commit; one that succeeded made at least one and at most ten, any other fewer than ten |
| `Retry.AttemptDecided` | rdb-analyzer/src/data/treewalker/exec.rs:120-155 | in every run a running call can try to commit, and succeeds if and only if no commit since this attempt began wrote a key that the attempt wrote |
| `Retry.AttemptIsItsOperations` | rdb-analyzer/src/data/treewalker/exec.rs:120-155 | the transaction of a running call holds exactly the operations of its current attempt, none of an earlier one |
| `Retry.RetriesAreIsolated` | rdb-analyzer/src/data/treewalker/exec.rs:120-155 | all systems reached by retrying clients satisfy the isolation invariant |
| `SqliteLog.SqliteTxn.PutKey` | rdb-server/src/kv_backend/sqlite.rs:194-204 | appends the prefixed operation to the log and nothing else |
| `SqliteLog.SqliteTxn.DeleteKey` | rdb-server/src/kv_backend/sqlite.rs:206-215 | the same for a delete |
| `SqliteLog.SqliteTxn.DeleteKeys` | rdb-server/src/kv_backend/sqlite.rs:217-232 | the same for a range delete |
| `SqliteLog.SqliteTxn.Commit` | rdb-server/src/kv_backend/sqlite.rs:266-292 | the loop replays the log in order on the table |
| `SqliteLog.ForeignRowsKept` | rdb-server/src/kv_backend/sqlite.rs:194-292 | rows under other prefixes are untouched by any log |
| `SqliteLog.CommitVersusReplay` | rdb-server/src/kv_backend/sqlite.rs:266-292 | key by key, a successful in-memory commit and a replay of the log agree if and only if the key is not a phantom: live just before the commit, in a range the transaction deleted, and not among the keys it wrote |
| `SqliteLog.BackendsAgreeIffNoPhantom` | rdb-pgsvc/src/memkv.rs:85-171 | the two backends end with the same visible map if and only if there is no phantom |
| `SqliteLog.PhantomIsNew` | rdb-pgsvc/src/memkv.rs:85-171 | a phantom was absent when the transaction began, and a commit since then wrote it |
| `SqliteLog.PhantomExists` | rdb-server/src/kv_backend/sqlite.rs:266-292 | two transactions, one creating a key and the other deleting a range around it: both commit, the in-memory store keeps the key and the replayed logs lose it |
| `SchemaCompiler.TypeResolutionContext.ResolveTypeExpr` | rdb-analyzer/src/schema/compile.rs:281-452 | the method with its placeholder, memo table and loops computes the specified type and table |
| `SchemaCompiler.TypeResolutionContext.ResolveDeclared` | rdb-analyzer/src/schema/compile.rs:371-434 | the loop over declared fields |
| `Specialisation.PrintInjective` | rdb-analyzer/src/schema/compile.rs:226-233 | a printed type can be read back from the front of any text that goes on with a delimiter |
| `Specialisation.NamesIdentify` | rdb-analyzer/src/schema/compile.rs:340-348 | two specialised tables with the same printed name are the same type applied to the same arguments |
| `Specialisation.ResolveCorrect` | rdb-analyzer/src/schema/compile.rs:281-452 | a successful resolution returns the type that substitution gives, and leaves every finished entry of the memo table equal to its declaration under its arguments, with every mentioned table present |
| `CompiledSchemas.CompiledTypesAreSubstitutions` | rdb-analyzer/src/schema/compile.rs:108-129 | after `compile`, the fields stored under the name of a type application are exactly that type's declared fields under those arguments |
| `CompiledSchemas.EveryCompiledTypeIsDeclared` | rdb-analyzer/src/schema/compile.rs:281-452 | no placeholder is left: every compiled name belongs to such an application |
| `CompiledSchemas.CompiledExports` | rdb-analyzer/src/schema/compile.rs:108-129 | declared export names are pairwise distinct, exactly those names are exported, each with the type that substitution gives its type expression |
| `Compilability.CompilesExactlyIf` | rdb-analyzer/src/schema/compile.rs:108-452 | compilation succeeds, with some bound on nested specialisation, if and only if type names are distinct and capitalised, export names distinct, and the exports reach a finite set of table types, closed under what their declarations name, all well declared |
| `Compilability.DeclaredSucceeds` | rdb-analyzer/src/schema/compile.rs:371-434 | a table type has fields if and only if its declaration is well formed under its arguments: distinct names, meaningful types, known annotations, keys and indexes on primitive fields only, at most one primary key; then each field has the meaning of its type and its annotations in order |
| `Compilability.DeclareSucceeds` | rdb-analyzer/src/schema/compile.rs:257-279 | declaring succeeds if and only if type names are distinct and start with `A` to `Z` |
| `Compilability.DeclareKeeps` | rdb-analyzer/src/schema/compile.rs:257-279 | every declared item is kept under its name, and nothing else is declared |
| `Compilability.BindLast` | rdb-analyzer/src/schema/compile.rs:367-369 | a type parameter stands for the argument at its last position |
| `Compilability.BindOnly` | rdb-analyzer/src/schema/compile.rs:367-369 | and only type parameters stand for anything |
| `Compilability.PrimitiveNames` | rdb-analyzer/src/schema/compile.rs:72-88 | a name is a primitive type if and only if that type prints as it |
| `CompiledSchemas.CompiledIsWellFormed` | rdb-analyzer/src/schema/compile.rs:108-129 | compiled schemas have distinct fields and exports, sets of tables only, mention only tables they contain, and export exactly what is declared, with its meaning |
| `CompiledSchemas.PlanningFindsAllTypes` | rdb-analyzer/src/storage_plan/planner.rs:240-243 | for compiled schemas the planner's missing-type error is unreachable, whatever the old plan and keys |
| `Planner.TypeCollector.Visit` | rdb-analyzer/src/storage_plan/planner.rs:380-427 | the walk adds exactly the specified recursive and member types and restores its branch set on success |
| `Planner.PlanState.RandStorageKey` | rdb-analyzer/src/storage_plan/planner.rs:348-368 | the loop returns the first candidate not used before and marks it used |
| `Planner.PlanState.GenerateField` | rdb-analyzer/src/storage_plan/planner.rs:216-346 | the recursive method produces the specified node and used keys, and restores `fields_in_stack` on success |
| `Planner.PlanState.ExpandTable` | rdb-analyzer/src/storage_plan/planner.rs:240-311 | the same for a table that is not on the stack |
| `PlannerProperties.RepeatsAreCollected` | rdb-analyzer/src/storage_plan/planner.rs:380-427 | every type that is the first to repeat on a branch is collected as recursive |
| `PlannerProperties.CollectedRepeats` | rdb-analyzer/src/storage_plan/planner.rs:380-427 | nothing else is: a collected type is the first to repeat on some branch |
| `PlannerProperties.NestingBounded` | rdb-analyzer/src/storage_plan/planner.rs:216-311 | tables nest at most as deep as there are types: none is expanded twice on one branch |
| `PlannerProperties.GeneratedPlanFits` | rdb-analyzer/src/storage_plan/planner.rs:144-346 | every generated plan is laid out for its schema, whatever the old plan and the random keys |
| `Plannability.PlansExactlyIf` | rdb-analyzer/src/storage_plan/planner.rs:144-427 | planning succeeds if and only if every type that the exports reach is declared, every table of a set below them has a field annotated as primary key, and there are at least as many unused distinct candidate keys as nodes that continue no old node |
| `Plannability.ErrorsAreTrue` | rdb-analyzer/src/storage_plan/planner.rs:144-427 | the error of a failed planning is true: the named type is reached and not declared, the named table is in a set below an export and has no primary key, or there are fewer unused candidates than nodes that need a key |
| `Plannability.FreshKeyIff` | rdb-analyzer/src/storage_plan/planner.rs:348-368 | a fresh key is found if and only if some candidate is unused, and uses up exactly one |
| `Plannability.ReachesIsMet` | rdb-analyzer/src/storage_plan/planner.rs:380-427 | never expanding a type twice on a branch misses no type: what the walk meets is what any branch of the schema reaches |
| `OldNames.FieldPointFound` | rdb-analyzer/src/storage_plan/planner.rs:264-294 | a field inherits from the old child of its own name or, if there was none, of its first `@rename_from` name that was there, anywhere among its annotations, if the type is the same; otherwise from nothing |
| `PlannerProperties.IntegrityCheckIsExact` | rdb-server/src/server.rs:158-165 | when planning against itself succeeds, it returns the same plan if and only if the plan is laid out for the schema |
| `PlannerProperties.PlanningIsIdempotent` | rdb-server/src/server.rs:158-165 | replanning any generated plan against its own schema succeeds with the same plan, and needs no new key |
| `KeyDistinctness.MigrationKeepsKeysDistinct` | rdb-analyzer/src/storage_plan/planner.rs:184-378 | from an old plan with pairwise distinct keys, the migrated plan's keys are pairwise distinct if and only if no two fields of a table continue the same old field |
| `KeyDistinctness.MigratedKeysInheritedOrFresh` | rdb-analyzer/src/storage_plan/planner.rs:216-367 | every node of a migrated plan, at every depth, has the key of the one old node it continues (same place, same type, own name or else the first `@rename_from` name that was there), which lies in the old plan; a node that continues none has a key that occurs nowhere in the old plan |
| `KeyDistinctness.FirstPlanIsDistinct` | rdb-analyzer/src/storage_plan/planner.rs:144-213 | a plan made from nothing has pairwise distinct keys |
| `KeyDistinctness.RenameFromLiveFieldCollides` | rdb-analyzer/src/storage_plan/planner.rs:264-294 | renaming from a field that is still there gives both fields one key |
| `PathWalker.GenerateKey` | rdb-analyzer/src/data/pathwalker.rs:104-120 | collecting components upwards, reversing and concatenating spells the base of the parents followed by the own component |
| `PathWalker.Concatenate` | rdb-analyzer/src/data/pathwalker.rs:167-176 | the concatenation loop |
| `PathWalker.EnterFieldSearching` | rdb-analyzer/src/data/pathwalker.rs:187-231 | the upward search finds the nearest node with the referenced key; errors in the order of the source |
| `PathWalker.FieldErrors` | rdb-analyzer/src/data/pathwalker.rs:187-231 | which error entering a field ends in: on a set, no such field, a reference to a key that no walker at or above has, or beyond 64 levels, in this order; otherwise it succeeds |
| `PathWalker.EntryErrors` | rdb-analyzer/src/data/pathwalker.rs:257-294 | entering a set entry fails if it is not a set or the two levels it takes are too deep, and otherwise succeeds |
| `KeySpace.PrefixMeansAncestor` | rdb-analyzer/src/data/pathwalker.rs:104-294 | below one walker, a place's key is a prefix of another place's key, or of an index key at it, only if its path is a prefix of the other path |
| `KeySpace.CellsApart` | rdb-analyzer/src/data/pathwalker.rs:104-294 | in a plan with distinct keys no two cells share a key: neither two paths of any exports, nor a path and an index entry, nor two index entries |
| `KeySpace.DataRangeExact` | rdb-analyzer/src/data/treewalker/exec.rs:851-865 | the data range of a set holds exactly the cells strictly below it, nested sets and their indexes included |
| `KeySpace.FastScanRangeExact` | rdb-analyzer/src/data/pathwalker.rs:233-255 | the fast-scan range of a set holds exactly the index entries of its own members |
| `KeySpace.EntryRangeExact` | rdb-analyzer/src/data/treewalker/exec.rs:867-887 | the range deleted for an entry holds exactly the cells at and below that entry |
| `KeySpace.MemberLayout` | rdb-analyzer/src/data/pathwalker.rs:233-294 | below the key of a set, the index key of a member goes on with 01 and the primary key, its row with 00, the primary key, 00 and the storage key of the member layout |
| `KeySpace.NulEntryInRange` | rdb-analyzer/src/data/treewalker/exec.rs:867-887 | and with a NUL it does not: the range deleted for string key `s` holds the row of string key `s` NUL `t`, in every set |
| `WalkTyping.SearchFinds` | rdb-analyzer/src/data/pathwalker.rs:203-218 | with distinct keys the upward search returns the node that was meant |
| `WalkTyping.WalkMatchesSchema` | rdb-analyzer/src/data/pathwalker.rs:79-298 | the outcome of every well-typed path over a plan for the schema is decided by the schema: the predicted error, or a node whose children are exactly the fields of the path's type |
| `WalkTyping.PathWalksIff` | rdb-analyzer/src/data/pathwalker.rs:187-294 | a well-typed path walks if and only if it is at most 63 levels deep and enters no field of a set element whose table type already occurs above it |
| `WalkTyping.AllPathsWalk` | rdb-analyzer/src/data/pathwalker.rs:187-294 | if no recursive table type is a set member, every well-typed path of at most 63 levels walks |
| `WalkTyping.RecursiveSetElementsAreClosed` | rdb-analyzer/src/data/pathwalker.rs:257-294 | for `set<T>` inside `T`, entering a field of an inner element fails with field-not-found in every plan: `enter_set_raw` does not resolve the element's reference |
| `WalkTyping.OuterElementsAreOpen` | rdb-analyzer/src/data/pathwalker.rs:257-294 | while the same field of an outer element is entered in every plan |
| `WalkTyping.RecursiveSetHasPlan` | rdb-analyzer/src/storage_plan/planner.rs:144-214 | such plans exist: planning that schema from nothing succeeds with any five distinct candidate keys |
| `WalkTyping.DepthBounded` | rdb-analyzer/src/data/pathwalker.rs:122-128 | a walk ends at the start depth plus its length, set entries counted twice, and never beyond 64 |
| `WalkTyping.PlanForIsGood` | rdb-analyzer/src/storage_plan/planner.rs:216-346 | plans for a well-formed schema have the shape that keeps keys apart |
| `WalkTyping.MigratedPlanQualifies` | rdb-analyzer/src/storage_plan/planner.rs:144-346 | a plan migrated from a distinct one is such a plan if and only if the renames are injective |
| `Migration.GeneratedInherits` | rdb-analyzer/src/storage_plan/planner.rs:83-346 | wherever generation is given an old point, the new layout has the old key and flattening, and so on down along every kept field |
| `Migration.MigrationKeepsKeys` | rdb-analyzer/src/storage_plan/planner.rs:83-346 | for every export kept with its type and every path whose fields the old schema had with the same type, each under its own name or else the first of its renamed-from names that was there, unrolled recursion and set entries included: the walk over the migrated plan succeeds exactly if the old one did, and spells the same key byte for byte |
| `StoredDocuments.WalkAndInsert` | rdb-analyzer/src/data/treewalker/exec.rs:786-849 | the recursive method with its loops does to the transaction's visible contents what the insert function says, and fails exactly when it fails |
| `StoredDocuments.RunDeleteSet` | rdb-analyzer/src/data/treewalker/exec.rs:851-865 | the two range deletes of `delete_set` |
| `StoredDocuments.RunDeleteEntry` | rdb-analyzer/src/data/treewalker/exec.rs:867-887 | the point delete and range delete of `delete_entry_from_set` |
| `StoredDocuments.InsertRefines` | rdb-analyzer/src/data/treewalker/exec.rs:786-849 | writing a document to the byte store does to the stored keys exactly what writing it to the path-named cells does to the cells |
| `StoredDocuments.MemberRefines` | rdb-analyzer/src/data/treewalker/exec.rs:446-475 | the same for filing one member with its index entry |
| `StoredDocuments.DeleteSetRefines` | rdb-analyzer/src/data/treewalker/exec.rs:851-865 | `delete_set` removes exactly the cells below the set and its index entries |
| `StoredDocuments.DeleteEntryRefines` | rdb-analyzer/src/data/treewalker/exec.rs:867-887 | `delete_entry_from_set` removes exactly the entry's cells, nested sets included, and its index entry |
| `DocumentStore.WriteFrame` | rdb-analyzer/src/data/treewalker/exec.rs:786-849 | a write changes no cell that is not at or below its place |
| `DocumentStore.WriteHolds` | rdb-analyzer/src/data/treewalker/exec.rs:786-849 | after a write the place holds exactly the document, every nested set exactly its members, all indexed, and nothing below its nulls, if and only if nothing lay below the nulls outside its sets before |
| `IndexAgreement.NullLeavesMembers` | rdb-analyzer/src/data/treewalker/exec.rs:446-475 | two permitted insertions of one row, the second with null in a set field, after which the field's key is gone and its member still indexed |
| `RoundTrip.InsertSucceedsIff` | rdb-analyzer/src/data/treewalker/exec.rs:786-849 | a write succeeds if and only if every place of the document can be walked to, whatever is stored |
| `RoundTrip.WriteThenRead` | rdb-analyzer/src/data/treewalker/exec.rs:739-865 | reading back field by field and member by member, and finding nothing at or below nulls, returns the written document if and only if no double in it has a clear sign bit and nothing could be read, before, below the nulls outside its sets |
| `RoundTrip.PrimitiveReadsAs` | rdb-analyzer/src/data/treewalker/exec.rs:739-785 | a written primitive reads back as itself or, if it is a double with a clear sign bit, as the int64 of the same bits |
| `RoundTrip.TablesDoNotUnpack` | rdb-analyzer/src/data/treewalker/exec.rs:739-785 | where a table or set was written, reading a primitive fails |
| `RoundTrip.WriteLeavesOthers` | rdb-analyzer/src/data/treewalker/exec.rs:786-849 | the stored value of every other cell is unchanged |
| `EffectLaws.EffectSucceedsIff` | rdb-analyzer/src/data/treewalker/exec.rs:446-515 | an effect fails if and only if its place, or a place of its value, cannot be walked to; inserting null never fails |
| `EffectLaws.InsertedMember` | rdb-analyzer/src/data/treewalker/exec.rs:446-475 | after inserting a row the set has its members of before and this one, the row reads back exactly under the conditions of `RoundTrip.WriteThenRead`, and all other cells are as before |
| `EffectLaws.DeletedMember` | rdb-analyzer/src/data/treewalker/exec.rs:497-515 | after deleting a member the set has its members of before but this one, nothing can be read at or below its place, and all other cells are as before |
| `EffectLaws.InsertedField` | rdb-analyzer/src/data/treewalker/exec.rs:476-491 | after inserting into a table the field reads back exactly under those conditions, and all other cells are as before |
| `EffectLaws.NullIsSkipped` | rdb-analyzer/src/data/treewalker/exec.rs:318-332 | inserting null into a set or table leaves the store as it is |
| `EffectLaws.RunSnoc` | rdb-analyzer/src/data/treewalker/exec.rs:446-515 | a run with one more effect is the run followed by that effect |
| `IndexAgreement.BuiltSetsAreFiled` | rdb-analyzer/src/data/treewalker/exec.rs:334-363 | a set built from rows files each row under its own primary key, once |
| `IndexAgreement.BuiltSetIs` | rdb-analyzer/src/data/treewalker/exec.rs:334-363 | a set is built if and only if every row carries its key; it has, under each key of a row, the last row of that key, and no other members |
| `IndexAgreement.InsertIntoSetAgrees` | rdb-analyzer/src/data/treewalker/exec.rs:446-475 | filing a row keeps every member of every set indexed if and only if present, with its stored key |
| `IndexAgreement.InsertIntoTableAgrees` | rdb-analyzer/src/data/treewalker/exec.rs:476-491 | so does writing a field that is not a primary key, nested sets in the value included |
| `IndexAgreement.DeleteFromSetAgrees` | rdb-analyzer/src/data/treewalker/exec.rs:497-515 | so does deleting a member |
| `IndexAgreement.EveryRunAgrees` | rdb-analyzer/src/data/treewalker/exec.rs:446-515 | so does every sequence of these effects |
| `IndexAgreement.KeyOverwriteBreaks` | rdb-analyzer/src/data/treewalker/typeck.rs:516-518 | overwriting the key field of a member keeps the agreement if and only if the key stays the same, which is why the type checker forbids it |
| `RoundTrip.StoredRunsAgree` | rdb-analyzer/src/data/treewalker/exec.rs:446-515 | every run on the byte store follows the run on the cells, with index and data in agreement |
| `RoundTrip.IndexMatchesPresence` | rdb-analyzer/src/data/treewalker/exec.rs:446-515 | after any run from the empty store a fast-scan key exists if and only if the member's presence key exists |
| `SetScan.ScanRange` | rdb-analyzer/src/data/treewalker/exec.rs:670-691 | the scan range of a reduce holds exactly the keys under the set's prefix whose rest is within the given bounds |
| `SetScan.BoundsOnValues` | rdb-analyzer/src/data/treewalker/exec.rs:676-691 | on values of the key type those bounds are `start <= v < end` in value order |
| `SetScan.ReduceSet` | rdb-analyzer/src/data/treewalker/exec.rs:661-721 | scan, enter and run the body: accumulators from the given start, one per scanned key in ascending order, each the body's result on the one before, up to the first null, the first error or the end |
| `SetScan.ScanUnderPrefix` | rdb-analyzer/src/data/treewalker/exec.rs:698-702 | every scanned key is the prefix and a primary key within the bounds, so stripping the prefix cannot panic |
| `SetScan.ReduceVisitsMembers` | rdb-analyzer/src/data/treewalker/exec.rs:661-721 | in a store in agreement the fold visits a primary key if and only if the member is there and within the bounds, in strictly ascending order |
| `SetScan.ReduceFoldsMembers` | rdb-analyzer/src/data/treewalker/exec.rs:661-721 | in a store in agreement the result is that reduction over exactly the members within the bounds, ascending, each entered where its path leads |
| `SetScan.ReductionUnique` | rdb-analyzer/src/data/treewalker/exec.rs:661-721 | and no other result is: the accumulators and the outcome are determined by the start |
| `SetScan.ReduceVisitsInValueOrder` | rdb-analyzer/src/data/treewalker/exec.rs:661-721 | members with keys of one type are visited in the order of the key values |

## Left out

- Servers, HTTP and gRPC handlers, CLI, playground, diff printing and the visualiser: I/O and user interface.
- FoundationDB, and SQLite's connections, worker threads and locking: foreign calls; only the operation log is modelled.
- MessagePack, base64, snappy, YAML and the grammars: libraries and generated parsers.
- Arithmetic on doubles and their text form: doubles are bit patterns here.
- The lookup of called graphs by name in the code generator: calls name graphs by index here.
- The type checker, except its edge-order and primary-key rules, which appear as hypotheses.
- Graphs whose nodes write the same key or scan a set while it is written: their results depend on the completion order.
- `all_non_intermediate_keys_on_path_excluding_self` and the pretty printers: nothing in the repository depends on them.
- The query cache: its eviction order is a library's.
- Log output, sleeping between retries, and the identifiers of transactions beyond their being counted.
- What the ordered-map library makes of a range whose start lies after its end, as a reduce can be given: here it holds nothing.
- SchemaCompiler.TypeResolutionContext.ResolveTypeExpr: takes a bound on how deep specialisations trigger further ones,
  because polymorphic recursion does not end; running out is an error of its own, and all results hold for every bound.
- Planner.PlanState.RandStorageKey: does not model that the loop ends, because that is a matter of probability.
- Executor.RecursivelyRunGraph: node effects on the store are part of the storage model instead. A graph that names a source
  twice is not covered, because the node can then start twice; RepeatedSources has what happens.
- LoweredScripts.RunLowered: leaves out programs with explicit `select`, bare right operands of `??` and repeated sources, which
  are not order independent; Executor.RecursivelyRunGraph has what holds for them.
- RepeatedSources.StartedOnceIffSourceOnce: is about one completion; RepeatedSources.RepeatedSourceFails is about runs.
- Executor.ReduceOver: covers lists; sets are SetScan.ReduceSet, whose body is an arbitrary function of accumulator and row.
- StoredDocuments.WalkAndInsert: writes fresh values only; the source refuses to copy resident tables and sets.
- RoundTrip.WriteThenRead: reads a later transaction's contents, because reads inside a transaction go to its snapshot.
- SnapshotIsolation.SelfContainedRunsAreSerial: covers point operations, because a range delete or scan misses keys created
  since the snapshot; SnapshotIsolation.CommitIsSerial has the condition for all operations.
- KeySpace.CellsApart: asks for NUL-free string keys. KeyEncoding.PrefixCollisionIffNul shows that condition exact for encoded
  keys, and KeySpace.NulEntryInRange that entry ranges are not exact without it.
