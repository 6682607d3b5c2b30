# Verified model of swe-gateway's algorithmic core

A Dafny 4.11 model of the parts of the gateway crate, and of its publishing tool, that decide something: the
publish order and the registry index, the token bucket, the retry loop, the word wrapper, the two service caches,
the in-memory database, the middleware pipeline and the expansion of environment variables.
`dafny verify dfyconfig.toml` checks all of it.

Each source file has a module of its own. Code that updates state in steps is a method or a class, tied by its
`ensures` to a specification function; what the code promises is then proved about that function, for all inputs
or for all runs. Concurrent code is a state machine whose steps are single lock operations, run under an arbitrary
schedule of any number of threads.

| module | models | main results |
|---|---|---|
| `TopologicalSort` | Kahn's algorithm | succeeds exactly on repetition-free, acyclic input, with the one order that follows the releases; the result depends only on the set of crates and of dependencies |
| `RegistryIndex`, `Publish` | index updates, the two-phase publish command | a plan lists exactly the chosen crates; in every state of phase 2 the published crates are a prefix of the order and closed under dependencies |
| `WordWrap` | greedy line filling | no wrapping that obeys the width rule has fewer lines |
| `RateLimit` | the token bucket | exactly when a request is refused; window bound; reads change no decision; no policy grants more |
| `CachedService` | double-checked initialisation | every interleaving is linearizable to an atomic cell with reset; the factory is consulted only after the cell was seen empty |
| `ConfiguredCache` | a service and its configuration under two locks | every interleaving is linearizable to an atomic register of both; the two agree whenever no writer holds a lock; no deadlock |
| `Filters`, `StableSort`, `Query` | filter, sort, paginate, count | exactly when the comparator orders a column; the result is determined; pages concatenate; complementary filters split the table |
| `MemoryDatabase`, `DatabaseRuns` | the writes and their lock sections | what every write does to every row; rows are conserved; each insert's outcome follows from the balance of its identifier; one insert of an identifier wins; the second lookup never fails |
| `EnvExpansion` | `${VAR}` and `${VAR:-default}` | a grammar that splits; exactly which substituted texts leave the output a fixed point |
| `Retry` | the retry loop and its backoff | calls, result and sleeps of every run; exactly when the delay is the documented one |
| `Pipeline` | pre-middleware, router, post-middleware | what stages hand on; a nested pipeline is the flattened one unless the outer part short-circuits |

`Basics`, `NameOrder`, `Text`, `Locks` and `Histories` hold the vocabulary: sequences without repetition, Rust's string
order, `split_whitespace`, `lines`, `trim` and byte lengths, a readers-writer lock, and linearizability to an atomic
object.

## Modelling decisions

- Time, the packaging of a crate, git commits, the inner service of a retry, middleware stages, service factories and
  generated identifiers are parameters: every theorem holds for all of their behaviours. Middleware stages read and
  rewrite one world, so stateful stages are covered.
- A hash map's iteration order is a sequence that lists the keys once each; results that must not depend on it are
  proved for all such sequences, and loops over a map pick keys in any order.
- The JSON codec of index entries is a pair of functions of which only this is assumed (`Codec.Lawful`): decoding
  inverts encoding, and an encoded entry is one trimmed line. JSON printing and Unicode lower-casing in filters
  are arbitrary functions.
- `f64` is `real`; `u64` saturation, the truncation of a duration from nanoseconds to 64 bits of whole
  milliseconds, and the floor in
  `available_tokens` are written out. `RateLimit.Limits` holds the gain over a time span as a function, which
  `AtRate` makes the span times the rate.
- `Index.put` names what one upsert does to the files, so that the publish proofs need not unfold string handling;
  `Index.Valid` says that it is `UpsertFiles`.
- The configurations of `ConfiguredCache` are of any type and are compared by any test, reflexive or not.
- Several source functions are split into methods of one loop each (`CountDependencies`, `InitialQueue`, `Release` and
  `DrainQueue` for `topological_sort`; `RegisterStubs` and `PackageAll` for `run`).

## Where code and documentation differ

- A crate named twice on the command line is reported as a circular dependency, although there is no cycle:
  `PlanCorrect` says exactly what is reported when.
- The comparison of a column that mixes numbers and other values can cycle (`MixedColumnCycle`). It is a total
  preorder exactly when the texts of the other values agree with the order of the numbers
  (`ComparatorIsPreorderIff`), and the ordering result is stated under that condition.
- Expanding a text twice, as loading a configuration does, can change it: an empty value joins a `$` to a `{`
  (`EmptySubstitutionReopens`). Exactly the texts that are not empty, do not start with `{`, do not end with `$` and
  do not contain `${` are harmless to substitute, whatever surrounds them (`SafeIffHarmless`).
- A backoff base is cut to whole milliseconds and to 64 bits of them before it is multiplied (src/core/retry.rs:43),
  while src/core/retry.rs:24-31 documents base * 2^attempt. `DelayMeetsDocument` says exactly when the delay is the
  documented one, as it stands and when it may saturate. A base of 500 microseconds, like one of 2^64 milliseconds,
  never waits at all (`NoWaitIff`, `CutBasesDoNotWait`).

## Model

| member | source | states |
|---|---|---|
| TopologicalSort.TopologicalSort | xtask/src/publish.rs:210-271 | the loops over the mutable maps and the queue compute exactly the deterministic order, or report how many crates they reached, whatever order the in-degree map iterates in |
| TopologicalSort.CountDependencies | xtask/src/publish.rs:216-233 | in-degrees count every listed occurrence of a selected dependency, and dependents list every occurrence in meeting order |
| TopologicalSort.InitialQueue | xtask/src/publish.rs:235-243 | the queue starts as the increasing listing of the crates without pending dependencies |
| TopologicalSort.Release | xtask/src/publish.rs:248-259 | decrements never underflow and never miss a key, and exactly the crates whose count runs out are queued, increasing |
| TopologicalSort.TopoCorrect | xtask/src/publish.rs:210-271 | sorting succeeds if and only if no crate is repeated and the selected graph has no cycle, self-loops included; then the result permutes the crates with every selected dependency before its dependents |
| TopologicalSort.KahnCompleteIffAcyclic | xtask/src/publish.rs:246-268 | all crates are reached if and only if no closed walk exists |
| TopologicalSort.DrainIsTopological | xtask/src/publish.rs:245-260 | from any reachable queue, what is still emitted is repetition-free, puts dependencies first and leaves nothing ready |
| TopologicalSort.OrderIndependence | xtask/src/publish.rs:219-260 | permuting the crates, and permuting or repeating dependencies, leaves the result unchanged, errors included |
| TopologicalSort.OrderIsDetermined | xtask/src/publish.rs:235-260 | the result is the one listing of the crates that puts dependencies first and emits them as they are released, by name among those released together |
| TopologicalSort.FailureCounts | xtask/src/publish.rs:262-268 | a failure reports how many crates no cycle leads to, out of how many were listed |
| Publish.BuildWorkspaceDeps | xtask/src/publish.rs:186-207 | maps each package to its non-development dependencies in the publish set, in order |
| Publish.PlanListsSelected | xtask/src/publish.rs:41-69 | a plan lists exactly the selected packages, once each |
| Publish.PlanCorrect | xtask/src/publish.rs:40-69 | the first unknown name is reported; else a repeated name or a cycle of non-development needs among the chosen packages is circular; else the plan lists exactly the chosen names once each: the named ones, or without names the members not marked `publish = false` |
| Publish.PlanMeetsNeeds | xtask/src/publish.rs:66-69 | in a plan every non-development dependency inside the publish set comes first |
| Publish.PlanFailsIff | xtask/src/publish.rs:41-69 | a selection cannot be ordered if and only if a crate is named twice or the graph to be sorted has a cycle, and both are reported as circular |
| Publish.Run | xtask/src/publish.rs:41-127 | without a plan, or in a dry run, the index is untouched; otherwise it gains one stub and then one packaged crate at a time, every state being listed, and goes on only after commits that succeed: it stops at the first failing commit or failing package |
| Publish.PackageAll | xtask/src/publish.rs:112-123 | phase 2 records each crate as soon as it is packaged; on failure exactly the crates before the failing one are recorded |
| Publish.PublishedIsPrefix | xtask/src/publish.rs:94-123 | after k crates of phase 2 the first k are recorded as themselves with the checksum of their package, and all others hold exactly their stub, whatever the index held before |
| Publish.StubbingUnpublishes | xtask/src/publish.rs:94-103 | in every state of phase 1 a crate of the order is published exactly when it was before and its stub is still to come |
| Publish.EveryStateIsPrefix | xtask/src/publish.rs:94-123 | in every state of a run from the end of phase 1 on, failing runs included, the published crates are a prefix of the order, and after success no placeholder is left |
| Publish.PublishedIsClosed | xtask/src/publish.rs:112-123 | in every state of phase 2 the publish-set dependencies of a published crate are published |
| Publish.OthersKeepRecord | xtask/src/publish.rs:94-123 | versions outside the publish set keep their record in every state of both phases |
| Publish.UnpublishableUntouched | xtask/src/publish.rs:41-47 | when no crate is named, members marked `publish = false` keep their records in every state of both phases |
| RegistryIndex.Index.UpsertEntry | xtask/src/index.rs:46-90 | rewrites the one file of the entry's name to the upserted lines and leaves all other files alone |
| RegistryIndex.RewriteLines | xtask/src/index.rs:58-78 | the loop with its replaced flag computes the upserted lines |
| RegistryIndex.UpsertFacts | xtask/src/index.rs:61-78 | the version is recorded as the new entry only, at least once; every other line and every other version is kept in order |
| RegistryIndex.UpsertKeepsPlaces | xtask/src/index.rs:58-78 | line by line: the version's lines become the new entry in their places, all others stay, and a new version comes last |
| RegistryIndex.LastWriteWins | xtask/src/index.rs:61-78 | writing a version twice equals writing it the second time only |
| RegistryIndex.UpsertedFileReadsBack | xtask/src/index.rs:57-87 | the written file reads back as the upserted lines, whatever blank or untrimmed lines the old file held |
| RegistryIndex.PathsCollideOnCaseOnly | xtask/src/index.rs:32-41 | two names share an index file exactly when they differ in case only |
| RegistryIndex.PathFollowsCargo | xtask/src/index.rs:32-41 | the directories follow Cargo's layout for names of one, two, three and more characters |
| WordWrap.WordWrap | src/core/notification/console.rs:100-125 | text without words gives one empty line; otherwise the lines hold exactly the words in order, each fits or is one word, and no other wrapping is shorter |
| WordWrap.GreedyIsOptimal | src/core/notification/console.rs:104-114 | any lines of the same words, however spaced, that fit or hold one word are at least as many as the greedy ones |
| WordWrap.StayAhead | src/core/notification/console.rs:104-114 | a greedy grouping of a suffix of the words needs no more lines than any grouping of all of them |
| WordWrap.WidthIsLeast | src/core/notification/console.rs:107 | a line is at least as long, in bytes, as its words joined by single spaces |
| Text.WordsSplit | src/core/notification/console.rs:104 | any whitespace character separates words |
| NameOrder.LeIsLexicographic | xtask/src/publish.rs:242 | names are ordered by their first difference, a prefix first |
| RateLimit.RateLimiter.TryAcquire | src/core/rate_limit.rs:127-146 | granted if and only if the tokens plus rate * elapsed time make a whole token; the tokens afterwards are that, capped, less the one taken |
| RateLimit.RateLimiter.AvailableTokens | src/core/rate_limit.rs:152-160 | the whole tokens after a refill of rate * elapsed time, capped; positive exactly when an acquisition at that time would be granted |
| RateLimit.RateLimiterBuilder.Capacity | src/core/rate_limit.rs:56-59 | the capacity is at least 1 |
| RateLimit.RateLimiterBuilder.RefillRate | src/core/rate_limit.rs:64-67 | the rate is at least the minimum rate |
| RateLimit.AfterStaysValid | src/core/rate_limit.rs:127-160 | over any run of both calls the tokens stay between 0 and the capacity |
| RateLimit.RateWindowBound | src/core/rate_limit.rs:127-146 | in any run the grants in any window [s,t] are at most capacity + rate * (t - s) |
| RateLimit.RefusedIff | src/core/rate_limit.rs:127-146 | in any run from a full bucket, a request is refused if and only if one more grant would exceed capacity + rate * time in some window up to it |
| RateLimit.WaitIsGranted | src/core/rate_limit.rs:127-146 | a request that comes 1/rate seconds or more after the call before it is granted, whatever came before |
| RateLimit.WindowPotential | src/core/rate_limit.rs:127-160 | inside a window, grants so far plus tokens left never exceed capacity plus what was gained |
| RateLimit.ReadsChangeNoDecision | src/core/rate_limit.rs:152-160 | inserting or removing reads of the bucket anywhere changes no grant decision |
| RateLimit.RefillTwice | src/core/rate_limit.rs:132-135 | refills compose |
| RateLimit.EagerIsMaximal | src/core/rate_limit.rs:127-146 | after every prefix of any request times, the limiter has granted at least as many as any policy with the same refill, cap and one-token rules that may deny at will |
| RateLimit.EagerLeads | src/core/rate_limit.rs:127-146 | the limiter is behind another policy in tokens by at most what it is ahead in grants |
| RateLimit.BurstIsGranted | src/core/rate_limit.rs:69-79 | a full bucket grants as many requests as its capacity, whenever they come |
| CachedService.Linearizable | src/state.rs:34-77 | in every interleaving each call takes effect once, atomically on the cell, between invocation and return, and returns what that effect returned |
| CachedService.InitOnlyWhenEmpty | src/state.rs:39-60 | in every run a call that failed to initialise, or that published, saw the cell empty after its invocation: a call on a cell that stays full hits |
| CachedService.FactoryDecides | src/state.rs:48-60 | in every run a call fails to initialise only when its own factory failed, and publishes only what its own factory made, after its invocation |
| CachedService.AloneIsSequential | src/state.rs:34-77 | a call that runs alone completes with the sequential effect and reply: a full cell answers, an empty one takes what the factory makes, reads read and a reset empties |
| CachedService.Cell.StoreIfAbsent | src/state.rs:52-60 | the write section publishes into an empty cell only and returns what the cell then holds |
| CachedService.SameBetweenResets | src/state.rs:34-61 | all instances handed out between two consecutive resets are the same |
| CachedService.ResultsAgree | src/state.rs:34-77 | the same, in any run of the interleaved machine |
| CachedService.CellWasWon | src/state.rs:55-57 | a full cell was filled by a publication into an empty cell with no reset since |
| CachedService.LosersAreNeverHanded | src/state.rs:54-59 | the instance of a losing initialiser is never returned to anybody |
| CachedService.StepEffect | src/state.rs:39-77 | each step has at most one effect, which is legal on the cell; a failed initialisation leaves the cell as it was |
| ConfiguredCache.Linearizable | src/state.rs:111-163 | in every interleaving each call takes effect once, atomically on the pair of service and config, between invocation and return, and returns what that effect returned; for any equality of configs |
| ConfiguredCache.SafeWhenUnwritten | src/state.rs:111-163 | in every interleaving, while a lock has no writer, the fields are the atomic register: both set or both empty, the service built for that config; every returned instance was built for a config that passes the equality test with the caller's, or by that very call |
| ConfiguredCache.HitIsLastStored | src/state.rs:122-130 | in any run, a call that did not initialise got the instance stored last, with no overwrite or reset since, and its config passes the test |
| ConfiguredCache.LastWriteShows | src/state.rs:137-163 | the register is what the last overwrite stored, for the configuration it was stored for, or empty after a reset |
| ConfiguredCache.InitOnlyOnMiss | src/state.rs:119-142 | in every run a call that failed to initialise, or that overwrote, saw nothing cached for its configuration after its invocation |
| ConfiguredCache.FactoryDecides | src/state.rs:134-142 | in every run a call fails to initialise only when its own factory failed, and stores only what its own factory made, after its invocation |
| ConfiguredCache.AloneIsSequential | src/state.rs:111-163 | a call that runs alone gets ready to return with the sequential effect and reply |
| ConfiguredCache.StepKeepsInvariant | src/state.rs:111-163 | every single lock step, and each of the two assignments of a write section, keeps the history linearized and the fields in step with the register |
| ConfiguredCache.NeverStuck | src/state.rs:122-123 | taking the service lock before the config lock never deadlocks: while a call is under way, some call's next step changes where it is, even when waiting writers turn readers away |
| ConfiguredCache.Cache.LookUp | src/state.rs:121-131 | the fast path finds the instance that may be hit, if there is one |
| ConfiguredCache.Cache.Store | src/state.rs:137-142 | the write section is the register's overwrite and leaves service and config consistent |
| ConfiguredCache.SectionsAct | src/state.rs:121-163 | the interleaved machine's look-up, store and reset sections do to the fields what the class's methods do |
| Filters.ComparatorIsPreorderIff | src/core/database/memory.rs:183-199 | the comparator is a total preorder, ascending or descending, if and only if, wherever the text of another value stands between the texts of two numbers, the numbers are in that order, and equal only if the three texts are |
| Filters.ComparatorIsPreorder | src/core/database/memory.rs:183-199 | in particular when the non-null values are all numbers or all not |
| Filters.MixedColumnCycle | src/core/database/memory.rs:77-93 | a column on which it cycles: 10, 9 and the text 5 |
| Filters.ParseRoundTrip | src/core/database/memory.rs:100-108 | a key made of any field name and any operator parses back to that field and operator |
| Filters.UnsuffixedIsEquality | src/core/database/memory.rs:100-119 | any other key asks for equality of the field it names; adding such a filter keeps exactly the records whose field has the value |
| Filters.InIsSomeEquality | src/core/database/memory.rs:150-158 | a membership filter is equality with one of the listed items, or with the value itself when it is no list |
| Filters.LikeFindsPart | src/core/database/memory.rs:135-149 | a pattern matches exactly the texts that contain it, both lower-cased, and nothing that is not text |
| Filters.OrderOperators | src/core/database/memory.rs:121-134 | gt, lt, gte and lte say what their names say, by number or else by text |
| Filters.OrderAgainstNull | src/core/database/memory.rs:67-76 | against a null filter every value that is not null is less |
| Filters.ComplementsSplit | src/core/database/memory.rs:165-173 | lt and gte, like gt and lte, split the base-matching records whose field is present and not null |
| Query.OrderedResult | src/core/database/memory.rs:180-200 | whenever the comparator orders the matching records at all, the unpaginated result is a permutation of them, climbing or descending, nulls last, ties in iteration order, and the only such sequence |
| Query.ResultIsWindow | src/core/database/memory.rs:176-257 | with or without offset, limit and selection, the result is that window of the whole result, reduced to the selected fields; without an order the whole result is the matching rows in iteration order |
| Query.PagesConcatenate | src/core/database/memory.rs:202-214 | the pages at offsets 0, k, 2k, ... concatenate to exactly the unpaginated result, for every k > 0 |
| Query.ComplementCounts | src/core/database/memory.rs:292-305 | the counts of complementary filters add up to the base-matching records that have the field |
| Query.ApplyPagination | src/core/database/memory.rs:176-217 | sort, offset and limit in this order |
| Query.MatchingMembers | src/core/database/memory.rs:245-249 | the rows kept are exactly those that match every filter |
| Query.MatchingConcat | src/core/database/memory.rs:245-249 | they come in iteration order, each as often as it is there |
| Query.QueryTable | src/core/database/memory.rs:244-257 | filter, arrange, cut, select |
| Query.SelectFields | src/core/database/memory.rs:220-231 | the record restricted to the selected fields it has; all of it when none are selected |
| StableSort.StableSortUnique | src/core/database/memory.rs:183 | ordered with ties in input order determines the result, so the sorting algorithm does not matter |
| MemoryDatabase.Database.InsertRecord | src/core/database/memory.rs:313-340 | both sections in a row: conflict on a known identifier, else one row more, stored under its identifier |
| MemoryDatabase.Database.BatchInsertRecords | src/core/database/memory.rs:387-413 | skips known identifiers and reports how many rows it added |
| MemoryDatabase.Database.UpdateRecordsWhere | src/core/database/memory.rs:415-441 | overwrites the fields of exactly the matching rows and reports how many |
| MemoryDatabase.Database.DeleteRecordsWhere | src/core/database/memory.rs:443-469 | removes exactly the matching rows and reports how many |
| MemoryDatabase.Database.UpdateRecord | src/core/database/memory.rs:342-368 | merges into one row, or reports the missing table or row |
| MemoryDatabase.Database.DeleteRecord | src/core/database/memory.rs:370-385 | removes one row if present and reports whether it was |
| MemoryDatabase.Database.CountRecords | src/core/database/memory.rs:292-305 | counts the matching identifiers, in whatever order the map iterates |
| MemoryDatabase.SectionMeans | src/core/database/memory.rs:313-469 | for every write and every row: an insert stores the offered fields with the identifier, a batch the first offer of each absent identifier, an update overwrites the given fields only, deletes remove, every other row and table is untouched, and the report says so |
| MemoryDatabase.IdIdentifies | src/core/database/memory.rs:46-58 | the identifier is the text under "id", else under "_id", else the generated one |
| DatabaseRuns.LookupNeverFails | src/core/database/memory.rs:319-325 | over every interleaving of lock sections, the lookup after ensure_table finds the table |
| DatabaseRuns.TurnsMakeCall | src/core/database/memory.rs:313-469 | a client whose turns nobody interrupts completes its call |
| DatabaseRuns.RowsAreConserved | src/core/database/memory.rs:313-469 | a table's size is what inserts and batch inserts reported less what deletes reported |
| DatabaseRuns.LedgerBalances | src/core/database/memory.rs:313-469 | in every run, deletes and batches included, the additions of an identifier less its removals are one while its row is there and zero while it is not |
| DatabaseRuns.RowsKeys | src/core/database/memory.rs:324-469 | a write adds only absent identifiers and removes only present ones |
| DatabaseRuns.OutcomesExplained | src/core/database/memory.rs:313-469 | in every run each insert of an identifier succeeded exactly when the additions less removals before it were zero, and conflicted otherwise; writes add only at zero and remove only at one |
| DatabaseRuns.OutcomesBalance | src/core/database/memory.rs:313-469 | in every run the successful inserts of an identifier and the batches that added it, less the removals, are one while its row is there and zero while it is not |
| DatabaseRuns.WritesAlternate | src/core/database/memory.rs:313-469 | in every run between two removals of an identifier some write adds it, and between two additions some write removes it |
| DatabaseRuns.OneWinner | src/core/database/memory.rs:324-338 | until a write removes an identifier or batches it in, exactly one of its completed inserts has succeeded |
| DatabaseRuns.DeleteUndoesInsert | src/core/database/memory.rs:334-385 | deleting the reported identifier restores the tables |
| EnvExpansion.ExpandEnvVars | src/saf/config.rs:182-226 | the character scanner computes the grammar's meaning, open references and errors included |
| EnvExpansion.ReferenceMeaning | src/saf/config.rs:175-180 | a reference is the variable's value, else its default, else an error naming the variable |
| EnvExpansion.OpenIsLiteral | src/saf/config.rs:200-203 | an opening without its closing brace is literal, with everything after it |
| EnvExpansion.ExpandSplits | src/saf/config.rs:182-226 | expansion splits at every cut that leaves no reference open and does not separate `$` from `{`, the first error winning |
| EnvExpansion.SafeIffHarmless | src/saf/config.rs:182-226 | a text leaves every output that it alone is substituted into a fixed point if and only if it is not empty, does not start with `{`, does not end with `$` and does not contain `${` |
| EnvExpansion.OutputIsFixedPoint | src/saf/config.rs:182-226 | when every substituted text is such a one, expanding the output again returns it unchanged |
| EnvExpansion.UnsafeIsHarmful | src/saf/config.rs:182-226 | every other text reopens in some surroundings |
| EnvExpansion.EmptySubstitutionReopens | src/saf/config.rs:210-214 | an empty substitution can leave an output that expands further |
| EnvExpansion.NoOpeningIsClosed | src/saf/config.rs:231 | text without `${` expands to itself |
| EnvExpansion.OptionalField.ExpandOpt | src/saf/config.rs:229-236 | the field ends up as if always expanded, and is untouched on an error |
| Retry.ProcessRequest | src/core/retry.rs:152-192 | calls up to the first success or non-retryable error, capped; returns that call's result; sleeps once between calls with the delays of attempts 0, 1, ...; the fallback error needs zero attempts |
| Retry.DelayIsCappedProduct | src/core/retry.rs:42-44 | the saturating power and product equal min(b * 2^attempt, 2^64 - 1) milliseconds for every attempt, b being the base cut to whole milliseconds and to 64 bits of them |
| Retry.DelayMeetsDocument | src/core/retry.rs:24-44 | the delay is base * 2^attempt if and only if the base is whole milliseconds and the product fits 64 bits of them; it is that product saturated at 64 bits of milliseconds if and only if the base is whole and fits, or what is left of it saturates anyway |
| Retry.NoWaitIff | src/core/retry.rs:42-54 | a delay is zero, at any attempt, exactly when the base is cut to zero |
| Retry.CutBasesDoNotWait | src/core/retry.rs:24-54 | a base below one millisecond, or of 2^64 ms, waits 0 at every attempt where the document promises a positive delay |
| Retry.JitterBounds | src/core/retry.rs:46-54 | the jittered delay lies in [d, 2d) or saturates |
| Retry.JitterReaches | src/core/retry.rs:46-54 | the jitter takes every whole number of milliseconds below the delay: a smaller clock sample is added whole |
| Retry.JitteredDelaysNeverDecrease | src/core/retry.rs:38-60 | jittered delays never decrease across attempts, for any clock samples |
| Retry.TotalSleep | src/core/retry.rs:158-181 | unsaturated and without jitter, n attempts sleep ms * (2^(n-1) - 1) milliseconds in total, ms being the base cut to whole milliseconds |
| Retry.FixedSleep | src/core/retry.rs:41 | a fixed strategy sleeps its delay between any two attempts |
| Pipeline.Execute | src/core/pipeline.rs:133-157 | the two loops compute the pipeline's meaning: result, final state of the stages and calls made |
| Pipeline.OutcomeHandsOn | src/core/pipeline.rs:133-157 | every stage runs on the world and on the request or response that the one before handed on; the router gets the last request, post-middleware the router's or the short-circuit's response, and the caller the last response, or the first error |
| Pipeline.NestedIsFlattened | src/core/pipeline.rs:133-157 | a pipeline used as a router equals the flattened pipeline in result, calls and state; when the outer part short-circuits, the flattened one without the inner post-middleware |
| Pipeline.RouterRunsIffAllContinue | src/core/pipeline.rs:146-155 | the router is called exactly when all pre stages continue; a short-circuit response still goes through post-middleware |
| Pipeline.PostCallsOnly | src/core/pipeline.rs:152-156 | post stages run in order, all of them or up to the first that fails, whose error is returned |
| Pipeline.PostHandsOn | src/core/pipeline.rs:152-156 | the chain of responses that post stages hand on, up to the last or the first that fails |
| Pipeline.PreCallsOnly | src/core/pipeline.rs:137-144 | pre stages run in order, and all of them when the request continues |
| Pipeline.PreHandsOn | src/core/pipeline.rs:137-144 | the chain of requests that pre stages hand on, up to the last, a short-circuit or an error |

## Left out

- Filesystem, HTTP, standard output, daemons, git and `cargo package`: I/O; failing index reads and writes are not modelled, failing packages and commits are.
- `build_index_entry`: the registry choice, renames and features of an entry travel as one opaque text, equal for stub and final entry.
- RegistryIndex.PathsCollideOnCaseOnly: covers ASCII names only, because `name_to_path` lower-cases Unicode and cuts the result at byte offsets, which agrees with characters for ASCII names only.
- The domain records, builders and configuration structs, `GatewayConfig::validate` and the mock payment gateway: field setters and independent checks.
- `GatewayConfig::expand_env`: eight calls of `expand_opt` in a row.
- `truncate` and box drawing in the console notifier: presentation.
- `f64` rounding and NaN, in the bucket and in comparisons.
- Lock poisoning, and the fairness of the locks beyond what the deadlock result uses.
- `RateLimiter::process_request` and the retry builder's panic on zero attempts: wrappers.
- MemoryDatabase.Database.UpdateRecord: does not claim that the key equals the row's id field, because an update may overwrite that field.
