# A verified model of pg_mentat

This project models five parts of pg_mentat in Dafny and proves what they promise.

1. **EDN reading and printing** (`edn/src`). The grammar is a set of ordered-choice functions over positions, with the
   stack it may use as a parameter. The printer is a document with a free choice of line breaks. The nesting scan is a
   loop over bytes. The hand-written order on values decides how sets and maps are kept and re-read.
2. **The query-result cache** (`mentatd/src/cache.rs`), with database snapshots (`mentatd/src/db_cache.rs`) and the
   server that uses both (`mentatd/src/server.rs`). The cache is a class with three maps that must agree. It is proved to
   refine a plain cache without a reverse index, and the server's runs are reasoned about on that plain form.
3. **The schema cache of the PostgreSQL backends** (`pg_mentat/src/cache.rs`): private copies, a shared generation, and a
   bypass for the length of a transaction.
4. **The pattern matcher** (`edn/src/matcher.rs`), whose placeholder table is changed even by attempts that fail.
5. **The query front end and the circuit breaker** (`edn/src/query.rs`, `edn/src/namespaceable_name.rs`, rule grouping in
   `edn/src/lib.rs`, the breaker in `mentatd/src/server.rs`).

## How it is laid out

| files | what is in them |
|---|---|
| `Prelude`, `Orders`, `Sorting` | shared definitions, lexicographic orders, stable sorting and tree collections |
| `Names`, `Values`, `ValueOrder`, `Spanned`, `Erasure` | names, values and their order, values with spans and their erasure |
| `Lexical`, `Depth`, `Parser` | the grammar, the nesting scan, the entry point |
| `StackBound`, `Attempts`, `Recursion`, `NestingBound` | the scan bounds the recursion of the grammar and the nesting of what is read, and is exact |
| `Printer`, `Readable`, `AtomReadBack`, `RoundTrip`, `Rebuilding`, `ReadBack`, `PrintThenParse` | the round trip |
| `Literals` | what escapes, bases, blanks and comments stand for |
| `PlainCache`, `Recency`, `Freshness`, `QueryCache`, `CacheLocks`, `SerialCache`, `SerialAnswers`, `LostIndexEntry` | the query cache: plain, indexed, and at lock granularity |
| `Json`, `CacheKeys`, `Snapshots`, `SnapshotRuns`, `Serving`, `LiveServer`, `Coherence`, `StaleStore`, `LiveRuns` | the server's use of cache and snapshots |
| `SchemaCache`, `Backends` | one schema copy, and the protocol between backends |
| `Matcher`, `MatcherLaws`, `MatcherRejects`, `MatcherComplete`, `MatcherSets` | the matcher: soundness, justified rejection, completeness, sets |
| `Patterns`, `QueryParts`, `RuleGroups`, `Breaker` | query front end and circuit breaker |

Code that changes things step by step is a class or a method with loops; each is tied to a function of its inputs or of
its old state, and the laws are lemmas about that function. Code made of expressions is functions.

Clocks, new UUIDs, database answers, JSON text and the conversions of the `chrono` and float libraries are parameters.

## Where code and documentation differ

The model follows the code. These are results, each with a concrete input and, where there is one, the exact condition.

- `to_reversed` is documented as its own inverse. It is one exactly on names with at most one leading underscore followed by something (`Names.ReversedTwice`, `Names.DoubleUnderscoreIsNotRestored`).
- Printing is meant to be undone by parsing. It is, exactly for values nested at most 256 deep whose names the grammar accepts; a symbol such as `nilable` is printed but not read back, because the constant `nil` is tried first (`PrintThenParse.RoundTripExactly`, `PrintThenParse.ShadowedSymbolIsLost`).
- Sets and maps are sorted by an order that ignores spans and thinned by an equality that does not. A repeated element therefore survives reading and disappears when spans are erased; at every depth erasing changes nothing exactly if no element repeats, and the order is the order of the erasures exactly for such values (`Erasure.ErasesNothingExactly`, `Erasure.PullBackExactly`, `Erasure.RepeatedElementsMerge`).
- The comment on the sentinel id says it avoids collisions. A result that mentions that integer is invalidated by every transaction (`PlainCache.SelectionIsScanExactly`, `PlainCache.SentinelDependencyIsUntracked`).
- A committed transaction whose report is not JSON returns an error before it invalidates anything, so live hits can be stale from then on (`Coherence.TransactCoherent`, `Coherence.UnreadableReportLeavesStale`).
- The integers of a result are documented as dependencies that never miss a true one (`mentatd/src/server.rs:2156-2160`). The query for all entities does miss one: a new entity changes its answer and is not in the recorded result, so the next hit is stale (`Coherence.NewEntityIsMissed`, `Coherence.SlippedAnswerIsServed`). With readable reports and one request at a time, live answers are always current exactly if no transaction changes a live answer that it does not drop (`Coherence.CurrentExactly`).
- Between critical sections the three maps of the query cache need not agree, and an expiring lookup that races with an insertion of the same key leaves the new entry out of reach of targeted invalidation until it expires, is evicted or the cache is cleared (`LostIndexEntry.EntryLeavesIndex`). If operations do not overlap the maps agree (`SerialCache.SerialRunsConsistent`).
- With requests in flight at once, an answer fetched before a commit can be stored after the invalidation (`StaleStore.StoreAfterInvalidationIsStale`). If no live answer is stored that late, answers given while no report is waiting are current (`LiveRuns.LiveAnswersAreCurrent`); otherwise only the age bound of `CacheLocks.BoundedStaleness` remains.
- A reversed attribute is rewritten without looking at its type, so the rewritten pattern also matches values that are not references, unless its entity place is a variable that stands in another place too (`Patterns.AgreesExactly`).
- Matching of sets and maps is greedy and keeps the bindings of failed attempts, so it can reject a pattern that has a satisfying binding (`MatcherSets.SetMatchIncomplete`). It does so only by a binding made too early: for all patterns it says yes exactly if the bindings it ends with can be extended to satisfy the pattern (`MatcherRejects.VerdictExactly`), and for patterns whose elements tell values apart it misses nothing (`MatcherComplete.MatchExactly`). It also accepts sets without a one-to-one correspondence (`MatcherSets.PatternsShareAValue`), except where no value fits two patterns under any extension of the bindings (`MatcherSets.ExclusiveIsOneToOne`; without placeholders the bindings do not matter, `MatcherSets.FixedExclusiveIsOneToOne`).
- The first check after the breaker's window has elapsed resets it, but errors recorded between its two accesses can still make it reject (`Breaker.DecideAdmitsExactly`).

## Model

| member | source | states |
|---|---|---|
| Names.PartsRoundTrip | edn/src/namespaceable_name.rs:48-159 | taking a name apart and building it again are inverse, also when a part holds a solidus; the empty name or namespace panics |
| Names.ReversedTwice | edn/src/namespaceable_name.rs:108-126 | `to_reversed` is its own inverse exactly on names with at most one leading underscore followed by something, where it flips the direction; it panics exactly on the name `_` |
| Names.DoubleUnderscoreIsNotRestored | edn/src/namespaceable_name.rs:116-126 | a name with two underscores on which the documented inverse fails |
| Names.CmpNameTotal | edn/src/namespaceable_name.rs:161-172 | names are totally ordered, and only equal names compare equal |
| ValueOrder.OrderExactly | edn/src/types.rs:446-527 | the comparison is this order: the listed kinds ascending, within a kind the greater atom first, and collections by their first difference with the direction turned round at every level |
| ValueOrder.FirstDifferenceDecides | edn/src/types.rs:505-527 | vectors, lists and sets that first differ in one element compare as these two do, exchanged; a proper prefix comes after |
| ValueOrder.FirstEntryDecides | edn/src/types.rs:505-527 | maps compare by the keys, then the values, of the first entries that differ, exchanged |
| ValueOrder.NamesMean | edn/src/namespaceable_name.rs:161-172 | of two names the one whose namespace comes first in the dictionary is the lesser, and among equal namespaces the name decides |
| Values.ValueOrderTotal | edn/src/types.rs:446-527 | the recursive order with flipped arguments at every level and two keyword ranks is total, antisymmetric and transitive, and Equal only for equal values |
| Erasure.OrderIgnoresSpans | edn/src/types.rs:505-643 | for all values with spans the order is the plain order of what they hold, repeated elements included |
| Erasure.CanonicalIsWellFormed | edn/src/types.rs:153-182 | a value repeats no element, by the order with spans and at any depth, exactly if what it holds is in tree order |
| Erasure.ErasesNothingExactly | edn/src/types.rs:153-188 | for all values, erasing neither merges nor reorders anything at any depth exactly if no set or map repeats an element |
| Erasure.PullBackExactly | edn/src/types.rs:505-643 | comparing a value with spans against all values without repetition is comparing the erasures exactly if it repeats nothing itself |
| Erasure.RepeatedElementsMerge | edn/src/types.rs:153-182 | a number read twice into a set is kept twice and merged when spans are erased |
| Spanned.SetFromIterStrict | edn/src/types.rs:153-182 | a collected set is strictly ascending and holds exactly the collected elements |
| Spanned.MapFromIterExactly | edn/src/types.rs:153-182 | a collected map is strictly ascending in its keys and holds exactly the last entry of every collected key |
| Spanned.EraseWellFormed | edn/src/types.rs:153-188 | erasing spans always gives a value whose sets and maps are in order, at every depth |
| Spanned.WrappedSpansMerge | edn/src/types.rs:83-90 | a key read again 4 GiB further on carries the same 32-bit span, so that its first entry is dropped |
| Depth.CheckNesting | edn/src/depth.rs:47-86 | the byte loop reports nothing exactly if the depth never exceeds the limit, and otherwise the first opening bracket that does |
| Depth.ScanUtf8 | edn/src/depth.rs:47-86 | scanning the UTF-8 bytes of a text is scanning its characters |
| Parser.Parse | edn/src/lib.rs:731-734 | each outcome with its exact condition: too deep if the scan finds more than 256 levels, otherwise accepted exactly if the grammar reads all of the input as one value, a crash if an action fails, a syntax error if something is left over or nothing matches |
| StackBound.ValueAccounted | edn/src/lib.rs:228-263 | a value that is read brings the scanner back to its depth and never above it by more than the stack |
| Attempts.AttemptsTracked | edn/src/lib.rs:228-263 | at every attempt the grammar makes to read a value, also one that fails, the scanner is in code and its depth has risen by exactly the brackets entered |
| Attempts.ValueExhausts | edn/src/lib.rs:228-263 | running out of stack always goes back to a chain of attempts that ends at an opening bracket with no stack left |
| Attempts.OverflowIsDeep | edn/src/depth.rs:47-86 | when the stack runs out the scanner counts exactly one level more than the stack |
| Recursion.GuardPreventsOverflow | edn/src/depth.rs:47-86 | if the scan accepts a limit, the grammar never needs more levels of stack than that |
| Recursion.EntryPointIndependentOfStack | edn/src/lib.rs:731-734 | with 256 levels of stack or more, the entry point's answer does not depend on the stack and never overflows it |
| Recursion.GuardIsExact | edn/src/depth.rs:47-86 | for every input the grammar accepts, the scan accepts a limit exactly if that many levels suffice |
| Recursion.KeysDistinct | edn/src/lib.rs:237-243 | in texts up to 4 GiB the keys read for one map carry different spans, so collecting the map drops no entry it has read |
| Recursion.GuardMeasuresNesting | edn/src/depth.rs:27-86 | for every accepted input up to 4 GiB the scan accepts a limit exactly if the value read nests at most that deep |
| NestingBound.GuardBoundsNesting | edn/src/depth.rs:27-86 | an accepted input of any length that passes the scan is a value nested at most as deep as the limit |
| NestingBound.CollectedMapNestsLess | edn/src/lib.rs:237-243 | collecting a map never makes it nest deeper, whatever its keys |
| Printer.EscapeText | edn/src/pretty_print.rs:29-41 | the loop writes quote, escaped text, quote |
| AtomReadBack.EscapedReads | edn/src/lib.rs:126-144 | the grammar reads the escaped form of any text back as that text, with quotes, backslashes and newlines in it |
| AtomReadBack.AtomReads | edn/src/lib.rs:80-226 | every printed atom with an accepted name is read back as itself by the ordered choice, in front of any delimiter |
| Rebuilding.SetRebuilt | edn/src/lib.rs:234-235 | a set read from its printed elements erases to that set |
| Rebuilding.MapRebuilt | edn/src/lib.rs:242-243 | a map read from its entries in any order, as they are printed backwards, erases to that map |
| Readable.ValueReadable | edn/src/lib.rs:200-226 | every value the grammar produces has only names that `IsReadable` admits |
| ReadBack.ValueReads | edn/src/lib.rs:228-263 | any layout of a value, anywhere in a text, is read as that value and no further, or overflows the stack exactly if it nests deeper than the stack allows |
| PrintThenParse.PrintedNesting | edn/src/depth.rs:47-86 | the scan of any layout of a value with readable names accepts a limit exactly if the value nests at most that deep |
| PrintThenParse.ReadableReadsBack | edn/src/types.rs:144-150 | any layout of a value with readable names is read back if it nests at most 256 deep and refused as too deep otherwise |
| PrintThenParse.RoundTripExactly | edn/src/pretty_print.rs:43-134 | for every well-formed value, every layout and every sufficient stack: parsing the printed text gives the value exactly if its names are readable and it nests at most 256 deep |
| PrintThenParse.SurroundedReadsBack | edn/src/lib.rs:258-263 | blanks and comments before and after a layout change nothing, whatever brackets the comments hold |
| PrintThenParse.TwoValuesRejected | edn/src/lib.rs:731-734 | the layouts of two values one after the other are never accepted |
| PrintThenParse.LaidSpan | edn/src/lib.rs:246-252 | wherever a layout stands in a text, the span of the value read is the range of its bytes |
| PrintThenParse.LayoutDeterminesValue | edn/src/pretty_print.rs:43-134 | no text is a layout of two different values with readable names |
| PrintThenParse.ShadowedSymbolIsLost | edn/src/lib.rs:246-247 | a symbol that begins with `nil` is printed and not read back |
| Literals.GapSkipped | edn/src/lib.rs:258-263 | every mixture of blanks and comments is skipped |
| Literals.LastCommentSkipped | edn/src/lib.rs:261-263 | a comment at the end of the text needs no end of line |
| Literals.TextReadsExactly | edn/src/lib.rs:126-144 | a text literal is read as `t` exactly if between its quotes every character of `t` is written as itself or as one of the five escapes, `\n`, `\t` and `\r` being the control characters |
| Literals.BasedReads | edn/src/lib.rs:93-117 | for every base from 2 to 36 a numeral after the base and `r`, in either case, is read as its number |
| Literals.HexReads | edn/src/lib.rs:101-117 | the same for hexadecimal numerals after `0x` |
| Literals.OctalReads | edn/src/lib.rs:99-117 | the same for octal numerals after a zero |
| Literals.HyphensIgnored | edn/src/lib.rs:184-190 | the hyphens of a UUID only group its digits |
| Literals.HexTextReads | edn/src/lib.rs:192-198 | every sequence of bytes is decoded from its hexadecimal digits |
| PlainCache.SurvivorsKeepOrder | mentatd/src/cache.rs:238-243 | keys that survive a removal keep their recency order |
| PlainCache.InsertIsPlain | mentatd/src/cache.rs:164-197 | an insertion, with overwrite or eviction of the least recently used key, keeps size, recency and dependency keys in agreement |
| PlainCache.SelectionIsScanExactly | mentatd/src/cache.rs:11-14 | the index selects what the plain scan selects exactly if every entry that depends on the sentinel id also depends on a listed id |
| PlainCache.SentinelDependencyIsUntracked | mentatd/src/cache.rs:11-14 | an entry that depends on the sentinel id alone is dropped although no listed id touches it |
| PlainCache.InvalidateTwice | mentatd/src/cache.rs:209-270 | invalidating two lists one after the other is invalidating their concatenation |
| Recency.RunInOrder | mentatd/src/cache.rs:114-197 | after every run the recency order is the order of last use |
| Recency.EvictsLeastRecentlyUsed | mentatd/src/cache.rs:165-187 | after every run an insertion evicts exactly the least recently used entry of a full cache, for a key not cached |
| Freshness.HeldExactly | mentatd/src/cache.rs:100-286 | after every run a key is cached exactly if one of its insertions was since neither repeated, dropped, cleared, evicted nor found expired, with that insertion's entry and dependencies |
| Freshness.HitsExactly | mentatd/src/cache.rs:108-133 | after every run a lookup hits exactly if such an insertion is at most the TTL old, and answers its result |
| QueryCaching.IndexUnique | mentatd/src/cache.rs:63-66 | without empty buckets the reverse index is determined by the dependencies |
| QueryCaching.QueryCache.constructor | mentatd/src/cache.rs:80-95 | a new cache is empty and consistent; capacity 0 disables it |
| QueryCaching.QueryCache.RemoveKeyFromReverseIndex | mentatd/src/cache.rs:332-352 | exactly the key leaves exactly its buckets, and no empty bucket stays |
| QueryCaching.QueryCache.RemoveDepsForKey | mentatd/src/cache.rs:308-317 | the dependencies and all links of the key go, nothing else |
| QueryCaching.QueryCache.RemoveReverseIndexForKey | mentatd/src/cache.rs:320-329 | the links of the key go and its dependencies stay |
| QueryCaching.QueryCache.AddDepsForKey | mentatd/src/cache.rs:291-305 | the key gets its dependencies and joins exactly its buckets, the sentinel's if it has none |
| QueryCaching.QueryCache.Get | mentatd/src/cache.rs:100-134 | keeps the dual-index invariant; hits exactly if the entry is at most the TTL old, then touches it and answers its value; an older one leaves all three maps; counters |
| QueryCaching.QueryCache.InsertWithDeps | mentatd/src/cache.rs:149-198 | keeps the invariant and refines the plain insertion through overwrite and eviction; nothing happens when disabled |
| QueryCaching.QueryCache.Put | mentatd/src/cache.rs:165-196 | the LRU map's put: the key comes first and a full map loses its last key |
| QueryCaching.QueryCache.KeysToRemove | mentatd/src/cache.rs:214-234 | the buckets give exactly the keys the plain form selects |
| QueryCaching.QueryCache.UnlinkAll | mentatd/src/cache.rs:244-265 | removing many keys and dropping empty buckets at the end leaves the index the reverse of what remains |
| QueryCaching.QueryCache.InvalidateEntities | mentatd/src/cache.rs:209-270 | keeps the invariant, removes exactly the selected entries, leaves the others' values, dependencies and recency as they were, and returns how many went |
| QueryCaching.QueryCache.Invalidate | mentatd/src/cache.rs:275-286 | everything is gone, also when disabled |
| CacheLocks.RemovedSound | mentatd/src/cache.rs:236-243 | a removal under the cache lock keeps every earlier hit and every remaining entry correct |
| CacheLocks.PutSound | mentatd/src/cache.rs:165-197 | so does the put with its eviction |
| CacheLocks.GetSound | mentatd/src/cache.rs:108-133 | so does the lookup, whose own hit is correct |
| CacheLocks.BoundedStaleness | mentatd/src/cache.rs:100-352 | under every interleaving of critical sections of any number of threads, every hit answers the latest value put and not since removed, at most the TTL old, and the cache never exceeds its capacity |
| SerialCache.CollectedIsSelected | mentatd/src/cache.rs:214-234 | on a consistent cache the keys collected under the read lock are those the plain form selects |
| SerialCache.SectionMidway | mentatd/src/cache.rs:100-352 | each critical section leaves the maps as the next section of its operation expects them |
| SerialCache.SerialRunsConsistent | mentatd/src/cache.rs:100-352 | if every operation is called while all threads are idle, the dual-index invariant holds whenever all threads are idle |
| SerialAnswers.SectionAmounts | mentatd/src/cache.rs:100-286 | one section of each operation decides it, with the answer and the state of the atomic operation, and the others change nothing it means |
| SerialAnswers.SerialRunsAnswer | mentatd/src/cache.rs:100-286 | if operations do not overlap, all lookups answer and, when none is under way, the cache is as the atomic operations in that order make it |
| LostIndexEntry.EntryLeavesIndex | mentatd/src/cache.rs:122-128 | from the empty cache and for any results and dependencies, an expiring lookup and an insertion of the same key can interleave so that the finished entry has no dependencies and is in no bucket |
| Json.ExtractChangedEntities | mentatd/src/server.rs:2131-2152 | each entity heading a datom of `tx-data` once, nothing else, and nothing for a report without it |
| Json.ExtractResultEntities | mentatd/src/server.rs:2161-2178 | the integers in the columns of the result rows |
| Json.ResultEntitiesAreIntegers | mentatd/src/server.rs:2161-2207 | they are among the integers anywhere in the result, as collected for pulls |
| Json.AllIntegersExactly | mentatd/src/server.rs:2180-2207 | exactly the integers that occur anywhere in the value are collected |
| Json.ArgsJsonInjective | mentatd/src/server.rs:758-767 | different argument lists have different JSON texts, whatever characters they hold |
| CacheKeys.KeysNeverCollide | mentatd/src/server.rs:758-770 | live queries, snapshot queries and pulls with different contents never share a cache key |
| Snapshots.DbValueCache.CreateSnapshot | mentatd/src/db_cache.rs:37-48 | the snapshot is recorded with its basis and time, and no other changes |
| Snapshots.DbValueCache.GetSnapshot | mentatd/src/db_cache.rs:53-74 | answers exactly a snapshot younger than the TTL, unchanged, and forgets an older one, with both looks at the clock |
| Snapshots.DbValueCache.GetBasisT | mentatd/src/db_cache.rs:79-106 | the same for its basis |
| Snapshots.DbValueCache.CleanupExpired | mentatd/src/db_cache.rs:111-116 | exactly the snapshots younger than the TTL stay, unchanged |
| SnapshotRuns.AnswersWhileYoung | mentatd/src/db_cache.rs:37-116 | over every run with a clock that does not go back, a snapshot answers exactly while it is younger than the TTL, with the basis it was given |
| Serving.DependenciesExactly | mentatd/src/server.rs:1012-1045 | a pull records its entity and exactly the integers that occur in the result, a query those in its columns |
| Serving.VisibleSettled | mentatd/src/server.rs:813-823 | a later transaction does not change what a query as of a settled basis sees |
| Serving.SnapshotSeesEverything | mentatd/src/server.rs:704-722 | the basis read for a snapshot sees every transaction committed by then |
| Serving.SparedByList | mentatd/src/server.rs:975-990 | the order in which changed entities are listed does not matter to the invalidation |
| Serving.StepFaithful | mentatd/src/server.rs:704-1045 | every step of any request, with commits also between reading a basis and recording the snapshot, keeps cached, fetched and served snapshot answers equal to the database's |
| Serving.RepeatableReads | mentatd/src/server.rs:727-858 | over every interleaved run all successful queries with the same query, arguments and db-id get the same answer, hit or miss, and it is the one as of the snapshot's basis |
| LiveServer.Server.TakeSnapshot | mentatd/src/server.rs:704-722 | returns the new id and the highest transaction id |
| LiveServer.Server.Query | mentatd/src/server.rs:727-858 | an unknown or expired db-id is an error that leaves the cache alone; otherwise answers and caches under the key of its source |
| LiveServer.Server.PullEntity | mentatd/src/server.rs:1001-1045 | answers and caches a pull with its entity and every integer of the result as dependencies |
| LiveServer.Server.Transact | mentatd/src/server.rs:964-990 | clears, invalidates by entity, or on an unreadable report does neither |
| Coherence.SparedExactly | mentatd/src/server.rs:975-990 | a cached answer survives a readable report exactly if it has dependencies, none of them the sentinel or a changed entity, and the report changes some entity |
| Coherence.TransactCoherent | mentatd/src/server.rs:975-990 | if the dependencies suffice, a transaction with a readable report keeps every cached live answer current, in the targeted and in the clearing branch |
| Coherence.SufficientIsCurrent | mentatd/src/server.rs:727-1045 | if the dependencies suffice, after every sequential run with readable reports a live query or pull answers as the current database does |
| Coherence.CurrentExactly | mentatd/src/server.rs:727-1045 | live answers are current after every sequential run with readable reports exactly if no transaction changes a live answer that it does not drop |
| Coherence.SlippedAnswerIsServed | mentatd/src/server.rs:774-848 | whenever a transaction does not drop a live answer, asking, committing it and asking again returns the earlier answer |
| Coherence.NewEntityIsMissed | mentatd/src/server.rs:2154-2179 | for the query for all entities a transaction that creates one is such a transaction and changes the answer |
| Coherence.UnreadableReportLeavesStale | mentatd/src/server.rs:964-968 | for every transaction with an unreadable report there is a coherent cache that it leaves stale |
| StaleStore.StoreAfterInvalidationIsStale | mentatd/src/server.rs:774-848 | a legal interleaving in which a live hit is stale |
| LiveRuns.StepRight | mentatd/src/server.rs:727-1045 | every timely step keeps each cached live answer right at some earlier moment, with every transaction that affects it since still waiting to invalidate |
| LiveRuns.LiveAnswersAreCurrent | mentatd/src/server.rs:727-1045 | over every interleaved run with readable reports in which no live answer is stored after an invalidation that affects it, a live answer given while no report is waiting is the current one |
| SchemaCaching.LastAttributeRowDecides | pg_mentat/src/cache.rs:134-213 | an ident resolves to the entid of the last attribute row that names it, whatever the `idents` table says |
| SchemaCaching.LastRowOfEntidDecides | pg_mentat/src/cache.rs:134-213 | the last usable attribute row of an entid decides its ident and, column by column, its attribute, whatever the `idents` table says |
| SchemaCaching.AttributesAreDescribed | pg_mentat/src/cache.rs:134-213 | an entid has an attribute exactly if some usable attribute row is its own; the `idents` table adds none |
| SchemaCaching.FirstIdentRowDecides | pg_mentat/src/cache.rs:190-213 | an ident that no attribute row names resolves to the entid of its first complete `idents` row |
| SchemaCaching.FirstEntidRowDecides | pg_mentat/src/cache.rs:190-213 | an entid without an attribute row has the ident of its first complete `idents` row |
| SchemaCaching.ResolvedIdentsAreNamed | pg_mentat/src/cache.rs:190-213 | an ident added from the `idents` table comes from a row that names it with that entid |
| SchemaCaching.SchemaCache.WarmUp | pg_mentat/src/cache.rs:126-226 | loads both tables and the generation, unless warm |
| SchemaCaching.SchemaCache.EnsureFresh | pg_mentat/src/cache.rs:231-257 | loads a cold copy, reloads a warm one if the shared generation is higher and no bypass is set |
| SchemaCaching.SchemaCache.Begin | pg_mentat/src/cache.rs:44-62 | one generation check, or the first load |
| SchemaCaching.SchemaCache.Invalidate | pg_mentat/src/cache.rs:309-317 | all maps are emptied and the copy is cold; the generation stays |
| SchemaCaching.SchemaCache.GetAttribute | pg_mentat/src/cache.rs:263-268 | a faithful copy answers from its recorded generation, outside a bypass from the current one |
| SchemaCaching.SchemaCache.ResolveIdent | pg_mentat/src/cache.rs:274-279 | the same for idents |
| SchemaCaching.SchemaCache.GetIdent | pg_mentat/src/cache.rs:282-287 | the same for entids |
| SchemaCaching.SchemaCache.GetAttributeByIdent | pg_mentat/src/cache.rs:290-299 | the same for attributes by ident |
| Backends.Backend.GetOrCreate | pg_mentat/src/cache.rs:336-359 | one cache per store, created cold on first use |
| Backends.Backend.BeginTxCacheBypass | pg_mentat/src/cache.rs:44-63 | checks the copy of the one store and sets the flag; other copies do not change |
| Backends.Backend.EndTxCacheBypass | pg_mentat/src/cache.rs:68-70 | clears the flag and nothing else |
| Backends.Backend.InvalidateStore | pg_mentat/src/cache.rs:362-367 | drops the copy of the one store |
| Backends.StepFaithful | pg_mentat/src/cache.rs:126-317 | every step of every backend keeps all copies faithful to the committed history |
| Backends.LookupsAreCurrent | pg_mentat/src/cache.rs:231-257 | in every reachable state a warm copy equals the schema of its generation, which never exceeds the shared one, and a lookup outside a bypass answers from the current committed schema |
| Backends.FloorNeverFalls | pg_mentat/src/cache.rs:44-70 | no step of any backend makes a backend's next answer older |
| Backends.BypassWindow | pg_mentat/src/cache.rs:44-70 | inside a bypass all lookups in its store answer from committed generations no older than the one current at its start, never going backwards |
| Backends.QuietWindow | pg_mentat/src/cache.rs:44-70 | they answer from that very generation if the store is not invalidated inside |
| Matching.Matcher.MatchInternal | edn/src/matcher.rs:86-130 | the recursive method with its shared table does what the function `Match` says, also on failure |
| Matching.Matcher.NoDifference | edn/src/matcher.rs:99-104 | elements are compared until the first difference, lengths last |
| Matching.Matcher.SameSets | edn/src/matcher.rs:105-111 | every value finds a pattern and every pattern a value, first come first served |
| Matching.Matcher.SameMaps | edn/src/matcher.rs:112-127 | the same for entries |
| MatcherLaws.MatchSound | edn/src/matcher.rs:86-130 | for all patterns the final table extends the initial one, and on success the value satisfies the pattern under it |
| MatcherLaws.FixedMatch | edn/src/matcher.rs:86-130 | a pattern without placeholders, sets and maps included, is decided whatever the bindings are and leaves them alone |
| MatcherLaws.BoundExactly | edn/src/matcher.rs:86-130 | every pattern whose placeholders are all bound, sets and maps included, is decided and nothing is bound |
| MatcherLaws.SatisfiedMatches | edn/src/matcher.rs:86-130 | bindings that satisfy a pattern make it match and stay as they are; what has matched once matches again with the same table |
| MatcherRejects.VerdictExactly | edn/src/matcher.rs:86-130 | for all patterns the answer is yes exactly if the final table satisfies the pattern, and exactly if some extension of it does |
| MatcherComplete.MatchLeast | edn/src/matcher.rs:86-130 | if the elements of sets and maps hold no placeholder or tell values apart, any satisfying bindings make the matcher succeed and contain what it binds |
| MatcherComplete.MatchExactly | edn/src/matcher.rs:86-130 | for such patterns it succeeds exactly if some extension of the bindings satisfies the pattern, and its table is the least such |
| MatcherComplete.ConstantKeysOrderly | edn/src/matcher.rs:112-127 | map patterns with constant keys and such values are such patterns |
| MatcherComplete.SingletonsOrderly | edn/src/matcher.rs:105-127 | so are sets and maps of one such element |
| MatcherComplete.ConstantHeadsOrderly | edn/src/matcher.rs:105-111 | so are sets of vectors that begin with different constants |
| MatcherSets.SetMatchIncomplete | edn/src/matcher.rs:105-111 | a set pattern with a satisfying binding that the matcher rejects |
| MatcherSets.RejectedSetsAreWellFormed | edn/src/matcher.rs:105-111 | its two sets are in the order the tree collections keep |
| MatcherSets.OneValueServesAll | edn/src/matcher.rs:105-111 | a set pattern that begins with a wildcard is accepted as soon as one value fits every pattern |
| MatcherSets.PatternsShareAValue | edn/src/matcher.rs:105-111 | an accepted set, in tree order as its pattern is, in which two patterns fit one and the same value only |
| MatcherSets.ExclusiveIsOneToOne | edn/src/matcher.rs:105-111 | if no value satisfies two of the patterns under any extension of the starting bindings, an accepted set is matched one to one |
| MatcherSets.FixedExclusiveIsOneToOne | edn/src/matcher.rs:105-111 | for patterns without placeholders it is enough that no value satisfies two of them under one table, whichever |
| Patterns.PlaceInValue | edn/src/query.rs:308-315 | a place moved to the value position matches a reference as it matched the entity |
| Patterns.PlaceInEntity | edn/src/query.rs:434-450 | a value place moved to the entity position matches as it matched the reference, and one that is refused matches no entity |
| Patterns.SpellsExactly | edn/src/namespaceable_name.rs:108-126 | a backward name spells a forward one exactly if it has one underscore and something after it, and `to_reversed` goes both ways between them |
| Patterns.NewPatternPreservesMeaning | edn/src/query.rs:819-856 | for properly directed names the built pattern keeps its source, has a forward attribute and matches exactly the reference datoms the written one denotes; a rejected one denotes nothing; nothing panics |
| Patterns.RejectedExactly | edn/src/query.rs:819-856 | exactly which patterns are rejected and which panic |
| Patterns.ForwardExactly | edn/src/query.rs:819-856 | the attribute of the built pattern is forward exactly if the name was properly directed |
| Patterns.NewPatternTwice | edn/src/query.rs:819-856 | building a built pattern again changes nothing |
| Patterns.AgreesExactly | edn/src/query.rs:819-856 | a pattern that is turned round matches what it denotes, in all environments and on all datoms, exactly if its entity place is a variable that stands in another place too |
| Patterns.UnpinnedMatchesPlainValue | edn/src/query.rs:819-856 | for every other such pattern, a datom whose value is no reference and that only the built pattern matches |
| Patterns.RewrittenMatchesPlainValues | edn/src/query.rs:829-840 | the pattern `[_ :_b _]` is one of them |
| QueryParts.FromParts | edn/src/query.rs:1028-1134 | the loop over parts with its option variables assembles the query or returns the first error, accepts exactly the well-assorted lists, and gives every field its part or its default |
| QueryParts.QueryHoldsParts | edn/src/query.rs:1104-1132 | every field of an accepted query is what the part of its kind holds, or the default of its kind; `in_vars` is by default the scalar bindings in order, and `distinct` holds exactly if that part occurs |
| QueryParts.ScalarsInOrder | edn/src/query.rs:1104-1117 | the scalar bindings of a concatenation are those of its parts in order, and no other binding counts |
| QueryParts.ErrorsInOrder | edn/src/query.rs:1043-1132 | the first repeated part is reported by its keyword; without one a missing `:find`, then a missing `:where` |
| QueryParts.AcceptedExactly | edn/src/query.rs:1028-1134 | accepted exactly if `:find` and `:where` occur once and every other kind except `:distinct` at most once |
| QueryParts.OrderIndependent | edn/src/query.rs:1028-1134 | permuting the parts changes neither acceptance nor the query |
| QueryParts.MessageDependsOnOrder | edn/src/query.rs:1043-1102 | it can change the error message |
| RuleGroups.RuleDefinitions | edn/src/lib.rs:570-585 | the loop groups the clauses; the groups are a partition and concatenate to the stable sort |
| RuleGroups.PushedGrouped | edn/src/lib.rs:570-585 | rule names are distinct and ascending, each rule is non-empty and holds exactly the clauses of its name in source order, and every clause has its rule |
| RuleGroups.GroupingIsStableSort | edn/src/lib.rs:570-585 | concatenating the rules gives the stable sort of the clauses by head name |
| Sorting.StableSortUnique | edn/src/lib.rs:570-585 | ascending sequences that agree on every class of equals are the same, so there is one stable sort |
| Breaker.CircuitBreaker.RecordError | mentatd/src/server.rs:179-182 | resets if the window has elapsed, then counts one error |
| Breaker.CircuitBreaker.ShouldReject | mentatd/src/server.rs:185-208 | rejects exactly while more errors than the threshold lie in a window that has not elapsed; the first check after the window admits |
| Breaker.DecideAdmitsExactly | mentatd/src/server.rs:185-208 | a check that has found the window elapsed and reset it admits exactly if at most threshold errors are recorded before it decides |
| Breaker.WindowStands | mentatd/src/server.rs:168-208 | for the length of a window after a reset nothing moves it, however often it is checked, and the gauge counts every error recorded |
| Breaker.ResetAfterWindow | mentatd/src/server.rs:168-208 | a check after the window finds or makes a later reset |
| Breaker.ErrorCountBounded | mentatd/src/server.rs:439-444 | in every interleaving with at most k admitted requests in flight the error count never exceeds threshold + k |
| Breaker.BoundAttained | mentatd/src/server.rs:542-557 | for every threshold and every positive k some run reaches threshold + k |

## Left out

- HTTP, WebSocket, SSE, connection pool, metrics and configuration of mentatd: input and output over libraries that are not part of this model.
- SQL text, row decoding, and the extension's transact, query and pull code: what PostgreSQL computes is the parameter `World` of the server model.
- Floats, instants, UUIDs and bytes in the round trip: the order, the parser and the nesting scan cover them, the printer's output for them rests on library formatting; `1.0` can be printed as `1`.
- `Display` for text: it does not escape, so only the pretty printer carries the round trip.
- The transaction and query rules of `edn/src/lib.rs`, except for the grouping of rule clauses: they add grammar rules of the same shape.
- The choice of line breaks by page width: every choice is covered, so the width does not matter.
- Lock poisoning, and index agreement of the query cache between critical sections: only age, freshness of the value and size hold there.
- Wrap-around of the 64-bit counters of the cache and of the breaker: they are unbounded here.
- Cache statistics: reading counters only.
- Transaction retries after serialization failures: only the committed outcome reaches the cache.
- Aborted transactions, missing generation rows and failing reads in the schema cache: every schema change commits together with its generation.
- The bypass flag's effect on stores other than the one it was begun for: nothing is claimed there.
- `default_source` and `in_sources` of a parsed query: constants.
- SchemaCaching.SchemaCache.WarmUp: a read that fails half way is not modelled, because PostgreSQL then aborts the transaction.
- Recursion.GuardMeasuresNesting: stated for texts up to 4 GiB, because spans are 32 bits wide and entries whose keys carry the same span are merged (`Spanned.WrappedSpansMerge`); `Recursion.GuardIsExact` and the direction `NestingBound.GuardBoundsNesting` have no such bound.
- Recursion.KeysDistinct: stated for texts up to 4 GiB for the same reason.
- Patterns.NewPatternPreservesMeaning: the equivalence is stated for datoms whose value is a reference; `Patterns.AgreesExactly` says for which patterns it holds on all datoms. Entity ids are non-negative.
- MatcherComplete.MatchExactly: completeness is stated for patterns in which the elements of a set or map hold no placeholder or tell values apart, because otherwise it can be false (`MatcherSets.SetMatchIncomplete`); `MatcherRejects.VerdictExactly` covers all patterns.
- Coherence.CurrentExactly: it takes as premises that an answer's JSON text reads back as the answer and that the cache holds at least one entry.
- LiveRuns.LiveAnswersAreCurrent: it takes as premises that an answer's JSON text reads back as the answer and that no transaction changes a live answer that it does not drop, because without the second even sequential runs are stale (`Coherence.CurrentExactly`).
- Serving.RepeatableReads: it assumes that an answer's JSON text reads back as the answer, growing transaction ids, no excision, UUIDs that are never issued twice, and that a query as of `t` sees exactly the transactions with ids up to `t`.
- Breaker.ErrorCountBounded: health requests are not in it, because they bypass the breaker and never fail.
