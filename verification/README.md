# A verified model of the maxminddb Node.js reader

`@oschwald/maxminddb` is a Node.js reader for MaxMind DB files: a JavaScript layer (`index.js`) over
native readers written in Rust (`src/`). This Dafny project models the parts of it that hold state
and proves what they keep over whole runs.

`dafny verify dfyconfig.toml` checks everything.

## What is modelled

Where the source changes things step by step, the model has a class or a loop with the same steps,
proved equal to a function on values; theorems about whole runs are then proved about the functions.
`Reader` and `PathLookup` share the functions on their fields, generic in the native reader, with the
transition systems of `Reloads` and `PathHandles`.

| files | what they model |
|---|---|
| `Lru.dfy`, `RecordCaches.dfy` | the `lru` crate's list and the two-segment `RecordCache` over it |
| `CacheHistory.dfy`, `CacheRetention.dfy`, `CacheAccounting.dfy` | what the cache holds after any run, how long it keeps an entry, and where every entry and reference ends up |
| `Natives.dfy`, `NativeReaders.dfy`, `NativeRuns.dfy`, `NativeAnswers.dfy` | one native reader: lookups through the cache, batches, compiled-path table, load, close; runs of its calls, and what they answer in terms of the databases alone |
| `Reloads.dfy`, `ReloadProgress.dfy`, `ReloadOwnership.dfy`, `ReloadFreshness.dfy`, `ReloadOutcomes.dfy`, `Readers.dfy` | the asynchronous reload protocol as a transition system over every interleaving, and the `Reader` object whose uninterrupted stretches of code are its actions |
| `PathHandles.dfy`, `PathRuns.dfy`, `PathAnswers.dfy`, `PathLookups.dfy` | `PathLookup` handles and finalizers over native readers that are swapped, closed and reloaded |
| `Networks.dfy`, `Walks.dfy`, `NetworkIterators.dfy`, `NetworkItems.dfy`, `CursorSnapshots.dfy` | native network cursors with their page memo, the JavaScript iterator over them, what their items are, and what a cursor gives while its reader changes |
| `Ipv4.dfy` | the one-pass IPv4 text parser against section 3.2.2 of RFC 3986 |
| `Decoding.dfy` | array and object construction with size hints and shared property-name storage |

The MaxMind DB format is behind the functions of `Natives.Source`: finding a record, decoding it,
projecting a path and walking networks are functions of the opened database. Files, worker threads,
hooks and the garbage collector appear as choices: any outcome, at any moment the code allows.

In `Reloads`, an action is one stretch of JavaScript between two await points. A hook in progress is a
state of its own, so everything else may happen during it; this allows more interleavings than a
real event loop, and the theorems hold for all of them.

A path handle does not always keep its promise. When its recompilation fails it keeps its old id
together with the new native reader (`index.js:190-192`), and two things can then go wrong.

- The reader was closed and is reopened: `PathRuns.ReopenedReaderAliases` is a run in which the handle
  then evaluates another path, and `PathRuns.ReopenIsSafeIff` says exactly when reopening is safe.
- The reader's ids have run out: `PathRuns.ExhaustedIdsAlias` is a run that uses them up and makes the
  handle evaluate another path, and `PathRuns.ExhaustedMoveIsSafeIff` says exactly when such a move is
  safe.

A run in which both conditions hold whenever they matter is called prudent; the handle theorem is proved
for all prudent runs.

## Model

| member | source | states |
|---|---|---|
| RecordCaches.RecordCache.constructor | src/cache.rs:50-69 | for every capacity of at least one the subtraction leaves probation room for an entry, and the new cache is empty and sound |
| RecordCaches.SegmentSizes | src/cache.rs:50-62 | two segments exactly for capacities 5 to 10,000, a fifth of them protected; otherwise all of the capacity is one list |
| RecordCaches.RecordCache.Get | src/cache.rs:71-99 | a probe makes exactly the move `Probed` describes, in place over two LRU lists, and returns what either segment caches |
| RecordCaches.RecordCache.Promote | src/cache.rs:76-91 | pop, push and demotion together; both debug assertions hold on every path |
| RecordCaches.RecordCache.Put | src/cache.rs:101-115 | for any offset: only objects are inserted, eviction and replacement are told apart, the displaced reference is given back; the cache stays valid exactly when the offset is not protected |
| RecordCaches.RecordCache.Clear | src/cache.rs:117-127 | both segments end empty and every reference is given back once, least recent first |
| RecordCaches.BackwardsAt | src/cache.rs:117-127 | the order in which clearing gives references back is the exact reverse of recency |
| RecordCaches.RecordCache.Len | src/cache.rs:129-131 | the size reported counts both segments and never exceeds the capacity |
| RecordCaches.PromotionFits | src/cache.rs:82-88 | the demoted key differs from the promoted one and the demotion never evicts |
| RecordCaches.MovedSound | src/cache.rs:76-95 | a hit keeps segments duplicate-free, disjoint and within capacity, and loses or changes no cached value |
| RecordCaches.InsertedSoundIff | src/cache.rs:101-115 | insertion keeps the cache sound if and only if the value is not an object or the offset is not protected, which the get-miss-then-put protocol guarantees |
| RecordCaches.InsertedAccounts | src/cache.rs:106-113 | over any sound cache: replacing an entry is no eviction, inserting into a full segment is one, and exactly the reference that goes is given back |
| CacheHistory.ProtectedIsRecentHits | src/cache.rs:76-91 | segmented mode: after any run the protected segment is exactly the capacity/5 most recently hit distinct offsets, in recency order |
| CacheHistory.PlainIsRecentLookups | src/cache.rs:92-95 | plain mode: after any run the cache is exactly the capacity most recently looked-up distinct offsets with object values |
| CacheHistory.RecencyOrdersByLastUse | src/cache.rs:76-95 | the recency order used in both statements is the order of last use in the log |
| CacheHistory.ScanKeepsProtected | src/cache.rs:50-115 | a scan of uncached distinct offsets, of any length, never hits and leaves the protected segment as it was |
| CacheHistory.LookedFaithful | src/decode.rs:388-413 | a lookup through a cache that agrees with the database returns what decoding returns, and the cache still agrees |
| CacheHistory.ContainersAreCached | src/cache.rs:101-104 | only arrays, objects and buffers are ever cached, and the one looked up last always is |
| CacheHistory.CountersMatchHitLog | src/cache.rs:76-98 | over any run the hit counter grows by the lookups that found their offset cached, the miss counter by the others |
| CacheRetention.HitEntryIsRetained | src/cache.rs:76-115 | between a hit on x and its eviction at least P distinct other offsets are hit and then at least Q entries are pushed into probation |
| CacheRetention.NewEntrySurvives | src/cache.rs:107-113 | an entry not looked up again is still cached, with its value, after any run with fewer than Q pushes into probation |
| CacheRetention.ProbationStep | src/cache.rs:81-113 | probation ages only by pushes: one place at most per push, and only a push evicts, from the last place |
| CacheRetention.NotedPushesAreSeen | src/cache.rs:84-113 | a push counted by the retention results is one that put a new offset into probation |
| CacheAccounting.BooksBalance | src/cache.rs:71-131 | over every run of lookups and clears, with any decoder answers: inserts = size + evictions + cleared, hits are the lookups of cached offsets and misses the others, and references held or given back are exactly those created |
| CacheAccounting.UpToHoldsOnce | src/cache.rs:106-112 | the ledger of created references counts each of them exactly once |
| NativeReaders.NativeReader.LookupRecord | src/decode.rs:388-413 | get, then decode and put on a miss, keeps the cache sound and returns the record |
| NativeReaders.NativeReader.Get | src/lib.rs:296-306 | a lookup checks text, address family and database in that order, then goes through the cache |
| NativeReaders.NativeReader.GetWithPrefixLength | src/lib.rs:396-417 | as get, with the prefix adjusted for IPv4 in an IPv6 tree; an error before the record leaves the cache alone |
| NativeReaders.NativeReader.GetMany | src/lib.rs:419-431 | the whole batch is checked, then looked up in order up to the first failure |
| NativeReaders.NativeReader.CollectResults | src/lib.rs:621-632 | the loop's cache changes and results are those of the recursive fold |
| NativeReaders.NativeReader.CompilePath | src/lib.rs:355-369 | closed, bad path and exhausted ids fail before the table changes; otherwise the next id is issued |
| NativeReaders.NativeReader.GetCompiledPath | src/lib.rs:377-394 | an id resolves through the table, after the lookup checks, or is unknown |
| NativeReaders.NativeReader.Load | src/lib.rs:259-269 | a database that fails to open changes nothing; otherwise the cache is cleared and the address family follows the new database |
| NativeReaders.NativeReader.Close | src/lib.rs:276-284 | the cache and path table are emptied and the database dropped; ids already issued are not issued again |
| NativeReaders.NativeReader.NetworkCursor | src/lib.rs:496-527 | the cursor walks the database open at its creation, without regard to the record memo |
| CursorSnapshots.SnapshotPages | src/lib.rs:71-81 | for any query, path and script of calls, loads, closes, swaps and pages after its creation, the pages show the networks and records of the database open at its creation |
| CursorSnapshots.Play | src/lib.rs:220-249 | the same for a cursor already under way: every page, and what is left, depend only on its own rows and the page sizes |
| NetworkItems.PagesAreTheRows | src/lib.rs:220-249 | pages taken without an error are the rows in order, none lost and none twice |
| NetworkItems.PagesShowNetworks | src/networks.rs:74-126 | item i is the pair of the i-th network's text and what the database stores for it, whole or at the path, or null; pages are full until the walk ends; the first page that fails gives the first error in it |
| NetworkItems.IteratorShowsNetworks | index.js:221-265 | any mix of next() and nextPage(k) hands out exactly the first of these pairs, in order |
| NativeRuns.CacheIsTransparent | src/decode.rs:388-413 | over every run of native calls, a reader with a cache of any capacity returns what the same reader without one returns |
| NativeRuns.ApplyCoherent | src/lib.rs:592-598 | every call keeps ip_version equal to the open database's, table ids issued and the cache sound |
| NativeAnswers.GetReadsTheOpenDatabase | src/lib.rs:592-598 | over every run, with a cache of any capacity, get answers what the database loaded last and not closed since stores for the address, or the first refusal: text, family, closed |
| NativeAnswers.GetPathReadsItsPath | src/lib.rs:317-334 | a path lookup reads exactly its path in that database; a rejected path is an error once the address is good |
| NativeAnswers.CompiledPathReadsItsPath | src/lib.rs:354-394 | over every run, a compiled id reads its own path in the database open by then exactly until it is released or the reader closed, and is unknown for good after that |
| NativeAnswers.PrefixLookupReadsTheOpenDatabase | src/lib.rs:396-417 | the pair of what get answers and the network's prefix length, without its first 96 bits for an IPv4 address in an IPv6 network |
| NativeAnswers.BatchReadsTheOpenDatabase | src/lib.rs:419-431 | all texts, then all families, then that a database is open; then what get answers for each address in order, or the first error |
| NativeAnswers.NothingStaysCached | src/lib.rs:276-291 | clearing, a successful load and closing empty the cache; a failed load changes nothing |
| NativeRuns.BatchIsSuccessiveGets | src/lib.rs:419-431 | an accepted getMany leaves results, cache order and counters as successive get calls do; a rejected one changes nothing |
| NativeRuns.GettersActBeforeTheBatch | src/lib.rs:550-559 | whatever array getters do to the reader happens before the one uninterrupted batch, and a bad text stops the reading there |
| NativeRuns.IssuedIdsAreStable | src/lib.rs:355-375 | over every run, an issued id later is gone or stands for the same path |
| NativeRuns.CompiledPathKeepsItsMeaning | src/paths.rs:73-81 | after any run an id answers as a fresh lookup of its path would, or is unknown |
| NativeRuns.CompiledIdsDiffer | src/lib.rs:362-367 | two compilations on one reader never share an id, even across close and load |
| Reloads.NoChangeIsLost | index.js:441-466 | in every interleaving: one drain exactly when active, attempts never outnumber events, and an idle unclosed reader's latest attempt started after the last event |
| Reloads.FlagsStep | index.js:441-466 | every single action keeps the relation between the pending and active flags, the drain, and the event counts |
| ReloadProgress.DrainWorkIsBounded | index.js:448-460 | in every interleaving the drain takes at most six steps per event |
| ReloadProgress.ActiveDrainFinishes | index.js:448-460 | an active drain is never stuck and becomes idle within the steps owed |
| ReloadOwnership.NoNativeReaderLeaks | index.js:399-429 | in every interleaving each native reader is closed, current, or a replacement still to be handled; bound get and metadata belong to the current one |
| ReloadOwnership.ReplaceOwned | index.js:420-429 | a swap closes the previous reader and no other |
| ReloadOwnership.CloseIsFinal | index.js:431-439 | after close no watched reload installs or calls the hook again, even if the reader is reopened, and only reloadAsync() can still change the current native reader |
| ReloadOwnership.LateReplacementIsClosed | index.js:482-485 | after close, a native reader the drain opened is never the current one at any later moment, and is closed once handled, with the reader's fields left alone |
| ReloadFreshness.IdleReaderIsFresh | index.js:468-493 | told from the actions of any watcher-driven run: the latest attempt of an idle watched reader started at or after the last event; unless the world failed it, the reader is open on the file as of that start or later; lastError says what failed |
| ReloadFreshness.GoodAnswersReachTheReader | index.js:468-486 | when nothing fails after the last event of such a run, an idle watched reader holds the file as of that event or later |
| ReloadFreshness.AttemptChangesOnlyByInstalling | index.js:469-492 | until its open is handled an attempt changes nothing; a failed open and a throwing hook change lastError alone |
| ReloadFreshness.HistoryCountsSteps | index.js:441-489 | the counted events, attempts, installs and hook calls are the ones that happened |
| ReloadOutcomes.AsyncReloadInstallsWhatItRead | index.js:399-418 | in every run a reloadAsync() whose worker read the file installs exactly that version and closes the reader it replaces, or on a closed reader closes what it opened |
| ReloadOutcomes.FailedAsyncReload | index.js:414-417 | a reloadAsync() whose open failed changes lastError alone |
| ReloadOutcomes.LoadReplacesInPlace | index.js:374-397 | load and reload put the database offered into the current native reader, open or closed; a failure changes lastError alone |
| ReloadFreshness.HookRunsOncePerInstall | index.js:486-489 | over every run the hook is called once per watched install and never otherwise |
| Readers.Reader.QueueWatchedReload | index.js:441-466 | an event sets both flags and schedules a drain exactly when none was active |
| Readers.Reader.DrainTurn | index.js:448-455 | the drain takes a pending change or goes idle; nothing else changes |
| Readers.Reader.DrainFinally | index.js:454-459 | leaving the drain with a change still pending schedules another drain |
| Readers.Reader.WatchedOpenResumed | index.js:476-492 | failure changes only lastReloadError; an unwanted replacement is closed; otherwise it is installed, the previous reader closed and the hook due |
| Readers.Reader.ReplaceNativeReader | index.js:420-429 | reader, get and metadata move together, the error clears, and only the previous reader is closed |
| Readers.Reader.ReloadAsyncResumed | index.js:399-418 | a replacement for a closed reader is closed and reported; otherwise it is installed |
| Readers.Reader.Load | index.js:374-383 | success updates metadata and clears the error; failure records it and changes nothing else |
| Readers.Reader.Reload | index.js:385-397 | a reader without a file refuses and changes nothing; otherwise as load |
| Readers.Reader.Close | index.js:431-439 | the watcher is detached, the pending change dropped and the native reader closed |
| PathHandles.StepApart | index.js:153-199 | every step of handles, finalizers, swaps, loads and closes that moves no handle to a reader out of ids, and reopens only safely, keeps ids of different holders apart |
| PathHandles.RootedStep | index.js:153-199 | every prudent step keeps each unclosed handle's id resolving to its own path or to nothing |
| PathRuns.HandlesAnswerForThemselves | index.js:161-192 | in every prudent run an unclosed handle evaluates its own path on the current database or raises an error |
| PathRuns.OpenReaderAlwaysAnswers | index.js:161-192 | if no closed reader is reopened and ids do not run out, a handle on an open reader answers exactly as a fresh lookup of its path |
| PathAnswers.HandleReadsItsPath | index.js:153-192 | a handle from path(p) reads exactly p in the database opened or loaded last, over every run that reopens no closed reader and uses up no ids |
| PathAnswers.NoIdLeaks | index.js:171-198 | in every possible run each id a native reader stores is registered for one handle, unclosed or still to be finalized; with none left all tables are empty |
| PathAnswers.ClosedHandleNeverAnswers | index.js:179-182 | after its close a handle answers only that it is closed, in every continuation |
| PathRuns.ReleaseSparesOthers | index.js:171-177 | closing, finalizing or moving one handle never removes or changes another live handle's path |
| PathRuns.ReopenIsSafeIff | index.js:190-192 | in every reachable state with the reader closed, reopening is safe for all prudent continuations if and only if each unclosed handle on it has an id it issued |
| PathRuns.ExhaustedMoveIsSafeIff | index.js:183-192 | in every reachable state with the reader open and its ids used up, moving a handle there is safe for all prudent continuations if and only if the reader stores no other path under the handle's id |
| PathRuns.ReopenedReaderAliases | index.js:179-192 | swap, close, failed get, load and another compile make a handle evaluate the other path, for any paths and databases |
| PathRuns.ExhaustedIdsAlias | src/lib.rs:363-365 | a run that uses up the ids of a swapped-in reader makes a handle fail once and then evaluate another path, for any paths and databases |
| PathLookups.PathLookup.EnsureCompiled | index.js:179-188 | a handle follows a swapped reader: old id released, new id registered, or on failure the reader noted and the old id kept |
| PathLookups.PathLookup.CompileFor | index.js:190-198 | the reader is noted before compilation can fail, the id and registration only after |
| PathLookups.PathLookup.Get | index.js:161-164 | a handle answers through its own id, or after a move as a fresh lookup of its path |
| PathLookups.PathLookup.Close | index.js:171-177 | the id and registration are given back once, and a second close does nothing |
| PathLookups.PathFinalizer.Run | index.js:57-63 | the finalizer releases exactly the id registered for the collected handle |
| PathLookups.OpenPath | index.js:153-159 | a failed compilation creates no handle and no registration |
| Networks.NativeNetworkCursor.NextPage | src/networks.rs:106-126 | with or without the memo, a page is the first rows decoded without it, or the first error among them; an exhausted cursor closes |
| Networks.NativeNetworkCursor.LookupToJs | src/networks.rs:74-104 | a memoized record equals the decoded one, for whole records and fixed paths |
| Walks.NextTakesHead | index.js:221-237 | next() hands out the head of what remains, ends only when nothing remains, and throws only on an error within the page it reads |
| Walks.NextPageTakesPrefix | index.js:239-265 | nextPage(k) hands out exactly the first min(k, remaining) items or throws because of an error among them |
| Walks.CallsYieldPrefix | index.js:221-265 | any mix of calls and sizes yields an in-order prefix, each item once; without a throw the rest is exactly what remains |
| Walks.FinishedIsFinal | index.js:295-302 | after exhaustion, an error or close every call is empty |
| NetworkIterators.NetworkIterator.Next | index.js:221-237 | the buffered next() makes the change `Walks.Next` describes |
| NetworkIterators.NetworkIterator.NextPage | index.js:239-265 | the buffered nextPage() makes the change `Walks.NextPage` describes, for every page size, valid or not |
| NetworkIterators.NetworkIterator.Pages | index.js:267-280 | non-empty pages within the size, in order; all items when neither stopped nor failed; a fault only for an error in the page being read; closed afterwards in every case |
| Ipv4.ParseIpv4 | src/ip.rs:52-90 | the loop returns exactly the address the text denotes, and its 16-bit accumulator never overflows |
| Ipv4.AddressOfInvertsPrint | src/ip.rs:52-90 | parsing and printing undo each other on all texts and addresses, and the texts accepted are exactly IPv4address |
| Ipv4.TextGivesOctets | src/ip.rs:57-89 | four dec-octets between dots denote their decimal numbers, in the order of the text |
| Ipv4.DecOctetIffCanonical | src/ip.rs:69-82 | a digit run is a dec-octet if and only if it has one to three digits, no leading zero and fits a byte |
| Decoding.Decoder.Visit | src/decode.rs:241-275 | for every value and every hint the JavaScript value represents the record value: scalars themselves, elements in their places, exactly the keys with each one's last value |
| Decoding.MeaningRepresents | src/decode.rs:241-275 | the value built is one that represents the record value, said without building it |
| Decoding.RepresentsOne | src/decode.rs:241-275 | at most one JavaScript value represents a record value |
| Decoding.Decoder.VisitSeq | src/decode.rs:241-257 | whatever the size hint, the array has exactly the decoded elements in order and no holes |
| Decoding.Decoder.VisitMap | src/decode.rs:259-275 | the object has the decoded keys and values although names are read through pointers collected before nested decodes grew the cache |
| Decoding.Decoder.PropertyDescriptor | src/decode.rs:610-695 | a key with a NUL takes the string route and any other a C string; both denote the key |
| Decoding.Decoder.DefineProperties | src/decode.rs:697-712 | reading every name at the end gives the meaning of the map |
| Decoding.LastEntryWins | src/decode.rs:265-274 | among entries of one name the last one gives the value |
| Decoding.NamesAreTheKeys | src/decode.rs:265-274 | the object's names are exactly the decoded keys |
| Decoding.PropertyNameCache.Get | src/cache.rs:33-42 | one stable pointer per name, reading back as the name; none exactly for names with a NUL |
| Decoding.PropertyNameCache.Clear | src/cache.rs:44-46 | every pointer handed out before is dead |

## Left out

- The search tree, data-section decoding, resource limits and traversal of the `maxminddb` crate: foreign code, behind `Natives.Source`.
- N-API status failures (in cache operations, in `metadata()` and in `bindGet()`), handle scopes, raw casts and the thread-local decode guard.
- RefCell borrow errors: the only re-entry modelled is through array getters, which run before the borrow.
- Cache counters wrapping at 64 bits; counters are unbounded.
- Mutation of cached records by callers; cached values are taken as not mutated.
- Readers.Reader: native readers of the class are objects, those of `Reloads` are numbers; the two share the field functions, and the promise chain itself exists only in `Reloads`.
- ReloadFreshness.IdleReaderIsFresh: watcher-driven runs only, because the code does not promise that the newest file wins when a watched reload and `reloadAsync()` overlap.
- PathRuns.HandlesAnswerForThemselves: prudent runs only; the two witness runs show why, and ReopenIsSafeIff and ExhaustedMoveIsSafeIff give the exact conditions.
- PathLookups.PathLookup.Get: native readers of the class are objects, those of `PathHandles` are numbers; the two share the functions on handles, registrations and native readers. Lookups of many addresses through a handle repeat the same checks and are not modelled.
- Decoding.Decoder.VisitSeq: no 32-bit index error, since arrays and maps of the MaxMind DB format are far smaller.
- Decoding.Decoder.DefineProperties: property order and attributes are not modelled; an object is a map from names to values.
- Ipv4.ParseIpv4: the IPv6 parser and the copy of the text out of V8 are not part of this model.
- Parsing of CIDR text and of path elements: a rejected path is an input, and number conversion is read from one branch.
- `waitForFile` timing, file reading, memory mapping and the gzip check: the file is missing, opens or fails, by choice.
- Scalar visitors, `metadata_to_js`, option normalisation, error texts, TypeScript types, benchmarks and release scripts.
