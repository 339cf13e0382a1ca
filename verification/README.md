# ChiliDB in Dafny

A Dafny model of the four hardest parts of ChiliDB, with proofs about every run and every input.
`dafny verify dfyconfig.toml` checks the whole project.

**The loading protocol** (`Loading*.dfy`). The asynchronous buffer-loading protocol as a state
machine over any number of frames, pages and backends. One inductive invariant gives all nine
"always" properties in every reachable state. What a state says of frames and backends (dirty, I/O
submitted, the page wanted, reading or writing, retrying) is exactly what the actions of the run
say. Every request can be served, no state is stuck, no write is lost, and the five "sometimes"
properties hold under exactly the stated model sizes.

**The storage stack** (`Clock`, `BufferPool`, `ClockPool`, `HeapPage`, `PageOps`, `PageBytes`, `Heap`,
`HeapOpen`, `HeapScan`, `HeapRun`, `Codec`, `CatalogRecords`, `Catalog`). CLOCK replacement; a buffer pool
that refines a plain list of page contents under an arbitrary victim policy and failing I/O;
slotted pages over byte arrays; heap tables as chains of pages; scans interleaved with any script
of insertions, deletions and replacements; the catalog's record codec and the catalog itself, both
reopened from raw pages. Every operation says what its errors are due to: a device failure, page
IDs used up, a full pin counter, a policy that gave no usable frame, or pages that hold no heap.

**The PEG compiler** (`Utf8`, `PegGrammar`, `PegSemantics`, `PegTrace`, `PegMatcher`, `PegExact`).
Grammar validation, the meaning of grammars, and the generated matcher, proved against each other.
The meaning of a rule at a position also says which calls are made and which terminals miss, so the
result of a parse is determined in every case: its tree, its furthest expectations, or the limit
that ended it.

**Binding and planning** (`Sql`, `Bound`, `BoundMeaning`, `SyntaxMeaning`, `Binder*`, `GroupCheck`,
`Planner`, `Select`, `Plan*`). Parsed queries are bound, bound queries are lowered to plans of
filters, groups, windows, sorts and projections. Parsed queries (`SyntaxMeaning`), bound queries
(`BoundMeaning`) and plans (`PlanMeaning`) each have their own meaning over an execution engine. A
parsed expression's type, nullability and value are defined on the syntax alone. Binding preserves
all three and succeeds exactly on the expressions that are shallow enough, have aggregates and
windows where they may be, name visible columns and fit their types. Every query that binds has a
plan within the depth limit, and the plan returns exactly the rows of the query as planning reads
it: for every query without negative zero literals, the rows that were asked for. These theorems
assume nothing of the engine. The two theorems about NULL values assume
`BinderTheorem.EngineSound`: the engine returns NULL only for NULL operands, truth values for
comparisons and conversions to Boolean, and never NULL for counts and ranks.

Where the code fails a law it seems to promise: bound expressions are compared with `==`, and IEEE
equality takes `0.0` and `-0.0` for the same literal. A lookup among groups, aggregates and windows
may therefore find an expression that is equal but not identical.
- `PlanPreserves.PlanComputes` says for every bound query what its plan delivers: the rows of the
  query with each looked-up part replaced by the expression found (`ResolvedQuery`).
- `PlanPreserves.PlanPreservesMeaning`: when every lookup finds the very expression it looks for,
  these are the query's own rows. A query without negative zero literals is always such a query
  (`PlainIsResolved`); so is one with negative zeros that no lookup confuses.
- `PlanZero.ZeroLost`: a projected zero literal that is looked up as the other zero is never
  delivered. `PlanZero.ZerosDecide`: where only such literals are confused, the plan is right if
  and only if every lookup is exact. In general exact lookup is not necessary, because an operator
  such as IS NULL can hide the sign again.
- `SELECT -0.0 GROUP BY 0.0` binds to such a query (`BinderTheorem.ZeroBinds`), and its plan
  returns positive zero (`PlanZero.NegativeZeroLost`).

Modelling decisions.
- Mutable objects are classes (`BufferPool`, `PageStore`, `HeapTable`, `HeapScan`, `Matcher`,
  `ClockStrategy`, `Reader`, `HeapCatalog`); pages are byte arrays where the source edits bytes in
  place; a mutex-protected method is one atomic step.
- A page store may fail at any call, and a failed write may leave any bytes in that page. A ghost
  counter of the store grows with each failure, so that an error can be traced to one.
- A replacement policy may give any answer. The pool notes in ghost fields how often it was asked,
  whether its last answer was honest (`BufferPools.Honest`), and what it was told.
- The matcher's expectation messages are the constructors of `PegTrace.Expectation`.
- Page IDs and pin counts are 32-bit. Little-endian fields, magic numbers, header offsets and the
  8192-byte page are those of the source.
- Strings are sequences of characters; their bytes are UTF-8 as in section 3 of RFC 3629.
- The engine's arithmetic, comparisons, casts, aggregates other than COUNT, window functions, sort
  order and result types are parameters (`BoundMeaning.Engine`). NULL logic, COUNT, grouping and
  filtering are defined.

## Model

| member | source | states |
|---|---|---|
| `LoadingSafety.StepKeeps` | crates/storage/src/models/buffer_pool.rs:305-551 | every action of the protocol, taken where it is offered, keeps the inductive invariant |
| `LoadingSafety.SafetyOfEveryRun` | crates/storage/src/models/buffer_pool.rs:552-655 | in every reachable state of every model size all nine always-properties hold together: matching pins, unique publication, table/frame bijection, exact pin counts, ownership, writer exclusivity and the three failure postconditions |
| `LoadingHistory.FramesTell` | crates/storage/src/models/buffer_pool.rs:422-535 | in every state of every run a resident page is dirty exactly if it was opened for writing since its last successful load, only such pages are flushed, and a load counts as submitted exactly if it was |
| `LoadingHistory.BackendsTell` | crates/storage/src/models/buffer_pool.rs:305-551 | in every state of every run a backend works for the page of its last request, reads, writes or merely pins as its last action said, is idle exactly if it has nothing to do, and remembers exactly whether a load failed it since the request |
| `LoadingHistory.EventsTell` | crates/storage/src/models/buffer_pool.rs:435-519 | a retry is reported exactly when a load succeeds for a waiter that an earlier load of the same request had failed; load and flush failures are reported exactly when they happen, with their frame and page |
| `LoadingHistory.LookupFinds` | crates/storage/src/models/buffer_pool.rs:319-339 | a lookup misses exactly if no frame publishes the page; a ready frame is pinned, a loading one waited for |
| `LoadingHistory.PublishWinsExactly` | crates/storage/src/models/buffer_pool.rs:390-421 | a publication wins exactly if no frame publishes the page, and then that frame loads it; the loser frees its frame and reports it |
| `LoadingSafety.InitInv` | crates/storage/src/models/buffer_pool.rs:200-207 | the initial state satisfies the invariant |
| `LoadingSafety.JoinInv` | crates/storage/src/models/buffer_pool.rs:154-180 | joining a published page, ready or loading, keeps the invariant |
| `LoadingSafety.PublishInv` | crates/storage/src/models/buffer_pool.rs:390-421 | publishing keeps the invariant whether the backend wins or loses the race |
| `LoadingSafety.LoadDoneInv` | crates/storage/src/models/buffer_pool.rs:435-480 | completing a load, with success or failure, keeps the invariant; what the frame and its backends say afterwards is `LoadingHistory.FramesTell` and `LoadingHistory.BackendsTell` |
| `LoadingSafety.FlushDoneInv` | crates/storage/src/models/buffer_pool.rs:481-519 | completing a writeback keeps the invariant; a failed one keeps the dirty page published |
| `LoadingActions.Actions` | crates/storage/src/models/buffer_pool.rs:208-304 | the enumeration returns exactly the actions that are offered |
| `LoadingActions.CompleteLoad` | crates/storage/src/models/buffer_pool.rs:443-465 | the completion loop hands a finished load to all its waiters and to no one else, and counts each pin once |
| `LoadingProgress.EveryRequestCanBeServed` | crates/storage/src/models/buffer_pool.rs:208-304 | from every reachable state a backend with a request in flight has a run of at most 2 * backends + 11 offered actions that ends with it pinned on the page it asked for |
| `LoadingProgress.NeverStuck` | crates/storage/src/models/buffer_pool.rs:208-304 | in every reachable state some action is offered and every offered action yields a state |
| `LoadingVersions.LatestIsLastWritten` | crates/storage/src/models/buffer_pool.rs:527-535 | the version a run carries for a page is the one its history last wrote |
| `LoadingVersions.NoWriteIsLost` | crates/storage/src/models/buffer_pool.rs:435-519 | after every run, whatever failed, was cancelled or lost a race, the bytes last written to a page are in the store or in a dirty or flushing frame that publishes it |
| `LoadingVersions.AccessSeesLastWrite` | crates/storage/src/models/buffer_pool.rs:521-539 | a backend that pins a page always sees the bytes last written to it |
| `LoadingWitnesses.WitnessesExactly` | crates/storage/src/models/buffer_pool.rs:656-700 | each of the five sometimes-properties is reachable exactly for the model sizes for which the source lists it |
| `Clock.ClockStrategy.constructor` | crates/storage/src/replacement.rs:33-39 | a new clock has all bits clear and the hand at zero |
| `Clock.ClockStrategy.Access` | crates/storage/src/replacement.rs:43-45 | an access sets that frame's bit and no other |
| `Clock.ClockStrategy.Victim` | crates/storage/src/replacement.rs:47-64 | the call is at most two sweeps from the hand over the answers the eligibility callback gives at each query, and the hand stops just past the victim or returns to its start |
| `Clock.NoneMeansNoneEligible` | crates/storage/src/replacement.rs:47-64 | if eligibility may only grow during the call, None means that no frame was eligible at its start |
| `Clock.SecondChance` | crates/storage/src/replacement.rs:47-64 | with fixed eligibility the victim is the first eligible unreferenced frame in cyclic order, else the first eligible one with all eligible bits cleared, else nothing changes |
| `BufferPools.BufferPool.Victim` | crates/storage/src/buffer.rs:57-78 | whatever the policy answers, the victim is the next unused frame, without a question to the policy, or an assigned frame in range without pins; a refusal means that all frames are assigned and the policy named none or a wrong one |
| `BufferPools.BufferPool.FlushVictim` | crates/storage/src/buffer.rs:287-294 | flushing a victim, torn write or not, leaves the logical contents and every page outside the pool unchanged |
| `BufferPools.BufferPool.ResidentPin` | crates/storage/src/buffer.rs:206-231 | a resident page gets one more pin, a missing page none, only a full pin counter is an error, and a hit is reported to the policy exactly once |
| `BufferPools.BufferPool.PinPage` | crates/storage/src/buffer.rs:234-254 | pinning, with eviction, read before flush, and every failed I/O, leaves the logical contents unchanged; a failure leaves the whole frame state unchanged and has its cause; a resident page is never evicted or read; no page leaves while a frame is unused; nothing becomes dirty; nothing is written if the page cannot be read |
| `BufferPools.BufferPool.LoadPage` | crates/storage/src/buffer.rs:234-296 | a page that is not resident takes the victim frame and is reported to the policy as a load; every failure has its cause: the device, no such page, or no frame to be had |
| `BufferPools.BufferPool.OnlyTheDevice` | crates/storage/src/buffer.rs:57-78 | without live pins and with an honest policy every failure is a device failure |
| `ClockPool.AskClock` | crates/storage/src/replacement.rs:47-64 | CLOCK is honest: asked about the pins of a pool, it names a frame without pins exactly when there is one |
| `BufferPools.BufferPool.NewPage` | crates/storage/src/buffer.rs:298-313 | success appends one zero page and pins it; failure changes nothing and has its cause: the device, page IDs used up, or no frame to be had |
| `BufferPools.BufferPool.Read` | crates/storage/src/buffer.rs:393-406 | a live pin reads the logical contents of its page |
| `BufferPools.BufferPool.Write` | crates/storage/src/buffer.rs:410-424 | a write through a live pin changes exactly that page of the contents, and marks that page and no other dirty |
| `BufferPools.BufferPool.Unpin` | crates/storage/src/buffer.rs:427-436 | dropping a pin removes that handle only |
| `BufferPools.BufferPool.FlushPage` | crates/storage/src/buffer.rs:316-334 | a flush writes at most that page, keeps contents and pins, and on success the store has the page, which is then clean; a failure has its cause and cleans nothing |
| `BufferPools.BufferPool.FlushAll` | crates/storage/src/buffer.rs:337-345 | after success the store is the logical contents, synced, and nothing is dirty; a failure is a device failure or a full pin counter |
| `BufferPools.InstallOk` | crates/storage/src/buffer.rs:80-88 | installing a page in a replaceable frame keeps the bijection, the dense prefix of assigned frames, the pin counts and the contents |
| `BufferPools.PinnedOk` | crates/storage/src/buffer.rs:206-231 | one more pin keeps every count equal to its live handles |
| `BufferPools.DroppedOk` | crates/storage/src/buffer.rs:427-436 | one pin less keeps every count equal to its live handles |
| `BufferPools.OverwrittenOk` | crates/storage/src/buffer.rs:410-424 | overwriting a pinned frame changes the contents at its page only |
| `BufferPools.PageStore.AllocatePage` | crates/storage/src/store.rs:53-60 | allocation appends a zeroed page or changes nothing, and fails only on a device failure or when page IDs are used up |
| `BufferPools.PageStore.WritePage` | crates/storage/src/store.rs:70-76 | a write reaches only its own allocated page, and success stores the bytes |
| `HeapPage.BuildReadsBack` | crates/heapam/src/page.rs:118-141 | the compacted image of any header and records that fit is well formed and reads back as them |
| `HeapPage.RecordsFit` | crates/heapam/src/page.rs:52-93 | disjoint records never exceed the payload area, which is why deletion needs no space check |
| `PageOps.InitView` | crates/heapam/src/page.rs:43-50 | an initialized page is well formed, unlinked and empty |
| `PageOps.InsertView` | crates/heapam/src/page.rs:143-158 | an insertion adds one record under a new slot and keeps all others, or refuses |
| `PageOps.InsertIntoFresh` | crates/heapam/src/page.rs:143-158 | every tuple of legal size fits an empty page |
| `PageOps.TupleSizes` | crates/heapam/src/page.rs:106-114 | a tuple is refused for its size exactly if it is empty or no page could hold it |
| `PageOps.DeleteView` | crates/heapam/src/page.rs:188-196 | a deletion clears the named live slot and nothing else |
| `PageOps.ReplaceView` | crates/heapam/src/page.rs:198-214 | a replacement changes the named live slot and nothing else, or refuses |
| `PageOps.SetNextView` | crates/heapam/src/page.rs:99-104 | linking changes the link and nothing else |
| `PageOps.RunView` | crates/heapam/src/page.rs:99-214 | over any run every page is well formed, slots are never reused, and at most 2041 insertions succeed |
| `PageBytes.Validate` | crates/heapam/src/page.rs:52-93 | the linear occupied-byte check accepts exactly the pages with a good header, slots in bounds and pairwise disjoint extents, and returns their header and used bytes |
| `PageBytes.Initialize` | crates/heapam/src/page.rs:43-50 | the bytes written are the initial page |
| `PageBytes.Compact` | crates/heapam/src/page.rs:118-141 | the loop writes the canonical image of the records with at most one slot changed, never below the directory |
| `PageBytes.Insert` | crates/heapam/src/page.rs:143-158 | in-place insertion computes the page function; errors and refusals leave every byte |
| `PageBytes.Delete` | crates/heapam/src/page.rs:188-196 | in-place deletion computes the page function; errors and refusals leave every byte |
| `PageBytes.Replace` | crates/heapam/src/page.rs:198-214 | in-place replacement computes the page function; errors and refusals leave every byte |
| `PageBytes.SetNext` | crates/heapam/src/page.rs:99-104 | in-place linking computes the page function; errors leave every byte |
| `HeapTables.ChainUnique` | crates/heapam/src/heap.rs:52-73 | two chains from one head visit the same pages |
| `HeapTables.HeapsApart` | crates/heapam/src/heap.rs:83-94 | heaps with different heads share no page |
| `HeapTables.HeapTable.Get` | crates/heapam/src/heap.rs:155-165 | a sound heap returns the record at the address; InvalidCtid means exactly that the page is not of the heap; a sound heap is never corrupt; buffer errors have their cause |
| `HeapTables.HeapTable.Delete` | crates/heapam/src/heap.rs:167-177 | deletes exactly the addressed record, says whether there was one, and no page of another heap changes; buffer errors have their cause |
| `HeapTables.HeapTable.Replace` | crates/heapam/src/heap.rs:181-198 | replaces exactly the addressed record, and only if the page has room for it; NoSpace means that it has not; NoSpace and every error leave the table |
| `HeapTables.HeapTable.Insert` | crates/heapam/src/heap.rs:108-153 | success puts the record at an address that did not exist, not even as a tombstone, and keeps all others; it uses the tail page exactly if that has room, and otherwise one new page; any failure is invisible and has its cause, a wrong size exactly if the tuple has one; the cached chain stays the chain on the pages |
| `HeapTables.HeapTable.PutTail` | crates/heapam/src/heap.rs:108-125 | the record goes to the tail page exactly if it fits there, and else nothing changes |
| `HeapTables.HeapTable.LinkTail` | crates/heapam/src/heap.rs:137-148 | the new page joins the chain only once it is linked |
| `HeapOpen.CreateHeap` | crates/heapam/src/heap.rs:34-49 | a new heap is one empty page, and all old pages keep their bytes; failure has its cause and changes nothing |
| `HeapOpen.OpenHeap` | crates/heapam/src/heap.rs:52-73 | terminates on arbitrary pages; success is a sound handle on the chain, and an error that has no cause in the pool means that no chain starts there |
| `HeapOpen.WalkBroken` | crates/heapam/src/heap.rs:52-73 | a page met twice, missing, damaged or of another owner rules out every chain |
| `HeapOpen.CycleMeansNoChain` | crates/heapam/src/heap.rs:52-60 | a page met twice rules out every chain |
| `HeapOpen.CloseAndReopen` | crates/storage/src/buffer.rs:316-345 | after a quiesced flush a fresh pool of any size reopens the same chain and the same records, unless the device failed, a pin counter was full, or the policy was dishonest |
| `HeapScans.OutputExact` | crates/heapam/src/heap.rs:220-246 | a scan yields a row exactly when a visited page held it in a slot within the captured bounds |
| `HeapScans.OutputAscending` | crates/heapam/src/heap.rs:255-275 | rows come in strictly ascending chain position and slot |
| `HeapScans.OutputOnce` | crates/heapam/src/heap.rs:255-275 | no address is yielded twice |
| `HeapScans.OperationsGrow` | crates/heapam/src/heap.rs:203-218 | an insertion only adds an address that did not exist, and all old addresses stay |
| `HeapScans.BoundsSurvive` | crates/heapam/src/heap.rs:203-246 | the bounds captured by a scan stay within the heap under growth |
| `HeapScans.HeapScan.Next` | crates/heapam/src/heap.rs:255-275 | each page contributes the slots it has when it is read; None without failure means everything within the bounds was yielded; a sound heap fails only on a buffer error, which has its cause |
| `HeapScans.ScannedExisted` | crates/heapam/src/heap.rs:203-246 | every row handed out has an address that existed when the scan was created |
| `HeapScans.FinishedScanIsComplete` | crates/heapam/src/heap.rs:255-275 | a finished scan has visited every captured page in full and handed out every record it found there |
| `HeapRuns.RunScript` | crates/heapam/src/heap.rs:203-275 | a scan interleaved with any script of insertions, deletions and replacements: rows have addresses of its start, none twice; a record no deletion or replacement addresses is yielded only with its bytes, always yielded if the scan ends, and still in the table; without I/O errors the scan ends after one step more than it has rows; it fails only on buffer errors; no operation finds corruption; every error has its cause; inserted addresses are new and pairwise different |
| `HeapRuns.MovedSame` | crates/heapam/src/heap.rs:108-198 | each operation leaves every slot it does not address |
| `HeapRuns.ScanIsFair` | crates/heapam/src/heap.rs:220-275 | a scan that found every spared slot as it was at its start yields spared records only with their bytes, and all of them once it ends; no address is yielded twice or was created later |
| `HeapScans.StartScan` | crates/heapam/src/heap.rs:203-218 | captures every page of the chain with its slot count; errors have their cause |
| `HeapScans.CollectRows` | crates/heapam/src/page.rs:169-186 | collects exactly the live records of the first slots, in order |
| `Codec.Validate` | crates/catalog/src/codec.rs:15-57 | accepts exactly the metadata with distinct non-empty names, real types, in-range distinct constraint columns and at most one, non-null, primary key |
| `Codec.EncodeRecord` | crates/catalog/src/codec.rs:73-115 | succeeds exactly for valid metadata whose counts fit 32 bits and whose record fits a tuple, and returns the record |
| `Codec.Reader.Take` | crates/catalog/src/codec.rs:118-126 | splits off exactly the bytes asked for, or fails and consumes nothing |
| `Codec.DecodeRecord` | crates/catalog/src/codec.rs:146-206 | accepts exactly the encodings of valid metadata and returns what was encoded |
| `Codec.RecordRoundTrip` | crates/catalog/src/codec.rs:73-206 | reading a record and writing one are inverse in both directions |
| `Codec.RecordsPrefixFree` | crates/catalog/src/codec.rs:117-206 | no record is a proper prefix of another: truncation and trailing bytes are always detected |
| `CatalogRecords.LiveInserted` | crates/catalog/src/lib.rs:171-171 | a successful heap insertion adds its record at the end of the scan order |
| `CatalogRecords.CatalogUnique` | crates/catalog/src/lib.rs:101-137 | raw pages hold at most one catalog at a root |
| `CatalogRecords.BadRecord` | crates/catalog/src/lib.rs:112-123 | a duplicate manifest, name or root, an undecodable record or a broken heap rules out every catalog |
| `Catalogs.CreateCatalog` | crates/catalog/src/lib.rs:91-99 | a new catalog is valid and empty, and all old pages keep their bytes; failure has its cause |
| `Catalogs.OpenCatalog` | crates/catalog/src/lib.rs:101-137 | on arbitrary pages, unless the pool fails for a stated cause, it succeeds exactly when a catalog starts at the root, and then serves exactly its tables; corruption is reported only of a readable metadata heap |
| `Catalogs.HeapCatalog.CreateTable` | crates/catalog/src/lib.rs:143-179 | adds exactly the declared table with an empty heap, or fails for exactly the stated reasons and leaves tables and cache unchanged; a duplicate name and bad metadata leave every page; the second encoding cannot fail |
| `Catalogs.HeapCatalog.TableChanged` | crates/catalog/src/lib.rs:10-20 | whatever a table's heap does within itself keeps the catalog valid |
| `Catalogs.HeapCatalog.Table` | crates/catalog/src/lib.rs:181-188 | finds a table exactly when one has the name, with a sound heap |
| `Catalogs.CloseAndReopenCatalog` | crates/catalog/src/lib.rs:101-137 | after any run of table creations, failed ones included, and a quiesced flush, reopening gives the same tables, unless the device failed, a pin counter was full, or the policy was dishonest |
| `Utf8.DecodeEncode` | crates/catalog/src/codec.rs:140-143 | decoding the UTF-8 encoding of a string gives it back |
| `Utf8.EncodeDecode` | crates/catalog/src/codec.rs:140-143 | bytes that decode are the encoding of what they decode to |
| `Utf8.SamePrefix` | crates/peg/src/lib.rs:447-455 | comparing bytes, ASCII case ignored or not, is comparing characters |
| `PegGrammar.CollectNames` | crates/peg/src/lib.rs:376-381 | maps every rule name to its rule, or names the first rule whose name an earlier one has |
| `PegGrammar.MissingIsFirst` | crates/peg/src/lib.rs:338-350 | the walk stops at the first reference that names no rule |
| `PegGrammar.Nullability` | crates/peg/src/lib.rs:392-402 | the iteration stops at the least fixpoint of nullability |
| `PegGrammar.FindsItself` | crates/peg/src/lib.rs:415-429 | the worklist finds a rule exactly when it reaches itself through prefixes |
| `PegGrammar.Validate` | crates/peg/src/lib.rs:375-431 | accepts exactly the sound grammars, and reports the first check that fails and the first rule for which it does |
| `PegSemantics.EvalDeterministic` | crates/peg/src/lib.rs:439-507 | an expression has at most one outcome at a position |
| `PegSemantics.ValidGrammarTerminates` | crates/peg/src/lib.rs:375-431 | every rule of every accepted grammar has an outcome at every position of every input without any limit, and rules marked non-nullable consume |
| `PegExact.SequencePrefixes` | crates/peg/src/lib.rs:351-374 | a sequence may enter a rule first exactly if an element may, all elements before it being nullable |
| `PegExact.NullableIsEmpty` | crates/peg/src/lib.rs:327-337 | in an accepted grammar without predicates a rule is marked nullable exactly if it matches where the input ends |
| `PegExact.PredicatesCountAsNullable` | crates/peg/src/lib.rs:327-337 | with a predicate the mark does not mean a match: a rule that is marked and never matches there |
| `PegExact.TreeShown` | crates/peg/src/lib.rs:585-606 | a tree is named after its entry rule, silent or not, and no node below it is named after a silent rule |
| `PegMatcher.AcceptedIsClosed` | crates/peg/src/lib.rs:382-391 | an accepted grammar has every rule its matcher calls |
| `PegMatcher.NewNode` | crates/peg/src/lib.rs:643-667 | accepts exactly ordered, contained spans on character boundaries; otherwise blames the node span, or the first bad child and the first check it fails |
| `PegMatcher.EvalTrees` | crates/peg/src/lib.rs:643-667 | every tree the semantics builds passes those checks at every node |
| `PegMatcher.Matcher.Expect` | crates/peg/src/lib.rs:689-694 | the diagnostics take the new expectation in, unless inside a lookahead, and the trace of misses grows by it |
| `PegTrace.NotedFurthest` | crates/peg/src/lib.rs:689-694 | the diagnostics stay the furthest offset of all expectations noted and the distinct ones noted there, in order of their first note |
| `PegTrace.FurthestUnique` | crates/peg/src/lib.rs:689-694 | there is only one such error |
| `PegMatcher.Matcher.Exhausted` | crates/peg/src/lib.rs:508-520 | a limit ends the parse at the call it forbids, and replaces the diagnostics by that limit |
| `PegTrace.RecordLimit` | crates/peg/src/lib.rs:508-520 | the first call deeper than 511 levels or past 1000000 calls is reported at its own position |
| `PegMatcher.Matcher.Expression` | crates/peg/src/lib.rs:508-529 | without a limit it computes the semantics and makes exactly the calls and misses the semantics says; failure restores position and nodes; a limit is never swallowed |
| `PegMatcher.Matcher.Body` | crates/peg/src/lib.rs:442-507 | each expression form computes its semantics |
| `PegMatcher.Matcher.RepeatBody` | crates/peg/src/lib.rs:491-494 | the repetition loop computes greedy repetition |
| `PegMatcher.Matcher.PredicateBody` | crates/peg/src/lib.rs:495-506 | lookahead consumes nothing, builds nothing and does not hide a limit |
| `PegMatcher.Matcher.RuleCall` | crates/peg/src/lib.rs:585-606 | a rule call wraps its nodes, unless the rule is silent |
| `PegMatcher.ParseRule` | crates/peg/src/lib.rs:711-724 | returns exactly what the semantics says, for every grammar, rule and input: the tree of a match of the whole input, else the furthest expectations, with the end of input where a match stops short, and always the first limit hit; every tree passes `Node::new` |
| `PegMatcher.TracedParses` | crates/peg/src/lib.rs:711-724 | the diagnostics and outcome of a matcher that made the calls of the semantics are that result |
| `PegMatcher.ParsesOnce` | crates/peg/src/lib.rs:711-724 | the semantics leaves no choice of result |
| `Bound.PlainChildren` | crates/binder/src/ast.rs:142-175 | freedom from negative zero literals is inherited by every operand |
| `BoundMeaning.GroupsByKey` | crates/planner/src/planning.rs:395-436 | a group holds exactly the rows that share its key |
| `BoundMeaning.GroupsApart` | crates/planner/src/planning.rs:395-436 | no two groups share a key |
| `BoundMeaning.EveryRowGrouped` | crates/planner/src/planning.rs:395-436 | every row is in some group |
| `Planner.CheckDepth` | crates/planner/src/planning.rs:162-170 | the explicit stack accepts exactly the trees of at most 256 levels |
| `Planner.Collect` | crates/planner/src/planning.rs:305-328 | adds the outermost aggregates or windows, each once up to equality, and fails only on depth |
| `SelectPlan.Select` | crates/planner/src/planning.rs:360-550 | the phases produce the specified plan or the first error |
| `GroupCheck.CollectExact` | crates/planner/src/planning.rs:305-328 | collecting finds every outermost aggregate or window and nothing else |
| `GroupCheck.AggregateTestsAgree` | crates/binder/src/aggregate.rs:222-227 | the binder's aggregate test agrees with the planner's collection on every expression |
| `GroupCheck.FlagsAgree` | crates/binder/src/binding.rs:205-212 | the planner's grouped flag always equals the binder's |
| `PlanTotal.LowerExact` | crates/planner/src/planning.rs:201-267 | within the depth limit lowering fails exactly when a column, aggregate or window is unavailable |
| `PlanTotal.ValidatedIsAvailable` | crates/binder/src/aggregate.rs:229-243 | what `validate_grouped` accepts is available once groups, aggregates and windows are mapped |
| `PlanGrouping.PlannedIsGrouped` | crates/binder/src/aggregate.rs:229-243 | a grouped query that has a plan passes the binder's check of grouped columns |
| `PlanTypes.LoweredTyped` | crates/planner/src/planning.rs:171-267 | a lowered expression is well typed and has the type of the bound one |
| `PlanTypes.OutputsTyped` | crates/planner/src/planning.rs:360-550 | the outputs of a plan are well typed and have the types of the query's outputs |
| `PlanTypes.PlanComputesSomething` | crates/planner/src/planning.rs:391-436 | no aggregate node is empty, and the dummy count is added exactly if there is neither a group nor an aggregate |
| `PlanTotal.InsideWindow` | crates/planner/src/planning.rs:456-488 | a window's operands are validated too, and their aggregates are collected |
| `PlanExact.PlanExactly` | crates/planner/src/planning.rs:360-550 | for every query, bound or not, planning succeeds exactly if nothing is too deep, the flag says whether there are groups, filters are conditions, and each phase finds what it needs; the depth error is exact |
| `PlanTheorem.PlanSucceeds` | crates/planner/src/planning.rs:360-550 | planning a bound query fails on depth and on nothing else |
| `PlanResolve.LowerComputes` | crates/planner/src/planning.rs:201-267 | for every expression, lowering computes the meaning of the expression with looked-up parts replaced by their equals |
| `PlanResolve.ResolveSame` | crates/planner/src/planning.rs:203-205 | that replacement changes at most signs of zero |
| `PlanResolve.ResolvePlain` | crates/planner/src/planning.rs:203-205 | without negative zeros it changes nothing |
| `PlanResolve.DeepMeaning` | crates/planner/src/planning.rs:456-507 | reading each window through its lowered operands is reading the expression with the operands of its windows replaced |
| `PlanCorrect.CallMeaning` | crates/planner/src/planning.rs:339-349 | every lowered aggregate call computes its aggregate; COUNT(*) becomes COUNT of a constant |
| `PlanCorrect.AnyRowOfTheGroup` | crates/planner/src/planning.rs:391-446 | a grouped expression, lowered, gives on the group's output row what its resolved form means on any row of the group |
| `PlanWindows.WindowsRun` | crates/planner/src/planning.rs:456-507 | the stack of window nodes gives each row the value of each window, with resolved operands, over the rows before any window |
| `PlanPreserves.PlanComputes` | crates/planner/src/planning.rs:360-550 | for every engine, table and bound query the plan delivers exactly the rows of the resolved query |
| `PlanPreserves.PlanPreservesMeaning` | crates/planner/src/planning.rs:360-550 | where every lookup is exact the plan delivers exactly the query's rows |
| `PlanPreserves.PlainIsResolved` | crates/planner/src/planning.rs:203-205 | every lookup is exact in a query without negative zero literals |
| `PlanPreserves.PlainPlanPreservesMeaning` | crates/planner/src/planning.rs:360-550 | the plan of a bound query without negative zero literals delivers exactly the query's rows |
| `PlanZero.ZeroLost` | crates/planner/src/planning.rs:203-205 | a projected zero literal found as the zero of the other sign is never delivered, if there is any row |
| `PlanZero.ZerosDecide` | crates/planner/src/planning.rs:203-205 | where only projected zero literals may be confused, and there is a row, the plan delivers the query's rows if and only if every lookup is exact |
| `PlanZero.NegativeZeroLost` | crates/planner/src/planning.rs:203-205 | a bound and planned query whose plan returns the wrong sign of zero |
| `BinderTypes.AssignmentGood` | crates/binder/src/expression.rs:172-191 | an assigned value has exactly the target type and keeps its nullability |
| `BinderMeaning.AssignmentMeans` | crates/binder/src/expression.rs:172-191 | a value is assignable exactly if it could be compared with the target, NULL to anything but nothing else to NULL, and is the same value at the target type |
| `SyntaxMeaning.JoinedIsLeast` | crates/binder/src/expression.rs:235-255 | the common numeric type is the least to which both promote |
| `BinderMeaning.NumericCommonIs` | crates/binder/src/expression.rs:235-255 | the binder's common numeric type is that one |
| `BinderMeaning.ComparisonCommonIs` | crates/binder/src/expression.rs:257-275 | operands compare exactly if both are truth values, texts or numbers, or one is NULL, and do so at their least common type |
| `SyntaxMeaning.TitleNames` | crates/binder/src/aggregate.rs:18-28 | a function name means exactly the function that bears it |
| `BinderTypes.CallGood` | crates/binder/src/aggregate.rs:6-136 | a bound call is typed by its signature, with aggregates and windows only where allowed |
| `BinderTypes.BindGood` | crates/binder/src/expression.rs:13-155 | every bound expression is well typed with explicit casts, and has aggregates and windows only where the flags allow; what it means is `BinderMeaning.BindMeans` |
| `BinderMeaning.BindMeans` | crates/binder/src/expression.rs:13-155 | the bound expression has the type, the nullability and, for every engine and row, the value that the parsed one has |
| `BinderMeaning.AggregateMeans` | crates/binder/src/aggregate.rs:6-136 | the same of an aggregate call, with its argument coerced and its filter |
| `BinderMeaning.WindowMeans` | crates/binder/src/aggregate.rs:6-220 | the same of a window call, with partition, order, default null placement and default frame |
| `BinderSelect.BindAggregates` | crates/binder/src/aggregate.rs:222-227 | an aggregate is bound exactly where one was written, windows' operands included |
| `BinderSucceeds.FrameSucceeds` | crates/binder/src/aggregate.rs:152-220 | a frame is accepted exactly if it does not start after it ends, from its category alone, and counts rows only in ROWS mode |
| `BinderSucceeds.BindSucceeds` | crates/binder/src/expression.rs:13-155 | an expression binds exactly if it has at most 256 levels, aggregates and windows only where allowed and complete, known names, numbers of 64 bits, and operands of fitting types |
| `BinderErrors.BindErrorTells` | crates/binder/src/expression.rs:13-155 | the error of an expression names a fault that it or something inside it has |
| `BinderTheorem.SelectBound` | crates/binder/src/binding.rs:81-233 | a bound query satisfies everything the planner relies on; what it returns is `BinderSelect.BindSelectMeans` |
| `BinderSelect.BindSelectMeans` | crates/binder/src/binding.rs:81-233 | for every engine and table the bound query returns exactly the rows the parsed one asks for |
| `BinderSucceeds.SelectSucceeds` | crates/binder/src/binding.rs:81-233 | a query binds exactly if all its parts do and, where it returns groups, all it shows passes the grouping check |
| `BinderErrors.SelectErrorTells` | crates/binder/src/binding.rs:81-233 | the error of a query names a fault that one of its parts has |
| `BinderTheorem.BindThenPlan` | crates/binder/src/binding.rs:205-233 | a query that binds has a plan exactly within the depth limit; the plan delivers the rows of the resolved query, which is the query itself without negative zeros |
| `BinderAnswers.PlanAnswersQuery` | crates/planner/src/planning.rs:360-550 | the plan of a query that binds delivers exactly the rows that were asked for, for every engine and table, wherever lookups are exact |
| `BinderAnswers.BoundIffPlanned` | crates/binder/src/aggregate.rs:229-243 | among queries whose parts bind, within the depth limit, the binder accepts exactly those that have a plan |
| `BinderTheorem.ZeroBinds` | crates/binder/src/binding.rs:81-233 | SELECT -0.0 GROUP BY 0.0 binds to the query whose sign is lost |
| `BinderTheorem.NeverNull` | crates/binder/src/expression.rs:54-155 | over a sound engine (`EngineSound`) an expression marked non-nullable never evaluates to NULL on rows that respect the schema |
| `BinderTheorem.OutputNeverNull` | crates/binder/src/aggregate.rs:74-99 | over a sound engine (`EngineSound`) no output column marked non-nullable is NULL in any row of the query, groups of no rows included |

## Left out

- DataFusion and Arrow internals, the executor and the optimizer: calls into libraries that are not part of this model; a plan node's own constructor checks are taken to pass.
- `FilePageStore`: only the page store contract is modelled.
- Lock poisoning, panics, atomics, memory ordering, unsafe aliasing and layout: a locked method is one step.
- Interleaving inside one buffer pool call: the asynchronous protocol model covers concurrent loading.
- Capacity checks of the pool constructor, and the global and local pools, which are unimplemented in the source.
- The PEG grammar-text reader and the generated token streams: the model starts from parsed rules.
- SQL grammar text, tree-to-AST conversion and number tokenization: the binder starts from parsed expressions and number values.
- Name resolution across scopes: the binder model is given the visible columns; ambiguity and absence are missing names.
- CTID byte encoding, DDL and DML name checks: settled by reading one branch.
- The tokens of window frame offsets: the binder starts from their values.
- INSERT, UPDATE and DELETE planning: they lower each value with the same function over raw columns.
- Output schema names and origins of a planned query: they copy fields.
- Error message text outside the PEG matcher; errors are told apart by kind only.
- The order in which several faults of one expression are reported: a binding error is proved to name a fault that is there, not the first.
- The order in which `flush_all` visits pages: the source sorts them, the model takes any order.
- PlanPreserves.PlanPreservesMeaning: assumes that every lookup is exact, because the law fails otherwise; `PlanPreserves.PlanComputes` gives the rows without the assumption. That the assumption is necessary is proved for projected zero literals only (`PlanZero.ZerosDecide`), since other operators can hide a sign.
- BinderTheorem.NeverNull: assumes `EngineSound`, because the engine's own functions decide when they return NULL.
- BinderTheorem.OutputNeverNull: assumes `EngineSound` for the same reason.
- BufferPools.BufferPool.PinPage: does not promise success, because a page store may fail at every call and a policy may withhold frames; `BufferPools.BufferPool.OnlyTheDevice` says when only the former remains.
- BinderAnswers.PlanAnswersQuery: assumes exact lookups for the same reason as `PlanPreserves.PlanPreservesMeaning`.
- PegExact.NullableIsEmpty: assumes a grammar without predicates, because validation takes every predicate to hold (`PegExact.PredicatesCountAsNullable`).
- Catalogs.HeapCatalog.CreateTable: does not bound orphaned pages; the source allows a failed publication to leak one.
- HeapOpen.CloseAndReopen: says nothing about the old handle afterwards, because the source requires it to be dropped.
