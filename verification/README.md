# Verified models of the Pensieve catalog, job fabric and brain vault

This project models the stateful protocols of Pensieve and a few exact
transformations that sit beside them, and proves what they promise over every
input, every run and every interleaving.

**Catalog commits.** A table is a chain of snapshots with a current pointer;
each extent row is live, soft-deleted or gone. `Catalog` has the atomic
operations on the rows. `CommitProtocol` has the statements as clients really
issue them: read the parent, read its number, insert the child under the
unique `(table, sequence)` index, insert the extents one by one, soft-delete,
compare-and-set the table's pointer, destage, commit. Any number of clients run
direct commits, staged commits, schema changes, staging and two-step garbage
collection, interleaved at will. `CommitRuns` proves that what gets committed is
always a serial run of the atomic operations. From that, `CommitStaging` proves
for every run that a staged row is never lost and when it is added twice,
`CommitLedger` exactly-once commits and safe collection, `CommitConservation`
the row books of a table, `CommitDeletions` that a deletion time is the clock of
the commit that retired the extent. `CommitWitnesses` has runs, statement by statement, in
which the conditions these need are not met. `CatalogStore` has the same code as
an object.

**Job fabric.** `Fabric` has the lease queue's statements and its invariant,
`FabricRuns` whole runs with a clock and runner loops that may outlive their
leases, `FabricStore` the object. A job is fenced by worker id, and several
loops of one process share an id, so the fence holds exactly as long as no
worker claims a job that one of its own loops is still running; that condition
is part of the statements.

**Brain vault.** `Notes`, `NoteFormat` and `NoteRoundTrip` have the note format
and its round trip, `Redaction` what cutting private spans leaves, `VaultPaths`,
`VaultLinks`, `Vault` and `VaultFacts` the planner, `VaultContents` what the
planned files hold, `GitTree`, `Export`, `ExportFacts`, `ExportRuns` and
`ExportSettles` the full-state commit, `GitStream` the fast-import stream,
`Ingest` what becomes of a push, `PushLoop` export and push as one loop.

**Beside them.** `Pruning` (the SQLite form of extent pruning never loses a
row, and keeps nothing its statistics rule out), `PublishOrder` (closure, layering and an exact cycle report for the
publish script) and `MemoryIndex` (the managed region of `MEMORY.md`).

`Options`, `Sets`, `Sorting`, `Text` and `TextFacts` hold what the others share.

## Where the code and its documentation disagree

The model follows the code.

- The committer's comment (crates/pensieve-ingest-core/src/committer.rs:8-10)
  says that a racing committer finds the rows already destaged when it retries.
  The loop re-sends the manifests it listed before (same file, lines 69-82); what
  stops the second commit is the primary key on extents. So exactly-once needs
  those rows to be there still. `CommittedOnceIff` and `CommitIsFirstIff` say
  exactly when a row is committed once; `StaleListCommitsTwice` is a run in which
  an accepted row is committed twice.
- `commit_with_retry` (crates/pensieve-compaction/src/lib.rs:359-394) begins again
  after a conflict with its source list unchanged. If another compaction retired
  a source meanwhile, both rewrites are accepted and rows are duplicated: the run
  of `StaleRewriteDuplicatesRows`. `RewriteConservesIffSourcesLive` says exactly
  when a rewrite conserves rows.
- A claim of a pending job does not look at the attempt limit
  (crates/pensieve-catalog/src/fabric.rs:255-260), so a job enqueued with a limit
  below one is still run once: `AttemptsWithinLimit`.
- The fence around a job is per worker id, and loops of one process share an id
  (crates/pensieve-bin/src/main.rs:1605-1624): in the run of
  `SharedIdLetsStaleReportThrough` a report of the first attempt completes the
  second. `FenceHoldsIffNoReclaim` has the exact condition.
- The comment on `render` (crates/pensieve-ccmem/src/index.rs:102-103) says that
  rendering a parsed file is byte-identical to the input. `EmptyFilesChange` has
  two files that change; `ByteIdenticalIff` says for which files the comment is
  right, and `SettlesIff` for which a second pass changes nothing.
- The vault's note on collisions (crates/pensieve-brain/src/vault.rs:137-140)
  takes for granted that the suffix loop ends. It replaces every `.md` in the
  path, and on a taken path without one it never ends: `TwoKeepersGetStuck` has
  two memories that both keep the path `n`. `AssignEndsIff` and `PlanEndsIff` have
  the exact condition, and `MintedIsValid` says that only paths kept from a
  manifest can fail it.
- `is_note_path` (crates/pensieve-brain/src/ingest.rs:49-58) takes any path ending
  in `/index.md` for a generated page, so edits of a wiki page whose slug is
  `index` are not heard: `IndexPageIsUnheard` has the page, `MintedIsHeardIff` the
  exact condition.
- `strip_private_spans` (crates/pensieve-brain/src/notes.rs:47-64) is one pass. What
  stays on either side of a span can meet in a new opening marker, and then text
  between markers is left: `SplitMarkerSurvives`. `RedactedIsFreeIff` says exactly
  when no opening marker is left.

## Model

| member | source | states |
|---|---|---|
| `Catalog.ApplyKeepsWf` | crates/pensieve-catalog-sqlite/src/lib.rs:225-263 | Each of create, commit, alter, stage and purge, when accepted, keeps the row constraints: one snapshot per sequence number, each number its parent's plus one, the pointer on the highest, schemas nested along the chain |
| `Catalog.HistoryIsLinear` | crates/pensieve-catalog/src/lib.rs:942-1062 | After any serial log, walking parents from the current snapshot meets every snapshot of the table once, one per number down to 0, with no two children of one parent |
| `Catalog.SchemasNeverGoBack` | crates/pensieve-catalog/src/lib.rs:451-488 | The columns of an ancestor snapshot are a prefix of its descendant's, and those of the table's present columns, although a commit records the schema it captured when it began |
| `Catalog.NoAlterLost` | crates/pensieve-catalog/src/lib.rs:357-449 | The present columns are the created ones plus every accepted alter in order, all distinct by name |
| `CommitProtocol.PublishIsAtomic` | crates/pensieve-catalog/src/snapshot.rs:147-208 | What a transaction publishes after its separate statements is what the atomic commit does to the rows as they are at that moment |
| `CommitProtocol.TxnStaysOk` | crates/pensieve-catalog/src/snapshot.rs:99-121 | A transaction in flight keeps its invariant over any change other clients commit that does not move a row it has locked |
| `CommitProtocol.PublishKeeps` | crates/pensieve-catalog/src/snapshot.rs:203-212 | A commit keeps every client's invariant and applies an operation the committed rows accept |
| `CommitRuns.StepKeeps` | crates/pensieve-catalog/src/snapshot.rs:94-214 | Every statement of every client keeps the system invariant |
| `CommitRuns.StepRefines` | crates/pensieve-catalog/src/snapshot.rs:94-214 | A statement either leaves the committed rows alone or performs one accepted operation; a commit's parent is then current; conflicts and failures change nothing |
| `CommitRuns.EveryRunIsSerial` | crates/pensieve-catalog/src/lib.rs:942-1062 | In every interleaving the committed rows are those of running the published operations one at a time |
| `CommitRuns.NumberTakenIffStale` | crates/pensieve-catalog/src/snapshot.rs:113-121 | The unique index objects to a child exactly when the compare-and-set would |
| `CommitRuns.PointerOnlyAdvances` | crates/pensieve-catalog/src/snapshot.rs:190-203 | A step leaves a table's pointer or moves it to a snapshot numbered one higher, and never touches an existing snapshot |
| `CommitStaging.RowAccounting` | crates/pensieve-catalog-sqlite/src/lib.rs:247-263 | An extent has been added exactly once more than purged if its row is there, as often otherwise |
| `CommitStaging.AddedOnceIff` | crates/pensieve-catalog-sqlite/src/lib.rs:247-263 | On a serial log an extent is added at most once exactly when no commit adds it after a purge removed it |
| `CommitStaging.StepKept` | crates/pensieve-catalog/src/lib.rs:891-1062 | Every statement whatever keeps track of who may commit which id, and that a row is staged exactly until a commit adds it |
| `CommitStaging.DestagedIffCommitted` | crates/pensieve-catalog/src/lib.rs:942-1062 | Never lost: in every run whatever, an accepted row has left the staging table exactly when some commit added it |
| `CommitStaging.CommittedOnceIff` | crates/pensieve-ingest-core/src/committer.rs:69-82 | In every run whatever, a destaged row was added by exactly one commit if and only if none added it after a purge |
| `CommitStaging.CommitIsFirstIff` | crates/pensieve-ingest-core/src/committer.rs:69-82 | As it publishes, a commit is the first to add a row exactly when no purge has removed that row before |
| `CommitStaging.SchemaIsCaptured` | crates/pensieve-catalog/src/lib.rs:451-488 | Through all later statements a writer's transaction keeps the schema captured when it began; a committer's takes its parent's |
| `CommitLedger.StepSafe` | crates/pensieve-catalog/src/lib.rs:891-1062 | Every careful step keeps: each extent added at most once, held rows committed already still have their extent, doomed ones are soft-deleted or gone |
| `CommitLedger.StagedRowsCommitOnce` | crates/pensieve-catalog/src/lib.rs:891-1062 | When no row still held by a committer is hard-deleted, a staged row is in no commit and a destaged one in exactly one, however many committers race on the same list |
| `CommitLedger.PurgeHitsOnlyDeleted` | crates/pensieve-catalog/src/lib.rs:1064-1076 | Deleting by id a list taken earlier never removes a live extent |
| `CommitDeletions.DeletionTimeIs` | crates/pensieve-catalog/src/snapshot.rs:176-188 | On a serial log a row's deletion time is the clock of the commit that listed it while it was live, or added it; a row that none retired has no deletion time |
| `CommitDeletions.CollectDoomsRetired` | crates/pensieve-catalog/src/lib.rs:1064-1076 | In every run the collector lists exactly the extents retired by a commit whose clock is before its cutoff, so what was retired later keeps its grace |
| `CommitDeletions.DeletionTimesAreClocks` | crates/pensieve-catalog/src/snapshot.rs:176-188 | In every run each deletion time is one that a soft-delete statement of the run read from the clock |
| `CommitConservation.SamePointerSameLive` | crates/pensieve-catalog/src/snapshot.rs:175-203 | Between two points of a run, an unchanged current snapshot means an unchanged live set |
| `CommitConservation.LiveFollowsPointer` | crates/pensieve-catalog/src/snapshot.rs:175-203 | A step that leaves a table's pointer leaves the table's live rows, with their counts |
| `CommitConservation.TotalAfterCommit` | crates/pensieve-catalog/src/snapshot.rs:147-188 | A commit changes a table's row total by the rows added less those of the removed extents that were live |
| `CommitConservation.BooksBalance` | crates/pensieve-compaction/src/retention.rs:116-135 | Over all careful runs, with no assumption on rewrites: live rows, plus live rows retired by rewrites and by expiries, are the rows ingested plus those rewritten in |
| `CommitConservation.RowsAreConserved` | crates/pensieve-catalog/src/snapshot.rs:147-208 | Whatever ingests, staged commits, even rewrites, expiries, alters and collections interleave, the live total of a table is the rows ingested less those expired |
| `CommitConservation.RewriteConservesIffSourcesLive` | crates/pensieve-compaction/src/lib.rs:359-394 | A rewrite conserves the total exactly when every source that had rows is still live at its parent |
| `CommitWitnesses.StaleRewriteDuplicatesRows` | crates/pensieve-compaction/src/lib.rs:368-382 | A run of clients: two rewrites of one source, the second begun again after a conflict, both commit, and 10 ingested rows are 20 live ones |
| `CommitWitnesses.StaleListCommitsTwice` | crates/pensieve-ingest-core/src/committer.rs:69-82 | A run of clients: an accepted row listed by two committers, committed, expired and hard-deleted, is committed again |
| `CatalogStore.VerdictIsExact` | crates/pensieve-catalog/src/snapshot.rs:190-208 | In a well-formed catalog a commit conflicts exactly when its parent is not current, and succeeds exactly when it is and its extent ids are fresh |
| `CatalogStore.InsertExtents` | crates/pensieve-catalog/src/snapshot.rs:147-173 | The insert loop succeeds exactly when no id clashes with a row or another id, and then adds all rows |
| `CatalogStore.CatalogStore.CreateTable` | crates/pensieve-catalog/src/lib.rs:134-215 | Creates schema, bootstrap snapshot 0 and table row together |
| `CatalogStore.CatalogStore.BeginSnapshot` | crates/pensieve-catalog/src/lib.rs:451-488 | Captures parent and schema; an unknown table is an error |
| `CatalogStore.CatalogStore.CommitStagedGroup` | crates/pensieve-catalog/src/lib.rs:942-1062 | Publishes on whatever is current, inherits the parent's schema, adds each manifest live, leaves every other row as it was and destages exactly its group in the same transaction; errors change nothing |
| `CatalogStore.CatalogStore.StageExtent` | crates/pensieve-catalog/src/lib.rs:891-912 | Stages the row exactly when no staged row has its batch |
| `CatalogStore.CatalogStore.AddColumn` | crates/pensieve-catalog/src/lib.rs:357-449 | Appends one fresh nullable column under a new schema id, or changes nothing |
| `CatalogStore.SnapshotTxn.Commit` | crates/pensieve-catalog/src/snapshot.rs:75-215 | Succeeds exactly when the parent is current, its number free and the ids fresh; then live listed extents, and listed ones it adds, get the clock as deletion time, earlier deletion times and unlisted rows stay, and the child snapshot, the pointer and nothing else change; every error leaves the rows as they were |
| `Fabric.ClaimFindsOne` | crates/pensieve-catalog/src/fabric.rs:249-265 | A claim returns a row exactly when some unlocked row is eligible |
| `Fabric.PickedIsFirst` | crates/pensieve-catalog/src/fabric.rs:260-262 | The row a claim returns comes before every other eligible one: pinned first, then by priority, then by age |
| `Fabric.StepMoves` | crates/pensieve-catalog/src/fabric.rs:241-432 | No statement changes a job's tenant, spec or creation time, touches a finished job, or revives one |
| `Fabric.StepKeepsJobs` | crates/pensieve-catalog/src/fabric.rs:214-432 | Every statement keeps: leased iff in flight, pending means unowned with attempts left, a result only when done, and the idempotency indexes |
| `Fabric.BudgetShrinks` | crates/pensieve-catalog/src/fabric.rs:266-282 | Twice the attempts left plus one in flight falls on every claim, reclaim, requeue and end, and stays otherwise |
| `FabricRuns.AttemptsWithinLimit` | crates/pensieve-catalog/src/fabric.rs:249-282 | In every reachable state a job was claimed at most its limit of times, once if the limit is below one, and a pending job fewer times |
| `FabricRuns.LeasesAreSound` | crates/pensieve-catalog/src/fabric.rs:241-381 | In every reachable state the lease invariant holds, and a report takes effect only for the worker of the latest claim |
| `FabricRuns.FinishedJobsAreFrozen` | crates/pensieve-catalog/src/fabric.rs:314-367 | Nothing in any later run touches a finished job, so a result is written at most once |
| `FabricRuns.LeaseIsRespected` | crates/pensieve-catalog/src/fabric.rs:256-259 | As long as a lease runs and its holder reports nothing, nothing in any run changes the job: no claim, no sweep, no report of anyone else |
| `FabricRuns.JobRunsAreBounded` | crates/pensieve-catalog/src/fabric.rs:241-419 | From its enqueueing on, whatever its limit, a job makes at most twice `max(1, limit)` of claims, reclaims, requeues and ends |
| `FabricRuns.FenceHoldsIffNoReclaim` | crates/pensieve-bin/src/main.rs:1605-1624 | A step keeps old executions fenced off exactly when it is not a claim, by a worker, of a job one of its own loops still runs |
| `FabricRuns.StaleReportsBounce` | crates/pensieve-catalog/src/fabric.rs:296-381 | Without such claims a report of an older attempt changes nothing |
| `FabricRuns.SharedIdLetsStaleReportThrough` | crates/pensieve-bin/src/main.rs:1605-1624 | A run from the empty queue: two loops with one id, the first one's late report completes the second one's attempt |
| `FabricRuns.SweepClearsExpired` | crates/pensieve-catalog/src/fabric.rs:397-419 | Whatever runs between the sweep's two statements, a lease that had run out when it began is gone when it ends, unless it was extended meanwhile |
| `FabricStore.FabricStore.EnqueueJob` | crates/pensieve-catalog/src/fabric.rs:214-234 | Inserts a pending job unless a pending or in-flight one is for the same sync slot, worker and source, or tenant's dreaming |
| `FabricStore.FabricStore.ClaimJob` | crates/pensieve-catalog/src/fabric.rs:241-294 | Claims an unlocked row that fits the worker and is pending, or whose lease ran out with attempts left, the best such row; returns none only if there is none |
| `FabricStore.FabricStore.JobProgress` | crates/pensieve-catalog/src/fabric.rs:298-312 | Guarded update of the snapshot; claimed becomes running |
| `FabricStore.FabricStore.CompleteJob` | crates/pensieve-catalog/src/fabric.rs:314-326 | Guarded completion; there was no result before |
| `FabricStore.FabricStore.FailJob` | crates/pensieve-catalog/src/fabric.rs:330-346 | Guarded failure, terminal exactly when attempts are used up |
| `FabricStore.FabricStore.FailJobTerminal` | crates/pensieve-catalog/src/fabric.rs:350-367 | Guarded failure whatever attempts are left |
| `FabricStore.FabricStore.ExtendLease` | crates/pensieve-catalog/src/fabric.rs:369-381 | Guarded extension of the lease |
| `FabricStore.FabricStore.RequeueStale` | crates/pensieve-catalog/src/fabric.rs:398-407 | Requeues exactly the expired leases with attempts left and counts them |
| `FabricStore.FabricStore.FailExhausted` | crates/pensieve-catalog/src/fabric.rs:408-417 | Fails exactly the expired leases without attempts left and counts them |
| `FabricStore.FabricStore.SweepStale` | crates/pensieve-catalog/src/fabric.rs:397-417 | Undisturbed, the two statements leave no lease that had run out when the sweep began |
| `BrainTypes.ViewsAreInverse` | crates/pensieve-brain/src/types.rs:85-99 | On a manifest whose note entries share no id and no path, the two views undo each other |
| `BrainTypes.ViewsIgnoreOrder` | crates/pensieve-brain/src/types.rs:72-104 | The views depend on the set of entries, not on the order they are stored in |
| `Notes.CutSpans` | crates/pensieve-brain/src/notes.rs:49-64 | The span-cutting loop computes the recursive cut, unclosed spans to the end |
| `Notes.MakeSlug` | crates/pensieve-brain/src/notes.rs:68-82 | The slug loop computes the recursive slug; its flag is just "empty, or a dash last" |
| `Notes.SlugSpellsTitle` | crates/pensieve-brain/src/notes.rs:68-82 | A slug has no leading, trailing or doubled dash and spells the title's letters and digits in order |
| `NoteRoundTrip.WriteNote` | crates/pensieve-brain/src/notes.rs:161-212 | The pushes produce the rendered note |
| `NoteRoundTrip.NoteRoundTrips` | crates/pensieve-brain/src/notes.rs:161-283 | Parsing a rendered note gives the id, the title and the trimmed, redacted content, whatever its links |
| `NoteRoundTrip.BodyComesBackIff` | crates/pensieve-brain/src/notes.rs:251-266 | The body comes back exactly when there is a title or a content; otherwise it is the bare heading sign |
| `NoteRoundTrip.FenceFound` | crates/pensieve-brain/src/notes.rs:271-283 | The closing fence is found behind the frontmatter, never inside it |
| `NoteRoundTrip.BlockStripped` | crates/pensieve-brain/src/notes.rs:119-133 | Stripping removes exactly the related block that was rendered |
| `NoteRoundTrip.FieldsComeBack` | crates/pensieve-brain/src/notes.rs:180-249 | Type, realm, tags and importance come back too, and the hash read is that of the title and body read |
| `NoteFormat.ScalarReadsBack` | crates/pensieve-brain/src/notes.rs:135-148 | A scalar is itself or, quoted, reads back to itself |
| `NoteFormat.PlainMarkdownParses` | crates/pensieve-brain/src/notes.rs:222-268 | A file without frontmatter names no memory; its first heading is the title and the rest the body |
| `NoteFormat.FenceAtEnd` | crates/pensieve-brain/src/notes.rs:271-283 | A fence that closes at the end of the file is found, with an empty body |
| `NoteFormat.UnclosedCutsRest` | crates/pensieve-brain/src/notes.rs:47-64 | A span that is never closed takes the rest of the text with it |
| `Redaction.RedactedIsFreeIff` | crates/pensieve-brain/src/notes.rs:47-64 | The redacted text holds no opening marker exactly when no kept stretch ends in a beginning of the marker that the text kept behind it completes |
| `Redaction.RedactionSettlesIff` | crates/pensieve-brain/src/notes.rs:47-64 | Under the very same condition, and no other, redacting again changes nothing |
| `Redaction.SplitMarkerSurvives` | crates/pensieve-brain/src/notes.rs:49-64 | A text whose redaction still has a private span |
| `VaultPaths.Settle` | crates/pensieve-brain/src/vault.rs:146-150 | The suffix loop ends unless the path is taken and has no `.md`, and then on a free path |
| `VaultPaths.SecondIsNumbered` | crates/pensieve-brain/src/vault.rs:146-150 | The second note that wants `x.md` gets `x-2.md` |
| `VaultPaths.BumpGrows` | crates/pensieve-brain/src/vault.rs:149 | Each replacement strictly lengthens the path and leaves something to replace |
| `VaultPaths.BumpStaysValid` | crates/pensieve-brain/src/vault.rs:109-117 | A suffixed path is still valid segment by segment |
| `VaultPaths.PathsAreSound` | crates/pensieve-brain/src/vault.rs:141-153 | Assigned paths are valid and all different, and a note gets the path it wants exactly when no lower id took it |
| `VaultPaths.AssignEndsIff` | crates/pensieve-brain/src/vault.rs:143-153 | Assignment succeeds exactly when every wished-for path is valid and either has a `.md` or is wished for by no lower id |
| `VaultPaths.BareIffWished` | crates/pensieve-brain/src/vault.rs:143-153 | A path without a `.md` is assigned exactly when some note wished for it |
| `VaultPaths.MintedIsValid` | crates/pensieve-brain/src/vault.rs:79-107 | A newly minted path is valid and has a `.md`, for every title, realm and topic key |
| `VaultPaths.SanitizeIs` | crates/pensieve-brain/src/vault.rs:100-107 | A realm's folder is its cleaned name without the dots and dashes at either end, or `default` when nothing is left |
| `VaultPaths.WikiSlugOnly` | crates/pensieve-brain/src/vault.rs:65-74 | A memory is a wiki page only if its key is `wiki:`, this brain's name and a page |
| `VaultLinks.CollectLinks` | crates/pensieve-brain/src/vault.rs:155-178 | The edge loop gives each note its neighbours, each once, in edge order |
| `VaultLinks.LinksAreSymmetric` | crates/pensieve-brain/src/vault.rs:164-170 | Before the cap, links are symmetric |
| `VaultLinks.EdgeOrderIsIrrelevant` | crates/pensieve-brain/src/vault.rs:160-161 | Only the set of edges matters, not order nor repetition |
| `VaultLinks.FirstEight` | crates/pensieve-brain/src/vault.rs:184-189 | A rendered list is the first eight, in (edge type, target) order, of the links to all neighbours, one per type and target |
| `Vault.IndexRows` | crates/pensieve-brain/src/vault.rs:129-135 | Included rows by id, the first row of an id winning |
| `Vault.PlanPaths` | crates/pensieve-brain/src/vault.rs:141-153 | The path loop computes the assignment, or the path it fails on |
| `Vault.PlanVault` | crates/pensieve-brain/src/vault.rs:121-218 | The planner's loops compute the plan as a function of rows, prior paths and edges |
| `VaultFacts.OrderIsIrrelevant` | crates/pensieve-brain/src/vault.rs:1-7 | The plan, bytes included, depends only on the set of included rows and the set of edges |
| `VaultFacts.PlannedPaths` | crates/pensieve-brain/src/vault.rs:75-98 | Every included memory gets its own valid path; a prior path is kept exactly when no lower id took it |
| `VaultFacts.PlanEndsIff` | crates/pensieve-brain/src/vault.rs:121-153 | Planning succeeds exactly when the path of every included memory is valid and either has a `.md` or is wanted by no lower id |
| `VaultFacts.TwoKeepersGetStuck` | crates/pensieve-brain/src/vault.rs:79-153 | Two memories that keep the path `n`: the suffix loop never ends |
| `VaultFacts.PlanIsFixedPoint` | crates/pensieve-brain/src/vault.rs:79-153 | Planning again from the manifest just produced gives the same files and manifest |
| `VaultContents.FirstRowWins` | crates/pensieve-brain/src/vault.rs:129-135 | An id is planned for the first of its rows that passes the filters |
| `VaultContents.RenderedLinksAre` | crates/pensieve-brain/src/vault.rs:155-190 | A note's links are at most eight, by type and target, each from an edge to another included note; every such edge has one, or eight come before it |
| `VaultContents.PlannedNote` | crates/pensieve-brain/src/vault.rs:183-195 | The file at the path the manifest records for an included memory holds that memory's row, under the brain's redaction setting and with those links |
| `VaultContents.PagesAreUnheard` | crates/pensieve-brain/src/ingest.rs:49-58 | No page the planner generates is a note path |
| `GitTree.WrittenIs` | crates/pensieve-brain/src/gitbin.rs:344-351 | A sorted full-state import keeps the last bytes of each path, and exactly the paths nothing else is written inside of |
| `Export.CarryOver` | crates/pensieve-brain/src/export.rs:75-92 | Carries over, and counts, exactly HEAD's paths not owned, not planned and not ingested |
| `Export.GitRepo.FastImportCommit` | crates/pensieve-brain/src/gitbin.rs:323-370 | For any parent: succeeds exactly when the parent exists and contains the branch; then commits the imported tree, or puts the branch on the parent exactly when the tree is the parent's; an error leaves the branch |
| `Export.GitRepo.RunExport` | crates/pensieve-brain/src/export.rs:50-119 | One pass leaves HEAD at the next tree; no-op exactly when that is HEAD's own; a planning error leaves the branch |
| `ExportFacts.TreeIsExact` | crates/pensieve-brain/src/export.rs:75-109 | The new tree has exactly the written paths nothing is written inside of, with the planned bytes or HEAD's |
| `ExportFacts.UserFileStaysIff` | crates/pensieve-brain/src/export.rs:4-10 | A file not owned, planned nor ingested stays with its bytes exactly when nothing planned lies inside its path |
| `ExportFacts.PushedFileStaysIff` | crates/pensieve-brain/src/export.rs:65-92 | A file neither owned nor planned stays, as it was, exactly when no row has the key `brain:<name>:<path>` and nothing planned lies inside its path |
| `ExportRuns.SecondExport` | crates/pensieve-brain/src/export.rs:58-109 | A second export of unchanged memory gives the same tree exactly when no path the first carried over or seeded was ingested |
| `ExportRuns.LaterExportIsNoop` | crates/pensieve-brain/src/gitbin.rs:361-368 | After the first run, a pass over unchanged memory is a no-op |
| `ExportSettles.PlanStaysClear` | crates/pensieve-brain/src/vault.rs:79-153 | From a manifest with no note path inside the manifest's own path, every plan keeps that path clear and records such a manifest again: suffixes never lead inside |
| `ExportSettles.ExportsSettle` | crates/pensieve-brain/src/export.rs:50-119 | Over any run after a first export, with any memory exported and pushes that leave the manifest alone, exporting any memory twice makes the second pass a no-op |
| `ExportRuns.FirstExportIsStableIff` | crates/pensieve-brain/src/vault.rs:220-248 | The pass after a first run is a no-op exactly when no seed's path was ingested |
| `ExportRuns.FirstTreeHasSeeds` | crates/pensieve-brain/src/vault.rs:220-248 | The first tree has the four seeded files with their contents |
| `ExportRuns.UserFilesSurvive` | crates/pensieve-brain/src/export.rs:60-104 | Over any run of exports and of pushes that leave the manifest alone, a file never planned, covered nor ingested is there at the end as users last pushed it |
| `GitStream.WriteStream` | crates/pensieve-brain/src/gitbin.rs:332-351 | The buffer built by the loop is the stream |
| `GitStream.StreamReadsBack` | crates/pensieve-brain/src/gitbin.rs:332-351 | Reading the stream gives the same branch, message, parent and exactly the same files, for arbitrary bytes and plain paths |
| `Ingest.PlanPushIngest` | crates/pensieve-brain/src/ingest.rs:63-168 | The loop over changes computes the plan |
| `Ingest.OpsKeepIdentity` | crates/pensieve-brain/src/ingest.rs:108-163 | Every op on an exported path targets the memory exported there, whatever id the push claims; ops touch note paths the push changed, and archive only deletions |
| `Ingest.NewPathPlans` | crates/pensieve-brain/src/ingest.rs:129-152 | A readable note at a path nothing was exported to updates the memory whose id it claims; claiming none, it becomes a new memory keyed by brain and path, in its own realm if it names one |
| `Ingest.KnownPathPlans` | crates/pensieve-brain/src/ingest.rs:108-163 | A readable note at an exported path updates the memory exported there; the warning depends on whether it claims that id, another or none |
| `Ingest.PathGetsItsOps` | crates/pensieve-brain/src/ingest.rs:63-168 | Each path of a push gets exactly the ops its own change asks for, whatever else the push changes |
| `Ingest.MovedNoteKeepsMemory` | crates/pensieve-brain/src/ingest.rs:129-138 | When an exported file is moved, the deletion archives its memory and the file at the new path updates that very memory, whatever else is pushed |
| `Ingest.DeletionArchives` | crates/pensieve-brain/src/ingest.rs:79-94 | Removing an exported note archives its memory and nothing else |
| `Ingest.ExportedNoteComesHome` | crates/pensieve-brain/src/ingest.rs:95-116 | An exported file pushed back is one update of that memory with its own title and content and no warning |
| `PushLoop.ExportedNoteReads` | crates/pensieve-brain/src/export.rs:50-119 | Reading a memory's file in the tree after an export gives its id, its title and its content under the brain's redaction setting |
| `PushLoop.ExportedBodyIsRedacted` | crates/pensieve-brain/src/vault.rs:190 | With redaction on, the body read from the tree holds no opening marker, unless two kept stretches meet in one |
| `PushLoop.ExportedTreeComesHome` | crates/pensieve-brain/src/ingest.rs:95-116 | A note pushed back as it is in the exported tree is one update of its memory, by the manifest in that tree, and no warning |
| `PushLoop.PushedFileIsRefiled` | crates/pensieve-brain/src/export.rs:65-73 | A file for which a push planned a new memory is no longer carried over by an export whose rows include that memory |
| `Ingest.MintedIsHeardIff` | crates/pensieve-brain/src/ingest.rs:49-58 | Edits of a newly minted note are heard exactly when it is not the wiki page with slug `index` |
| `Ingest.IndexPageIsUnheard` | crates/pensieve-brain/src/ingest.rs:49-58 | The wiki page of a brain with topic `index` has that slug and is not heard |
| `MemoryIndex.IndexFile.Parse` | crates/pensieve-ccmem/src/index.rs:60-78 | The object's state after parsing |
| `MemoryIndex.IndexFile.Render` | crates/pensieve-ccmem/src/index.rs:104-130 | The pushes produce the rendered file |
| `MemoryIndexFacts.EntryReadsBack` | crates/pensieve-ccmem/src/index.rs:32-45 | A clean entry parses back from its own line |
| `MemoryIndexFacts.LooseEntryParses` | crates/pensieve-ccmem/src/index.rs:32-45 | An entry written without the dash keeps its title, file and hook |
| `MemoryIndexFacts.ParsedIsClean` | crates/pensieve-ccmem/src/index.rs:32-45 | Whatever line is parsed, the entry is clean and holds no marker the line did not |
| `MemoryIndexLaws.RegionIsSurgical` | crates/pensieve-ccmem/src/index.rs:3-8 | With markers in order, any entries set keep every byte outside the region and read back |
| `MemoryIndexLaws.UnmarkedGainsRegion` | crates/pensieve-ccmem/src/index.rs:107-128 | Without markers a region is appended behind the trimmed text and found there from then on |
| `MemoryIndexLaws.SettlesIff` | crates/pensieve-ccmem/src/index.rs:58-78 | A second parse-and-render changes nothing exactly when the markers are in order or absent |
| `MemoryIndexLaws.ByteIdenticalIff` | crates/pensieve-ccmem/src/index.rs:102-103 | Parse-and-render returns the same bytes exactly when the markers are in order and between them stand a line break and the lines of some clean entries, nothing else |
| `MemoryIndexLaws.EmptyFilesChange` | crates/pensieve-ccmem/src/index.rs:102-103 | Neither the empty file nor a bare pair of markers comes back as it was |
| `Pruning.ListExtents` | crates/pensieve-catalog-sqlite/src/lib.rs:1115-1169 | The filters in place and the sort compute the listing |
| `Pruning.BetweenSurvivesRounding` | crates/pensieve-catalog-sqlite/src/lib.rs:2844-2854 | The range test keeps every value truly in range, under any monotone rounding |
| `Pruning.KeepsIsSound` | crates/pensieve-catalog-sqlite/src/lib.rs:1115-1160 | An extent with a matching row its statistics describe is kept |
| `Pruning.PruningLosesNothing` | crates/pensieve-catalog-sqlite/src/lib.rs:1115-1169 | The query over the listing gives the very rows it gives over all live extents, with multiplicity |
| `Pruning.TimeIsTight` | crates/pensieve-catalog-sqlite/src/lib.rs:1115-1120 | The time test keeps an extent exactly when some row within its bounds could match |
| `Pruning.ValuesAreTight` | crates/pensieve-catalog-sqlite/src/lib.rs:1130-1149 | An equality, a set or, on exact numbers, a range keeps an extent exactly when some value its statistics allow satisfies it |
| `Pruning.TokensAreTight` | crates/pensieve-catalog-sqlite/src/lib.rs:1150-1155 | So does a token filter |
| `Pruning.PredicateOrderIsIrrelevant` | crates/pensieve-catalog-sqlite/src/lib.rs:1130-1160 | The listing does not depend on the order predicates come out of the map |
| `Pruning.ListingIsSorted` | crates/pensieve-catalog-sqlite/src/lib.rs:1162-1169 | Exactly the live kept extents, newest first, unknown bounds last |
| `Pruning.TiesKeepOrder` | crates/pensieve-catalog-sqlite/src/lib.rs:1162-1169 | Extents with one lower bound keep the order of the rows |
| `PublishOrder.Closure` | scripts/crates-publish-order.py:60-67 | The stack search finds exactly what the root reaches |
| `PublishOrder.Layering` | scripts/crates-publish-order.py:70-80 | The loop ends with a complete layering, or where something is left and nothing ready |
| `PublishOrder.PublishLayers` | scripts/crates-publish-order.py:44-80 | Missing root, scope and layering together |
| `PublishOrderFacts.LayersPartition` | scripts/crates-publish-order.py:70-80 | The layers partition the crates, every need strictly earlier |
| `PublishOrderFacts.LayerIsLongestChain` | scripts/crates-publish-order.py:70-80 | A crate's layer number is the length of its longest dependency chain |
| `PublishOrderFacts.PublishOrLocateCycle` | scripts/crates-publish-order.py:77-78 | The cycle error is raised exactly when the crates to publish have a cycle |
| `PublishOrderFacts.FlatIsOrdered` | scripts/crates-publish-order.py:90-93 | In the printed list every crate comes after all it needs |

## Left out

- StagedRowsCommitOnce: needs that no extent row is hard-deleted between a committer's list and its commit (`Careful`), and distinct manifest ids; `CommittedOnceIff` has the exact condition, and `DestagedIffCommitted` needs none.
- PurgeHitsOnlyDeleted: under the same assumption, and with fresh extent ids.
- BooksBalance: under the same assumption.
- RowsAreConserved: needs besides that a transaction that removes and adds begins on live extents and adds as many rows as they hold; the compaction worker does not always see to that, see above. `BooksBalance` does without.
- EveryRunIsSerial: a direct transaction removes only extents of its own table, as compaction, retention and the embedding backfill do; the `UPDATE extents` itself (crates/pensieve-catalog/src/snapshot.rs:180) has no table filter. Every theorem about runs of the catalog rests on this.
- SecondExport: asks that no planned note lies inside `.pensieve/manifest.json` taken as a folder, which only a forged manifest can bring about: `ExportsSettle` needs no such condition. Such a note displaces the manifest, and the next pass then plans from none.
- LaterExportIsNoop: the same condition, which `ExportsSettle` does without for runs that begin with a first export.
- FastImportCommit: a refused import may or may not leave its commit in the object store; only the branch is promised.
- UserFilesSurvive: a push is any tree that leaves the manifest as it was; a push that rewrites the manifest can give the exporter paths it never owned.
- NoteRoundTrips: the YAML reader is a parameter that returns the id, and the title or no title; unquoted scalars that YAML reads as other text are not covered. Titles are one trimmed line, content has no carriage return and no opening marker, link lines have no closing marker.
- StreamReadsBack: paths without a newline and not starting with a quote; git unquotes others.
- ExportedNoteComesHome: for content and titles the note format can carry, as above.
- ExportedNoteReads: likewise, and for memories whose path is a note path, since a generated page displaces a note that a manifest put at its path.
- MovedNoteKeepsMemory: on the diff's paths, each listed once; in which order the server applies an archive and an update of one memory is not part of this model.
- ValuesAreTight: ranges on numbers that floats hold exactly; a range between values that do not compare keeps everything.
- TokensAreTight: vector filters are tight only as far as the lower bound is.
- KeepsIsSound: `cosine_distance_lower_bound` is a parameter that never exceeds a described vector's distance; equality of JSON values is equality as stored, so 1 and 1.0 differ.
- LeasesAreSound: no transition leads to `canceled`, as no statement of the fabric sets it.
- StepKeeps: waiting on row locks is not modelled as blocking; the interleavings allowed are a superset. The lock a compare-and-set holds on its table row, and a soft-delete's on extent rows against purges, are kept.
- Row width: sequence numbers and attempt counts are unbounded integers.
- Tenants: one tenant; the `tenant_id` filters are implied. Ids are fresh values, the clock a parameter.
- `list_staged_extents` order and limit; `drop_table`; column type checks; the rows of `manifests` and the commit summary.
- `list_extents` on Postgres: its half-open time range is not the SQLite test.
- The `background_tasks` queue, the workers table (heartbeats, offline marking, which is the third statement of `sweep_stale`) and the dreaming linkage of a job.
- Artifact collection, which can undo a deletion.
- Map-of-content pages, blake3, the float format, JSON and UTF-8: parameters. That the JSON codec reads back what it prints is assumed where named.
- Wikilinks of a parsed note, `user_files`, chunking, the gardener, pkt-line framing and the git child processes.
- Concurrent exports: one pass at a time; pushes come between passes.
- Users, tokens, dashboards, quotas, the CLI, the HTTP layer and the web UI.
