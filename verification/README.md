# Ferrum Atlas: verified model

Ferrum Atlas captures Rust source, stores what it finds as immutable fact snapshots, and answers
queries about them. This project models the parts of it that decide something hard, and proves what
they promise. Every file is a Dafny 4.11 module; `dafny verify dfyconfig.toml` checks all of them.

| files | part of the system |
|---|---|
| `Mir`, `Traces`, `Dataflow`, `ReachingDefinitions`, `ReportContents` | whole-local reaching definitions over compiler bodies |
| `CompilerImport`, `Complexity`, `ImportedBodies` | import validation of those bodies, cyclomatic measure, and how the three fit together |
| `Catalog`, `Retention`, `SnapshotStore`, `StoreRuns`, `StoreProgress` | catalog and object files, garbage-collection plans, the store object, interleaved runs with crashes, and undisturbed ones |
| `Jobs`, `Scheduler`, `SchedulerRuns`, `SchedulerProgress` | job records, the scheduler object, runs with a worker, publishing children, failing writes and restarts, and an undisturbed one |
| `Neighborhood`, `CallGraph`, `CallMetrics` | the bounded call-graph walk, shortest paths in a selection, fan-in and fan-out counts |
| `Utf8`, `SourceReader`, `SourceDigest` | chunked reading of stored sources and their digest |
| `Facts`, `BatchValidation`, `BatchExport`, `Diff` | the fact batch, its validation, canonical form and round trip, and the diff of two snapshots |
| `Configuration`, `Features`, `FileConfigurations` | three-valued cfg evaluation, feature closure, and inherited attributes |
| `Watch` | the warm-worker protocol |
| `Cancellation` | the cancellation and deadline poll |
| `Wrappers`, `Sums`, `Ordering`, `Sorting` | shared result types, sums, ascending enumeration, stable sorting |

How the model reads the code:

- A cancellation or deadline poll is a method of a `Control` object. Its answer is arbitrary, so every
  result holds for every schedule of stops, and the object remembers whether a poll asked to stop. An
  operation that gives up promises that its `Control` fired; everything it owes when nothing fired is
  stated under that condition. An operation that claims a whole answer promises that no poll of its
  own asked to stop. Failing connections, files and workers are polled the same way, and an
  input remembers whether a read failed.
- Byte budgets compare a size that is a parameter, because the encoders are not modelled. A refusal
  names the report that was too large.
- Loops that change variables are methods with loops and invariants; objects that the code mutates
  (store, scheduler, input, worker, session, supervisor) are classes. Each such method is tied to a
  function of its inputs or old state, and the properties are proved about that function.
- Concurrency is a step system. `StoreRuns` interleaves publishers, pinners, readers, planners and
  collectors under shared and exclusive leases, with a crash possible before every step.
  `SchedulerRuns` interleaves submitters, cancellers, the worker thread, children, failing durable
  writes and restarts; a write can also fail after it has replaced the file.
- Digests are injective, so a snapshot is identified by its facts, an object by its content and a
  plan by itself. Encoders and decoders are inverse. Clocks, random identities, inode identities and
  encoded sizes are parameters.
- Where the code visits a sorted collection and the order does not matter to the result, the model
  visits it in any order. For reaching definitions and the feature closure this is how independence
  from the order is proved.
- Identities and names that are only compared are numbers; 0 is the empty string.

Four places where the documentation and the behaviour need care: a publication that reports a failure
after its commit point has published (`SnapshotStore.Store.Publish` states both outcomes), a job shown
as Cancelled after a shutdown may have committed earlier (`SchedulerRuns` proves that nothing is
committed afterwards, which is what the fence promises), redoing an interrupted collection is
a replay without effect when the fresh plan happens to be one that was completed before
(`Retention.RedoneExecutionAgrees` gives the exact condition, `Retention.LostHistory` a history that leads there), and an
attribute under an undecided condition makes its item Unknown even if it could never drop it
(`Configuration.OpenConditionIsCautious`).

## Model

| member | source | states |
|---|---|---|
| Traces.AfterEventsExact | crates/analysis/src/dataflow.rs:161-208 | a fact holds after some events of a block iff a generating event was not undone later, or the fact reached the block over some path and was not undone |
| Traces.CrossEdge | crates/analysis/src/dataflow.rs:406-466 | extending a path by a non-Imaginary edge carries exactly the facts that survive the block and the edge's own definitions |
| Dataflow.SameFactsSameState | crates/analysis/src/dataflow.rs:134-160 | the canonical sparse map is determined by the facts it holds, with a missing entry for "no definition, possibly uninitialised" |
| Dataflow.ApplyFacts | crates/analysis/src/dataflow.rs:161-188 | a transferred state holds a fact iff the last event that touches it generates it, or none touches it and it held before |
| Dataflow.ApplyCanonical | crates/analysis/src/dataflow.rs:161-188 | transfer keeps the sparse map canonical |
| Dataflow.Transfer | crates/analysis/src/dataflow.rs:174-187 | the in-place transfer computes the state after the moves, storage events, definitions and unknown effects of one point |
| Dataflow.Join | crates/analysis/src/dataflow.rs:189-208 | the in-place join holds exactly the facts of either side and stays canonical |
| Dataflow.Facts | crates/analysis/src/dataflow.rs:151-159 | the charged size of a state is the number of tracked locals, reaching definitions and unknown effects it holds |
| Dataflow.FactSpaceSize | crates/analysis/src/dataflow.rs:375-466 | at most definition sites + locals + the unknown effects + one facts exist per block, which bounds the pops |
| Dataflow.ClosedIsExact | crates/analysis/src/dataflow.rs:375-466 | a sound table closed under every block equals the meet over all paths: a fact is stored iff some path of non-Imaginary edges from block 0 brings it |
| Dataflow.ExactIsUnique | crates/analysis/src/dataflow.rs:379-466 | two converged canonical tables are equal, so worklist and successor order cannot matter |
| Dataflow.RetainedUpdate | crates/analysis/src/dataflow.rs:425-466 | replacing one entry changes the sum of charged facts by exactly the difference, and the subtracted part never exceeds the sum |
| Dataflow.PushState | crates/analysis/src/dataflow.rs:425-466 | joining a state into a block keeps retained facts equal to the sum over entries, keeps every entry sound, and queues the block iff its entry grew |
| Dataflow.Visit | crates/analysis/src/dataflow.rs:385-466 | one pop leaves every settled block closed and never spends more work than the facts it adds |
| Dataflow.FixedPoint | crates/analysis/src/dataflow.rs:375-466 | the search converges to the exact table within blocks × (1 + sites + locals + 10) pops; it stops only if a poll asked, and must converge when the exact facts fit the fact budget and the cap is at least that bound |
| Dataflow.LimitRulesOutFit | crates/analysis/src/dataflow.rs:375-466 | a fact budget that ends the search is exceeded by the facts that paths establish, so a body whose exact facts fit is never cut |
| ReachingDefinitions.LocalSetSize | crates/analysis/src/dataflow.rs:275-297 | the local index set is as large as the list iff the indices are distinct |
| ReachingDefinitions.CountStatements | crates/analysis/src/dataflow.rs:298-340 | counts the input facts of the statements exactly, refuses bad indices or references, and reports over budget only when they are |
| ReachingDefinitions.InputGuard | crates/analysis/src/dataflow.rs:250-373 | proceeds only on an acceptable body within all budgets, calls a body invalid only if it is, names only a budget that is exceeded, and stops only if a poll asked |
| ReachingDefinitions.AllUsesAreExact | crates/analysis/src/dataflow.rs:478-544 | every emitted use is exact at its point: reaching definitions, possible uninitialised use and the memory taint each hold iff some path establishes them |
| ReachingDefinitions.NoUseIsMissing | crates/analysis/src/dataflow.rs:478-544 | every local that an item of a listed block uses or moves has its record at that point |
| ReachingDefinitions.Emit | crates/analysis/src/dataflow.rs:468-560 | emission is a prefix of the full listing, all of it unless cut; the facts charged are exact, the budget is reported only when the whole listing exceeds it, and any other cut is a stop |
| ReachingDefinitions.FittedIsHonest | crates/analysis/src/dataflow.rs:560-574 | an oversized report is never shown in part: what is delivered is the report of the analysis, or claims nothing, says so, and the report was too large; either way it is honest, and complete unless marked truncated |
| ReachingDefinitions.CutIffExceeds | crates/analysis/src/dataflow.rs:478-560 | unless a poll fired, the listing of a converged body is cut exactly when its exact cost exceeds the output budget |
| ReportContents.CompleteReport | crates/analysis/src/dataflow.rs:225-247 | an untruncated report records every local that a statement or terminator of a reachable block uses or moves, and lists exactly the definitions and unknown effects of arguments, statements, terminators and normal edges; a suspension point counts as an external effect |
| ReportContents.HonestReport | crates/analysis/src/dataflow.rs:478-544 | every record, definition and effect of any report belongs to a statement, terminator or normal edge of a reported block |
| ReachingDefinitions.Analyze | crates/analysis/src/dataflow.rs:250-574 | whatever cuts it short, each claim is exact over paths and at a reported block. The report before its size is known is the listing of the one solution, or a prefix, or no claim; every budget it names is really exceeded, naming none means a stop, and it is withheld only if it is itself too large. Unless a poll fired, an input within the input budgets is refused iff it is malformed, and a body whose facts and output fit gets its complete report whenever that fits |
| CompilerImport.SwitchValues | crates/evidence/src/compiler.rs:398-440 | switch values are accepted iff present on value edges only, canonical 128-bit decimals and distinct |
| CompilerImport.CanonicalIsNumeral | crates/evidence/src/compiler.rs:410-424 | printing back what was parsed accepts exactly the decimal numerals below 2^128 without leading zeros, and reads their value |
| CompilerImport.AcceptedEdge | crates/evidence/src/compiler.rs:398-514 | every edge of an accepted terminator is of a kind its kind allows, an unwind edge leads to the cleanup target, and a switch has its one fallback last |
| CompilerImport.ValidateEffects | crates/evidence/src/compiler.rs:259-273 | local effects are accepted iff every reference is inside the body and no list is malformed |
| CompilerImport.ValidateBody | crates/evidence/src/compiler.rs:275-397 | a body is accepted iff all its parts are valid and the running statement count stays within 200000; the count returned is exact |
| Complexity.GuardedExclusions | crates/analysis/src/compiler_complexity.rs:94-179 | behind the graph guard the measure leaves out exactly the imaginary edge of a false_edge and the cleanup edge of a false_unwind |
| Complexity.GuardedExits | crates/analysis/src/compiler_complexity.rs:318-340 | behind the graph guard a block is an exit iff its kind never continues, its unwinding leaves the function, or it is a call or inline assembly without successors |
| Complexity.Reach | crates/analysis/src/compiler_complexity.rs:293-306 | unless a poll stops it, the walk reaches exactly the blocks on some path of counted edges from block 0 |
| Complexity.SurplusSum | crates/analysis/src/compiler_complexity.rs:307-362 | edges plus exits equals blocks plus the sum of per-block surpluses, over any set of blocks |
| Complexity.CountReached | crates/analysis/src/compiler_complexity.rs:307-345 | the counting loop computes the exact edge, exclusion and exit totals of the blocks counted, which are all the reached ones unless a poll stops it |
| Complexity.Measure | crates/analysis/src/compiler_complexity.rs:279-372 | with an exit the cyclomatic value is 1 plus the sum over reachable blocks of (runtime out-edges + exit edge − 1); a report without a value is marked truncated or no exit is reachable, and the edge budget cuts it exactly when exceeded |
| Complexity.Analyze | crates/analysis/src/compiler_complexity.rs:184-360 | a published value and its block lists are exact for the reachable blocks, and the checked subtraction never fails; an oversized page is always refused; unless a poll fired the report is cut exactly when a block or edge budget is exceeded, and an oversized answer withholds only the locations of that very report |
| ImportedBodies.ImportedBodyIsAnalyzable | crates/evidence/src/compiler.rs:275-514 | a body accepted by import validation passes the reaching-definitions guard |
| ImportedBodies.ImportedBodyIsMeasurable | crates/evidence/src/compiler.rs:275-514 | a body accepted by import validation passes the complexity guard |
| ImportedBodies.CountedPathIsPath | crates/analysis/src/compiler_complexity.rs:94-98 | every path of counted edges is a path of dataflow edges |
| ImportedBodies.MeasuredBlocksAreAnalyzed | crates/analysis/src/compiler_complexity.rs:293-306 | a block reachable for the measure is reachable for the dataflow |
| ImportedBodies.MeasuredSubset | crates/analysis/src/compiler_complexity.rs:293-306 | an untruncated dataflow report lists every block the measure reaches |
| Catalog.PutFileIsValid | crates/store/src/lib.rs:433-468 | writing an immutable object keeps catalog integrity |
| Catalog.RegisterIsValid | crates/store/src/retention.rs:156-200 | recording ownership of a present object keeps integrity |
| Catalog.CommitPublishes | crates/store/src/lib.rs:380-431 | the catalog transaction succeeds iff the head is the expected one (or already this snapshot), and then moves the head and gives new facts their shard, the next sequence number and the present time; every other row keeps its own |
| Catalog.CommitIsValid | crates/store/src/lib.rs:380-431 | publishing keeps integrity once every object of the snapshot is written |
| Retention.CollectNames | crates/store/src/retention.rs:307-318 | heads and pins become roots with their reasons, and nothing else does |
| Retention.CollectRecent | crates/store/src/retention.rs:325-374 | the newest-first scan roots exactly the newest kept generations of each repository and context, those within the grace period, and those with observations |
| Retention.CollectLive | crates/store/src/retention.rs:375-400 | live objects are exactly those used by kept snapshots, and the rest of the rows are removed |
| Retention.CollectGarbage | crates/store/src/retention.rs:401-441 | garbage is exactly the expired owned objects outside the live ones; a changed file aborts the plan |
| Retention.MakePlan | crates/store/src/retention.rs:295-450 | a plan is made iff the row, metadata and object budgets, the additional roots and the garbage files allow it, and then it is the plan of the present catalog and respects the grace period |
| Retention.PlanRespectsGrace | crates/store/src/retention.rs:323-441 | what is younger than the grace period is never removed or collected, and is retained for that reason; an older snapshot is removed iff no head, pin, additional root, observation or recent generation keeps it; an older object is collected unless it is live, and is described as it is owned |
| Retention.PlanSparesRetained | crates/store/src/retention.rs:375-441 | a plan lists no object that a retained snapshot uses |
| Retention.PlanRemovesUnrooted | crates/store/src/retention.rs:307-400 | a plan removes exactly the snapshots without a root reason, never a head or a pin |
| Retention.ProgressIsValid | crates/store/src/retention.rs:469-514 | any partial execution of a plan keeps integrity |
| Retention.InterruptionIsRecorded | crates/store/src/retention.rs:475-514 | an interrupted run has removed exactly the planned rows, is on record as incomplete, and affects no object outside the plan and no name |
| Retention.FreshPlanIsPossible | crates/store/src/retention.rs:469-514 | after an interruption the catalog is intact and a fresh plan can be made |
| Retention.RedoneRunAgrees | crates/store/src/retention.rs:469-514 | carrying out a fresh plan after an interruption ends with the rows, owned objects and files of the uninterrupted run |
| Retention.RedoneExecutionAgrees | crates/store/src/retention.rs:456-514 | over executions at one clock: crash, fresh plan, execute ends like the uninterrupted run iff the fresh plan was not completed before or lists no object |
| Retention.LostHistory | crates/store/src/lib.rs:380-431 | a run of publications and one collection from an empty store, step by step, after which a collection that is interrupted cannot be redone |
| Retention.RedoneExecutionCanDiffer | crates/store/src/retention.rs:459-468 | after that history the fresh plan is the one completed long ago: its execution is replayed and leaves the object behind |
| Retention.PlanIsUnique | crates/store/src/retention.rs:469-474 | a disk, policy and clock have one plan, so comparing plans decides whether a plan is stale |
| SnapshotStore.Store.WriteObject | crates/store/src/lib.rs:433-468 | an object is written once and registered, or an existing one is kept; registration fails exactly on an ownership row that does not describe the file |
| SnapshotStore.Store.Publish | crates/store/src/lib.rs:317-431 | the outcome at every failure point, decided by head, expectation and failure alone unless an ownership row is out of step: published under an allowed head with the present date, or only objects of these facts added; a success holds all of them |
| SnapshotStore.Store.Pin | crates/store/src/retention.rs:243-266 | pins exactly existing snapshots under valid names within the limit, and changes nothing otherwise |
| SnapshotStore.Store.Unpin | crates/store/src/retention.rs:268-274 | removes the pin and reports whether it existed |
| SnapshotStore.Store.OpenReader | crates/store/src/lib.rs:552-588 | a reader opens exactly for catalog rows, and all objects of the snapshot are then on disk |
| SnapshotStore.Store.GcPlan | crates/store/src/retention.rs:290-294 | planning leaves the store unchanged and returns the plan of the present catalog and clock, which respects the grace period |
| SnapshotStore.Store.GcExecute | crates/store/src/retention.rs:452-516 | replays a completed run, refuses exactly the stale plans without effect, and carries out a current one completely unless a marked failure point interrupts it part way |
| StoreRuns.StepKeepsInv | crates/store/src/lib.rs:327-431 | every atomic step of every process keeps integrity, the lease rules and what each process relies on |
| StoreRuns.EveryRunIsIntact | crates/store/src/lib.rs:327-588 | in every run each row has its shard and sources on disk, heads and pins name rows, and open readers keep their row |
| StoreRuns.UnlinkSparesReaders | crates/store/src/retention.rs:456-516 | nothing is unlinked while any reader or publisher is active, nor anything a row uses |
| StoreRuns.ReaderKeepsObjects | crates/store/src/retention.rs:114-154 | no object of a snapshot with an open reader disappears in any step |
| StoreProgress.PublisherPublishes | crates/store/src/lib.rs:317-431 | a publisher that nobody disturbs reaches its published snapshot with all objects on disk |
| StoreProgress.CollectorFinishes | crates/store/src/retention.rs:452-516 | a collector of a current plan that nobody disturbs leaves the finished disk |
| StoreProgress.PinIsSet | crates/store/src/retention.rs:243-266 | a pin of an existing snapshot that nobody disturbs is set |
| StoreProgress.NamesAndReaders | crates/store/src/lib.rs:552-588 | an unpin removes its name, and a reader of a catalog row opens |
| Jobs.AddEventKeepsOrder | crates/scheduler/src/lib.rs:425-439 | event sequences strictly increase below the 32-bit maximum in a window of 32 |
| Jobs.FirstTerminal | crates/scheduler/src/lib.rs:255-261 | the position of the oldest terminal job, or none exists |
| Jobs.UpdatesMean | crates/scheduler/src/lib.rs:425-524 | each update of a job gives the status, snapshot and event it should: revoked, started, settled by its outcome, or failed by a restart |
| Jobs.NextQueued | crates/scheduler/src/lib.rs:484-495 | the next job is the queued one of highest priority (foreground, workspace, background) and then earliest position |
| Jobs.EvictSucceeds | crates/scheduler/src/lib.rs:255-261 | with the queue within bounds eviction always finds a terminal job, and keeps the job-list invariant |
| Jobs.AdmitMeans | crates/scheduler/src/lib.rs:220-285 | a submission returns a live job with the same request, or is refused iff as many jobs of other profiles are queued as allowed, or puts a new queued job behind the old list with its profile revoked and, when full, without its oldest finished job |
| Jobs.AdmitKeepsQueue | crates/scheduler/src/lib.rs:212-285 | admission keeps at most one current job per profile, the queue bound and the history bound, and never finds the history full |
| Jobs.ReplaceKeepsQueue | crates/scheduler/src/lib.rs:454-470 | an update that revives no job keeps the job-list invariant |
| Jobs.RecoverEstablishesQueue | crates/scheduler/src/lib.rs:143-172 | restart turns any valid journal into a valid list of finished jobs |
| Scheduler.Supersede | crates/scheduler/src/lib.rs:236-254 | the in-place loop revokes exactly the unfinished jobs of the profile |
| Scheduler.MakeHistoryRoom | crates/scheduler/src/lib.rs:255-261 | the eviction loop computes the eviction function |
| Scheduler.PickNext | crates/scheduler/src/lib.rs:484-495 | the scan finds the next queued job |
| Scheduler.Scheduler.constructor | crates/scheduler/src/lib.rs:103-210 | startup fails every unfinished journal entry, keeps the others, and writes the list back |
| Scheduler.Scheduler.Submit | crates/scheduler/src/lib.rs:212-285 | the whole new state for every failing check and write: fence before journal before memory; the admitted list is the old one with the profile revoked and the new job last; a success is fenced and durable |
| Scheduler.Scheduler.Cancel | crates/scheduler/src/lib.rs:305-342 | revokes the fence first, cancels a queued job and marks a running one as cancelling, and leaves a job that is not current alone |
| Scheduler.Scheduler.Start | crates/scheduler/src/lib.rs:495-504 | starts the chosen job only if it is still queued, and the worker holds it iff that is written; a lost job or a failed write stops the worker |
| Scheduler.Scheduler.Progress | crates/scheduler/src/lib.rs:454-470 | a progress report adds one event to the job in flight |
| Scheduler.Scheduler.Conclude | crates/scheduler/src/lib.rs:505-524 | the last update finds the job unfinished; a published one succeeds with its snapshot, any other is cancelled iff that was asked for or the scheduler stops, else failed; the last event says so, and the worker is freed iff this is written |
| SchedulerRuns.PublishKeepsInv | crates/cli/src/main.rs:414-418 | a commit is made only under an identity that was not withdrawn, and keeps commit order |
| SchedulerRuns.StepKeepsInv | crates/scheduler/src/lib.rs:212-524 | every step keeps the whole invariant, and whoever lost the right to publish never regains it |
| SchedulerRuns.EveryRunIsSerial | crates/scheduler/src/lib.rs:212-524 | in every run at most one current job per profile and one in flight, bounded queue and history, and commits of one profile in submission order |
| SchedulerRuns.WithdrawnNeverPublishes | crates/scheduler/src/lib.rs:305-393 | once a job is Cancelling or Cancelled in memory or in the journal, no later commit carries its identity, through write failures and restarts |
| SchedulerRuns.TerminalIsAbsorbing | crates/scheduler/src/lib.rs:143-172 | a job once seen finished is never seen differently again, even after restarts |
| SchedulerProgress.JobSucceeds | crates/scheduler/src/lib.rs:212-524 | from an empty store a valid request that nobody disturbs is committed under its identity and ends as Succeeded with its snapshot |
| Neighborhood.BallIsWalks | crates/query/src/lib.rs:530-604 | a definition is within k hops iff a walk of at most k relations reaches it |
| Neighborhood.Adjacency | crates/store/src/reader.rs:232-256 | returns matching distinct rows cut at the limit, all of them when below it; fails only if a poll stops it or the rows exceed the read budget |
| Neighborhood.RowsWereAll | crates/query/src/lib.rs:540-560 | when nothing was left out, the cut read was in fact complete |
| Neighborhood.WalkIsExact | crates/query/src/lib.rs:530-604 | a walk that left nothing out has exactly the definitions within the depth and the relations of definitions nearer than it |
| Neighborhood.WholeFits | crates/query/src/lib.rs:473-618 | a whole answer within the budgets is a neighborhood that fits them |
| Neighborhood.Neighborhood | crates/query/src/lib.rs:473-618 | every answer keeps all budgets and both ends of each relation; an untruncated one is whole; unless a poll fired it is truncated iff the neighborhood exceeds a budget, and each error has its cause: bad limits, a missing root, a dangling relation, or an oversized answer |
| CallGraph.SelectNodes | crates/analysis/src/graph.rs:153-169 | collects each definition once, all of them unless a poll fired; refuses exactly duplicate identities and mixed contexts |
| CallGraph.SelectCalls | crates/analysis/src/graph.rs:170-184 | collects the calls among the relations, all of them unless a poll fired; refuses exactly duplicate relation identities |
| CallGraph.Connect | crates/analysis/src/graph.rs:203-266 | each call filed becomes one link between selected definitions or one explicit frontier entry, in order; all retained calls are filed unless a poll fired; complete iff no frontier is left |
| CallGraph.Prepare | crates/analysis/src/graph.rs:129-276 | refuses only invalid limits, oversized and inconsistent selections, and exactly those unless a poll fired; then indexes, links, frontier, truncation and completeness are exact |
| CallGraph.PreparedIsUnique | crates/analysis/src/graph.rs:129-276 | the prepared graph is determined by the selection and the limits |
| CallGraph.FrontIsNearest | crates/analysis/src/graph.rs:440-468 | no chain to the front of the breadth-first queue is shorter than its distance |
| CallGraph.FrontIsNext | crates/analysis/src/graph.rs:440-468 | what is visited next is at least as near as everything not visited yet, so the listing is in breadth-first order and leaves out nothing nearer |
| CallGraph.EmptyStackIsComplete | crates/analysis/src/graph.rs:440-468 | when the queue runs empty everything reachable was visited |
| CallGraph.Explore | crates/analysis/src/graph.rs:440-468 | the search lists each definition once, nearest first and within the limits, finds the target at its distance, or exhausts the reachable set; unless a poll fired it is cut only when reachable definitions are left, at the visit limit or all too deep |
| CallGraph.CapExplained | crates/analysis/src/graph.rs:446-452 | stopping at a cap means that more definitions are reachable than may be visited or one lies too deep, and that the target lies too deep or behind enough nearer definitions |
| CallGraph.PathIsChain | crates/analysis/src/graph.rs:483-491 | a reported path is a chain of as many calls |
| CallGraph.TraceBack | crates/analysis/src/graph.rs:483-491 | following parents rebuilds a path of exactly the target's distance |
| CallGraph.WholeSelectionIsDecided | crates/analysis/src/graph.rs:425-515 | on a whole selection, unless a poll fired, a target that is in sight is Found iff it is reachable, and NotFoundInSelection iff it is not |
| CallGraph.FindPath | crates/analysis/src/graph.rs:425-515 | Found is a shortest chain; NotFoundInSelection means no chain exists; ReachabilityComplete lists exactly the reachable set; any cut forces Unknown or Found. Unless a poll fired, a call is refused iff the selection or start is, and otherwise the report, with its listing, frontier and flags, is given exactly when it fits; Unknown has its reason |
| CallMetrics.CountSites | crates/analysis/src/graph.rs:319-353 | unless a poll fired, the counting loop computes exact call-site counts and distinct partners, and the counts add up to the sites |
| CallMetrics.CallersBelowSites | crates/analysis/src/graph.rs:333-343 | distinct callers never exceed incoming call sites |
| Utf8.ValidIsUtf8 | crates/store/src/reader.rs:404-417 | the decoder's validity check accepts exactly the encodings of sequences of Unicode scalar values (sections 3 and 4 of RFC 3629) |
| Utf8.CharacterIsEncoding | crates/store/src/reader.rs:404-417 | the grammar of one character describes exactly the encodings of scalar values |
| Utf8.FitsIsBeginning | crates/store/src/reader.rs:405-411 | what counts as a started character is exactly a beginning of a character |
| Utf8.CheckIsRight | crates/store/src/reader.rs:404-417 | an incomplete answer leaves a valid prefix and a started character; an invalid one cannot be repaired by any continuation |
| Utf8.PartialIsNotValid | crates/store/src/reader.rs:405-411 | a started character has at most three bytes and is not valid on its own |
| SourceReader.Input.Read | crates/store/src/reader.rs:389-394 | a read fills a prefix of the buffer with the next bytes; zero only at the end |
| SourceReader.DecodeChunk | crates/store/src/reader.rs:403-420 | one chunk extends the text by all finished characters, or proves the whole input invalid |
| SourceReader.ReadSourceText | crates/store/src/reader.rs:381-424 | however reads split the bytes, when no poll fired and no read failed it succeeds iff the input is within the limit and valid UTF-8, returns exactly it, and keeps at most three bytes pending |
| SourceDigest.EscapeJoins | crates/store/src/reader.rs:427-445 | escaping piece by piece equals escaping the whole |
| SourceDigest.EscapesAre | crates/model/src/lib.rs:21-28 | quotation mark, backslash and control characters get their short form where one exists and a four-digit code otherwise; every other byte stands for itself |
| SourceDigest.EscapeReadsBack | crates/model/src/lib.rs:21-28 | reading an escaped string back (section 7 of RFC 8259) gives the string |
| SourceDigest.BoundarySplits | crates/store/src/reader.rs:434-442 | cutting valid text where a character starts gives two valid texts |
| SourceDigest.BoundaryIsCut | crates/store/src/validate.rs:53-65 | character boundaries of a valid text are exactly the places where it can be cut into valid texts |
| SourceDigest.FloorBoundary | crates/store/src/reader.rs:435-438 | the step back to a boundary takes at most three bytes |
| SourceDigest.SourceDigest | crates/store/src/reader.rs:426-445 | unless a poll fired, the hash is fed the same bytes as the digest of the whole text |
| Sorting.SortIsCanonical | crates/store/src/validate.rs:153-165 | sorting gives equal results exactly for rearrangements of the same elements when keys determine them |
| BatchValidation.CheckFiles | crates/store/src/validate.rs:27-51 | files are accepted iff identities and paths are distinct, paths relative, sizes bounded and digests right |
| BatchValidation.CheckPath | crates/store/src/validate.rs:33-39 | a path is accepted iff it is not empty or absolute, does not start with a "." part and has no ".." part |
| BatchValidation.CheckDefinition | crates/store/src/validate.rs:66-89 | a definition is accepted iff its context, file and spans fit |
| BatchValidation.ClimbOwners | crates/store/src/validate.rs:90-103 | the walk up the owners succeeds iff it ends at a definition without one, so it detects exactly cycles and missing owners |
| BatchValidation.Validate | crates/store/src/validate.rs:14-151 | accepts exactly the valid batches of this version |
| BatchValidation.ReorderedValid | crates/store/src/validate.rs:14-151 | validity does not depend on the order of any list |
| BatchValidation.KeysAreIdentities | crates/store/src/validate.rs:27-151 | distinct keys are distinct identities; a flow is identified by its definition and phase |
| BatchExport.NormalizeIsCanonical | crates/store/src/validate.rs:153-165 | two valid batches normalise equal iff they differ only by reordering |
| BatchExport.NormalizeKeepsValid | crates/store/src/validate.rs:153-165 | normalising keeps validity both ways |
| BatchExport.NormalizeSorts | crates/store/src/validate.rs:153-165 | the canonical order is by identity, and of flows by definition and then phase |
| BatchExport.ExportRows | crates/store/src/reader.rs:60-82 | a table is read whole, in any order, iff it fits the row cap and the remaining budget |
| BatchExport.ReadSource | crates/store/src/reader.rs:303-351 | a file is read iff a text with its digest is stored within the source limit; a longer text exhausts the budget, any other is unavailable |
| BatchExport.ReadFiles | crates/store/src/reader.rs:40-50 | the archived texts are restored exactly, or the first that is too long or harmed is told |
| BatchExport.CompleteBatch | crates/store/src/reader.rs:23-58 | for any shard and any stored texts: success gives the batch with the published digest, valid and within the budget, and each refusal has its cause (too large, damaged, or invalid) |
| BatchExport.OutcomeIsExact | crates/store/src/reader.rs:23-58 | an export succeeds iff the shard holds a whole, valid and unharmed batch that fits |
| BatchExport.ArchivedIsExported | crates/store/src/reader.rs:23-58 | from the shard and sources of a valid batch the export is exactly the normalised batch iff it fits the budget, and otherwise refused for its size |
| Diff.GroupAll | crates/query/src/diff.rs:50-66 | the loop groups the definitions of a snapshot by structural key, in order |
| Diff.GroupCountIsCount | crates/query/src/diff.rs:50-72 | the groups together hold every definition exactly once |
| Diff.GroupBalances | crates/query/src/diff.rs:74-134 | the changes of one key turn the group before into the group after |
| Diff.ChangesApply | crates/query/src/diff.rs:50-144 | removing what the changes remove and adding what they add turns the definitions before into those after, over path, qualified name, kind and every compared field |
| Diff.FullChangesSound | crates/query/src/diff.rs:83-134 | a modification pairs the only definition with its path, qualified name and kind on each side and lists exactly the differing fields, in order; an ambiguous key is never modified |
| Diff.FieldsDiffer | crates/query/src/diff.rs:83-103 | the listed fields are those in which two definitions differ, each once and in a fixed order |
| Diff.AscentIsUnique | crates/query/src/diff.rs:67-72 | the keys have one ascending order, so the full list of changes is determined |
| Diff.PathBelowIsLexicographic | crates/query/src/diff.rs:67-72 | paths are ordered lexicographically |
| Diff.CollectChanges | crates/query/src/diff.rs:67-144 | the emitted list begins the full list in key order; unless a poll fired it is cut iff the full list exceeds the change or byte budget, and is then the longest beginning that fits; ambiguity is reported iff some key has several definitions on a side |
| Diff.CollectImpact | crates/query/src/diff.rs:145-171 | impact lists only stored direct callers of changed definitions, and all of them unless truncated; unless a poll fired it is cut only when the calls of one or the callers of all exceed a budget |
| Diff.Compare | crates/query/src/diff.rs:7-202 | refuses foreign or oversized snapshots; every change listed is sound; an untruncated diff applies, and is complete iff both snapshots are and no key is ambiguous; unless a poll fired, a truncation or error has a budget as its reason, over the changes of this very comparison |
| Configuration.CombineScan | crates/frontend-ra/src/configuration.rs:446-461 | the scan computes the three-valued all or any |
| Configuration.EvaluateIsSound | crates/frontend-ra/src/configuration.rs:375-437 | an Active (Inactive) condition is true (false) in every build that agrees with the settings, through nested all, any and not |
| Configuration.EvaluateIsExact | crates/frontend-ra/src/configuration.rs:375-437 | a condition is Active (Inactive) iff it can only be true (false) when each occurrence of something undecided may turn out either way; in particular through not, all and any |
| Configuration.SettledIsDecided | crates/frontend-ra/src/configuration.rs:375-437 | a well-formed condition all of whose keys are decided gets the verdict that every agreeing build gives |
| Configuration.MetaStatusIsSound | crates/frontend-ra/src/configuration.rs:354-373 | the same for attributes, through nested cfg_attr |
| Configuration.MetaStatusIsExact | crates/frontend-ra/src/configuration.rs:354-373 | the same for attributes: definite iff only one answer is possible, where anything under an undecided cfg_attr counts as undecided |
| Configuration.OpenConditionIsCautious | crates/frontend-ra/src/configuration.rs:360-370 | under an undecided condition the verdict is Unknown even for an attribute that never drops its item |
| Configuration.UnavailableIsExact | crates/frontend-ra/src/configuration.rs:242-316 | an attribute is flagged as a possible macro iff it is not built in, is malformed, or stands under a condition that may hold and is undecided or leads to a flagged one |
| Configuration.AvailableIsSound | crates/frontend-ra/src/configuration.rs:242-316 | an attribute that is not flagged expands to no foreign attribute in any agreeing build |
| Configuration.UnknownAtomIsOpen | crates/frontend-ra/src/configuration.rs:409-416 | an unknown key is really open: some agreeing build makes it true and some false |
| Configuration.UnknownPairIsOpen | crates/frontend-ra/src/configuration.rs:388-408 | the same for an unknown key-value pair or feature |
| Features.LeastIsUnique | crates/frontend-ra/src/configuration.rs:207-227 | the least closed set is unique, so pop order cannot matter |
| Features.Close | crates/frontend-ra/src/configuration.rs:207-227 | the worklist terminates with the least set containing the plain seeds and closed under plain entries, and the unknown mark iff a forwarding, dep: or non-string entry is reachable |
| Features.BuildRoots | crates/frontend-ra/src/configuration.rs:179-240 | every crate gets the least closure of what was requested for it (requested features for the primary package, the default feature unless switched off there) under its manifest, and all are marked unknown iff something is left to Cargo's resolver |
| FileConfigurations.PathIsEntered | crates/frontend-ra/src/configuration.rs:65-74 | the preorder walk enters every node while exactly its ancestors are open |
| FileConfigurations.ArenaGrows | crates/frontend-ra/src/configuration.rs:97-103 | adding an entry keeps parent links descending and every earlier list the same |
| FileConfigurations.Inherit | crates/frontend-ra/src/configuration.rs:73-103 | one node's settings from its parent's represent the longer path |
| FileConfigurations.BuildCache | crates/frontend-ra/src/configuration.rs:55-120 | for every node the one-pass cache equals rescanning all ancestors: status, macro flag and ordered cfg list; arena links strictly decrease |
| FileConfigurations.Cfg | crates/frontend-ra/src/configuration.rs:134-143 | following the arena links ends, and lists the cfg and cfg_attr attributes on the path, each once, innermost node first |
| FileConfigurations.NodeStatus | crates/frontend-ra/src/configuration.rs:122-124 | the cached status is Active iff no attribute on the node's path may drop it, Inactive iff one certainly does |
| FileConfigurations.HasAttributeMacro | crates/frontend-ra/src/configuration.rs:126-132 | the cached flag says exactly whether some attribute on the node's path may be a macro |
| FileConfigurations.NodeStatusIsSound | crates/frontend-ra/src/configuration.rs:333-346 | a definite inherited status holds in every build that agrees with the settings |
| Watch.Worker.Serve | crates/cli/src/watch.rs:539-598 | one turn of the worker: the facts file exists afterwards iff the reply is Changed, and the remembered capture changes only then |
| Watch.FailureIsTold | crates/cli/src/watch.rs:586-597 | a failure reply always passes the supervisor's checks and tells the first 1024 characters of its cause |
| Watch.CheckResponse | crates/cli/src/watch.rs:344-357 | a reply is accepted iff version, sequence and error length fit and its status is told with exactly the identities it needs |
| Watch.Session.Receive | crates/cli/src/watch.rs:344-388 | any reply, honest or not, is taken in iff it is acceptable and its facts file is the one it names, or none if nothing changed; only then does the session remember something new |
| Watch.Session.Capture | crates/cli/src/watch.rs:332-388 | unless a deadline, cancellation or fault fires, an honest reply is accepted; no reply is ever rejected for what it says; and both sides agree again on sequence, capture and an empty facts file |
| Watch.Supervisor.Round | crates/cli/src/watch.rs:140-247 | a round counted unchanged or published leaves the head at the last analysed capture; a round ends the run only on a cancellation, a fault or a foreign head; without those an analysed capture is at the head afterwards |
| Watch.Supervisor.CountLoss | crates/cli/src/watch.rs:186-196 | a lost request drops the worker, and the third in a row ends the run |
| Watch.Supervisor.Run | crates/cli/src/watch.rs:140-262 | after a successful run with a successful round the head holds the last analysed capture; without faults no request is lost, every round is counted, and the head holds facts of the key captured last |

## Left out

- The HTTP server, its routing and authentication, the web viewer, the command line, file capture, process limits and signals: input, output and user interface.
- The rustc and rust-analyzer adapters: they rest on libraries that are not visible here. Bodies and attribute trees are given as data.
- The syntax analyses in `maintainability.rs` and `state_machine.rs`: patterns over an external parser's tree.
- In `crates/analysis/src/graph.rs` the strongly connected components, computed by an external library, and the loops that list components, their links and the metric distributions (`crates/analysis/src/graph.rs:284-316`, `crates/analysis/src/graph.rs:354-420`).
- SQLite internals and its own integrity check, JSON encoding and hash functions: one atomic step per statement or transaction, inverse codecs, injective digests.
- Encoded sizes appear as parameters or as size fields, because the encoders are not modelled.
- Coverage reasons and limitation texts: only whether an answer may call itself complete is modelled.
- Source spans of compiler bodies and their mapping to source files (`crates/evidence/src/compiler.rs:238-257`): independent of control flow.
- Fields that analyses only copy (names, signatures, metrics, messages, timestamps) are summarised by one number or omitted.
- Store: the migration of legacy ownership, the fallback for a missing generation row (an invariant shows that it is never taken), the verification cache with its file-identity rechecks, and portable export files.
- Liveness of a publication that follows a crashed unlink: the code does not promise it.
- Scheduler: request sizes and context trust, the 100 ms wait for the publication lock (it is won or not), the journal format checks at start, and polling of the progress file.
- Scheduler.Scheduler.constructor: the journal's format checks are left out, and a start whose write-back fails leaves no scheduler, so the constructor describes the start that succeeds.
- SchedulerRuns: a child that reports success has committed, which its process guarantees by its order of steps (`crates/cli/src/main.rs:414-418`); the runs take it as given.
- Jobs.AddEventKeepsOrder: sequences are strict only below the 32-bit maximum, where the code saturates.
- Retention.MakePlan: the plan keeps the set of live objects where the code keeps their number, and its category sizes, which follow from the objects, are left out.
- SnapshotStore.Store.GcExecute: the second failure point may fire after any unlinked object, which covers the fixed position in the code.
- CallGraph.FindPath: which of several equally short paths is reported is left open, because links are followed in any order.
- Watch.Supervisor.Run: a run without a round limit is observed for any finite number of rounds.
- Features.Close: values other than arrays in the features table have no entries, as in the code; the search for the owning manifest is a parameter of each crate.
- BatchValidation.CheckPath: `Path::components` is modelled for slash-separated paths.
