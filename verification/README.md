# Cognis: verified models

Dafny models of the parts of Cognis that hold state over time or combine values by a law: caches and runners whose
asynchronous work ends in any order, a two-file migration that must survive interruption, the line scanner, the compressed
code graph, the growth-class algebra, the watch loop, reference counting, ownership planning and the endpoint file.

`dafny verify dfyconfig.toml` checks everything.

## How the models are built

Code that changes objects step by step is modelled by classes with the same fields and methods. Where several callbacks
share such objects (the compatibility cache, the toggle, the server handles), a second module holds the same steps as
functions over plain values; each method is proved to take exactly one of those steps, and the theorems about whole runs,
over every sequence of events, are lemmas about the functions. Loops that compute a value are methods whose `ensures` equate
the result with a definition that has no loop state, and lemmas say what that definition means.

| module | models |
|---|---|
| `CompatibilityMachine`, `CompatibilityCoordinators` | the per-root compatibility cache: time to live, single flight, forced supersession, eviction, disposal |
| `MigrationPlans`, `ConfigMigrations` | moving server entries between two configuration files, with backups and rollback |
| `GuardrailSpec`, `Guardrails`, `GuardrailMeaning` | the single-file complexity scanner, and what its reports say of the lines |
| `CodeGraphs`, `CodeGraphBuilder`, `ImpactGraphs` | the compressed graph and its four projections |
| `Complexity` | growth classes under sequence and nesting |
| `ToggleMachine`, `ToggleControls` | the on/off control and its single-slot runner |
| `WatchLoops` (with `Orders`) | the daemon's watch loop |
| `ServerHolds`, `LaunchBooks`, `McpServers` | reference counting with the tool panel's hold, and what failed launches do to it |
| `Ownership` (with `Orders`) | the ownership plan |
| `Endpoints` | target addresses, the endpoint file, derived ports |

Some statements hold only under a condition. It is proved to be exact, for all inputs or runs, with a concrete case of the
other side where that helps:

- The migration keeps the moved entries exactly when the two paths are different files; when they coincide (a repository
  root that is the home directory) a run reports success and the entries are gone (`Migration.WhereTheEntriesAre`).
- The degree of a nesting is the sum of its parts and one half for each square root absorbed, exactly when no exponent is cut
  off at a byte (`NestingIsSumIff`). Nesting is associative except around adjacent square roots and for some small
  exponential bases (`NestingAssociativeIff`). Under a non-exponential class and where nothing is cut off, it respects
  equality and order of degrees exactly as the gains of the two sides allow (`CongruenceIff`, `MonotoneIff`).
- A compressed graph stands for its triples exactly when its entries can be numbered in 32 bits (`FromWeightedTriples`).
- The degree of a node is documented as a column sum (crates/cognis-core/src/graph.rs:21). It is the sum of the node's row
  of the lists. If that row is column u of A, as P = A D^-1 in lines 58-63 suggests, the documentation holds as it stands
  (`RowsAreStochastic`). If it is row u of A, it holds exactly for nodes with as much weight coming in as going out
  (`DegreeIsColumnSumIff`), hence always in a symmetrized graph.
- A loop depth from edge metadata goes through an 8-bit cast: it counts at face value exactly when its low eight bits do
  (`MetaDepthIsFaithfulIff`).
- A toggle request is served unless the last transition to the same value has failed; then it is ignored for good, while
  that value goes on being displayed (`RequestServedUnlessStuck`, `Convergence`).
- The comment in `planOwnership` says that the kept entry does not depend on the input order. Its identity and place do not,
  but its `repoRoot` spelling does, exactly when two inputs of one slot spell it differently (`AgreedPlan`, `DisagreedPlan`).
  Slots are told apart by their keys exactly among those without a NUL in root and host (`SlotKeysTellApart`, `NulConfuses`).
- The lower bound of one in `boundToolHold` comes into play exactly when a tool call settles under a hold already taken and
  at least as many references have been given up as clients and unsettled calls have taken (`PaddingIff`). It never does in
  runs whose graceful stops give up a client's reference or come between tool calls (`FairRunsNeverPad`).
- The count of a server is what its callers hold exactly when as many holds were forgotten by failed launches as launches
  were revived after all their holds had been given back and references added by that lower bound. So in fair runs, as long
  as nobody gives a launch up before it fails, it is right exactly when nobody else ever held a launch that failed
  (`CountIsHoldsIff`, with `JoinerIsForgotten` and `StoppedLaunchReturns`). What callers hold is kept apart from the count.
- The toggle value in force is the stored one exactly when the workspace's last write was kept, or the store happened to read
  the same (`InForceIsStoredIff`).
- An endpoint file gives back the target exactly when no field has a line break and a fingerprint comes with a credential;
  the two languages trim different characters (`FileRoundTripIff`, `ExtensionAgreesIff`).

## Assumptions

- A step of asynchronous code runs without interruption up to the next await. A storage update is visible as soon as it is
  requested. Probe, transition and server outcomes, and their order, are arbitrary.
- Every fallible file operation of the migration may fail, a byte copy may stop half way, and the process may die between
  any two changes of the disk. A JSON write, made through a rename, either happens or does not.
- Graph weights are real numbers; effective degrees are counted in twentieths.
- Regular expressions of the scanner are arbitrary facts about a line. File-system resolution of a path is done before the
  models begin: roots, databases and workspaces come with their canonical form.
- A server is not started between its kill and the exit event that follows. A launcher whose handle has been replaced never
  hears of its launch again.

## Model

| member | source | states |
|---|---|---|
| CompatibilityMachine.StepKeepsInv | apps/cognis-mcp/src/compatibilityCoordinator.ts:66-212 | Every get, forced get, probe end, evict and dispose, in any order, keeps the invariant of the cache: links between keys, root objects and outstanding probes, ascending commits, snapshot equal to the verdict of the commits, and an in-flight record that matches an outstanding probe of the current generation |
| CompatibilityMachine.RunAges | apps/cognis-mcp/src/compatibilityCoordinator.ts:102-129 | Over any run, generations and commit histories of existing root objects only grow, and invalidation and disposal are final |
| CompatibilityMachine.StaleForever | apps/cognis-mcp/src/compatibilityCoordinator.ts:199-212 | A probe that may not commit now may never commit later, whatever happens in between |
| CompatibilityMachine.EvictedProbeNeverCommits | apps/cognis-mcp/src/compatibilityCoordinator.ts:102-113 | A probe started before its root is evicted rejects whenever it ends and changes no root, even one recreated under the same key with the same numbers |
| CompatibilityMachine.EvictForgets | apps/cognis-mcp/src/compatibilityCoordinator.ts:102-113 | Eviction forgets exactly the root of that key, so that the next request for it starts a probe, forced or not; other roots stay as they are |
| CompatibilityMachine.HeldRootsRetire | apps/cognis-mcp/src/compatibilityCoordinator.ts:102-129 | Eviction and disposal leave a held root without snapshot and record in a generation that no outstanding probe has, and disposal begins a lifecycle in which none was started |
| CompatibilityMachine.DisposedForGood | apps/cognis-mcp/src/compatibilityCoordinator.ts:116-129 | After disposal no earlier probe commits and every request is rejected |
| CompatibilityMachine.NumbersAloneDoNotGuard | apps/cognis-mcp/src/compatibilityCoordinator.ts:131-139 | After an eviction two outstanding probes can carry the same key, generation and lifecycle number, and only one of them may commit: object identity is needed |
| CompatibilityMachine.CommitsAscendAndStay | apps/cognis-mcp/src/compatibilityCoordinator.ts:168-197 | In every reachable state commits to one root object have strictly increasing generations and no later run undoes them |
| CompatibilityMachine.PeekIsVerdict | apps/cognis-mcp/src/compatibilityCoordinator.ts:97-99 | The committed snapshot is the fold of all committed probe results: the last verdict obtained if it is the latest or a mismatch, otherwise unavailable |
| CompatibilityMachine.VerdictStep | apps/cognis-mcp/src/compatibilityCoordinator.ts:179-190 | The snapshot rule of one commit moves the fold by exactly that commit |
| CompatibilityMachine.VerdictLaws | apps/cognis-mcp/src/compatibilityCoordinator.ts:179-190 | A probe with a verdict decides; any number of failed probes keeps a mismatch and turns an "ok" into unavailable |
| CompatibilityMachine.SingleFlight | apps/cognis-mcp/src/compatibilityCoordinator.ts:80-94 | Of the outstanding probes of a key at most one may commit, and it is the one on record |
| CompatibilityMachine.RecordIsCommittable | apps/cognis-mcp/src/compatibilityCoordinator.ts:164-195 | An in-flight record has the current generation and names an outstanding probe that may commit |
| CompatibilityMachine.RequestsShareTheFlight | apps/cognis-mcp/src/compatibilityCoordinator.ts:66-94 | While a probe may commit, an ordinary request is answered from a fresh snapshot or joins it; a forced one joins a forced probe or starts a new one that takes the commit away from the old |
| CompatibilityMachine.RequestsAreServed | apps/cognis-mcp/src/compatibilityCoordinator.ts:66-94 | A request is refused exactly when the coordinator is disposed; otherwise, unless answered from the cache, it is given an outstanding probe of its key that may commit: a new one exactly when none could, or the request is forced and the one on record is not; a new probe is on record with the force of the request |
| CompatibilityMachine.Quiescent | apps/cognis-mcp/src/compatibilityCoordinator.ts:146-197 | With no probe outstanding every held root has the snapshot of its latest generation and no in-flight record |
| CompatibilityMachine.AskedRootAnswered | apps/cognis-mcp/src/compatibilityCoordinator.ts:66-94 | When everything has ended, a root that was asked for and neither evicted nor disposed since has an answer |
| CompatibilityMachine.CachedExactlyWhenFresh | apps/cognis-mcp/src/compatibilityCoordinator.ts:141-144 | A request is answered from the cache exactly when it is unforced and the snapshot is at least zero and less than the time to live old; a commit is dated by the end of its probe |
| CompatibilityCoordinators.CompatibilityCoordinator.GetOrProbe | apps/cognis-mcp/src/compatibilityCoordinator.ts:66-94 | The object takes exactly the machine's get step (of which `RequestsAreServed` says what it answers), keeps its invariant, and gives the caller the new probe when it has started one |
| CompatibilityCoordinators.CompatibilityCoordinator.StartProbe | apps/cognis-mcp/src/compatibilityCoordinator.ts:146-166 | A new generation, record and outstanding probe, and nothing else |
| CompatibilityCoordinators.CompatibilityCoordinator.FinishProbe | apps/cognis-mcp/src/compatibilityCoordinator.ts:168-197 | The end of a probe is exactly the machine's finish step, on the root object the callback holds |
| CompatibilityCoordinators.CompatibilityCoordinator.CanCommit | apps/cognis-mcp/src/compatibilityCoordinator.ts:199-212 | The guard on objects agrees with the guard of the machine |
| CompatibilityCoordinators.CompatibilityCoordinator.Peek | apps/cognis-mcp/src/compatibilityCoordinator.ts:97-99 | Gives the held snapshot, which amounts to the verdict of the root's history |
| CompatibilityCoordinators.CompatibilityCoordinator.Evict | apps/cognis-mcp/src/compatibilityCoordinator.ts:102-113 | Retires the root object of the key and forgets it, as the machine does |
| CompatibilityCoordinators.CompatibilityCoordinator.Dispose | apps/cognis-mcp/src/compatibilityCoordinator.ts:116-129 | Retires every held root object, once, as the machine does |
| MigrationPlans.FindRepoCognisEntries | apps/cognis-mcp/src/mcpConfigMigrate.ts:123-139 | Lists, each once, exactly the selected entries, which `SelectedIff` spells out |
| MigrationPlans.SelectedIff | apps/cognis-mcp/src/mcpConfigMigrate.ts:123-139 | Selected are exactly the entries named `cognis` or `cognis-...` that carry the canonical name, or whose non-empty COGNIS_DB_PATH is the repository's after normalization while the first present of COGNIS_REPO_ROOT, REPO_ROOT and repo_root is empty or the repository's root |
| MigrationPlans.SelectedForTwo | apps/cognis-mcp/src/mcpEnv.ts:23-39 | Of two repositories with different databases only an entry under one of their canonical names can be selected for both |
| MigrationPlans.AcceptableIff | apps/cognis-mcp/src/mcpConfigMigrate.ts:344-359 | The destination check refuses exactly a null entry, one that names another database, and one that names the repository's together with another root |
| MigrationPlans.ParseIff | apps/cognis-mcp/src/mcpConfig.ts:163-172 | Reading fails exactly on a file that is there and does not parse; a missing file reads as empty |
| MigrationPlans.NothingLeftToSelect | apps/cognis-mcp/src/mcpConfigMigrate.ts:254-260 | After the selected entries are removed nothing is selected |
| ConfigMigrations.FreshBackupPath | apps/cognis-mcp/src/mcpConfigMigrate.ts:187-197 | The backup name is free and the first free one in order |
| ConfigMigrations.Migration.BackUp | apps/cognis-mcp/src/mcpConfigMigrate.ts:187-200 | A byte-exact copy beside the file; no state of the disk on the way loses an entry |
| ConfigMigrations.Migration.WriteDestination | apps/cognis-mcp/src/mcpConfigMigrate.ts:319-338 | The destination becomes itself with exactly the planned entries added, or nothing changes |
| ConfigMigrations.Migration.VerifyDestination | apps/cognis-mcp/src/mcpConfigMigrate.ts:340-360 | Passes only if every moved entry is acceptable: not null, naming no other database, and no other root together with the repository's; exactly then, unless reading the destination fails |
| ConfigMigrations.Migration.RemoveFromSource | apps/cognis-mcp/src/mcpConfigMigrate.ts:362-373 | The source becomes itself without exactly the planned entries; entries stay in one of the files at every moment when the files differ |
| ConfigMigrations.Migration.Rollback | apps/cognis-mcp/src/mcpConfigMigrate.ts:284-303 | At every moment of the rollback each entry is in one of the files or in a byte-exact source backup; if no restoring operation fails both files end exactly as before |
| ConfigMigrations.Migration.WhereTheEntriesAre | apps/cognis-mcp/src/mcpConfigMigrate.ts:362-384 | Once the source is reduced the entries survive exactly when source and destination are different files |
| ConfigMigrations.Migration.DropBackups | apps/cognis-mcp/src/mcpConfigMigrate.ts:386-396 | Removing the backups changes no configuration file, even if some removals fail |
| ConfigMigrations.Migration.Run | apps/cognis-mcp/src/mcpConfigMigrate.ts:305-411 | Under every pattern of faults and at every crash point: up to the rollback, if there is one, each entry is in source or destination; during it, there or in the exact backup. On a failed run the rollback is exactly the attempts to restore at the end of the run, and if none of those fails both files are as before. Exact backups of both files stay on a failed run and when the caller keeps them, and are dropped otherwise. The flags say which steps were reached. It succeeds exactly when no operation before the rollback or the dropping of backups fails, the destination parses and every entry is acceptable, and gives up at the first operation that fails |
| ConfigMigrations.Migrator.MakePlan | apps/cognis-mcp/src/mcpConfigMigrate.ts:145-179 | The plan selects exactly the repository's entries of the source, without touching the disk; there is one exactly when the host has a workspace configuration and the source, if there, is read and parses |
| ConfigMigrations.Migrator.Migrate | apps/cognis-mcp/src/mcpConfigMigrate.ts:221-413 | The whole routine from the planning on: a dry run, an empty plan and a held lock touch nothing and report nothing done; any other run has the guarantees of `Run`, said of its outcome, so that after a success no moved entry names another database; the lock is given back |
| ConfigMigrations.MovedExactly | apps/cognis-mcp/src/mcpConfigMigrate.ts:326-384 | After a success each planned entry has moved unchanged, every other entry and key of both files is as before, and a second run finds nothing to do |
| GuardrailSpec.ReportsAreDisjoint | apps/cognis-mcp/src/guardrails.ts:166-177 | Reported functions are non-empty line intervals of the file, in order and pairwise disjoint |
| GuardrailSpec.ReportsAreOfStarts | apps/cognis-mcp/src/guardrails.ts:207-234 | Every report is that of a declaring line, in order |
| GuardrailSpec.StartIsReported | apps/cognis-mcp/src/guardrails.ts:207-234 | Every declaring line is reported, at its place |
| GuardrailSpec.EndsByNextStart | apps/cognis-mcp/src/guardrails.ts:219-221 | A function ends no later than the line before the next one |
| GuardrailSpec.AdvisoriesInside | apps/cognis-mcp/src/guardrails.ts:141-158 | Every advisory of a function points into the function's lines |
| GuardrailSpec.NestedIffAdvised | apps/cognis-mcp/src/guardrails.ts:141-158 | A function carries an OPT-001 advisory exactly when its reported loop depth is at least two |
| GuardrailSpec.DepthIsMaximum | apps/cognis-mcp/src/guardrails.ts:246-280 | The reported depth bounds the contribution of every line of the function, and some line reaches it |
| GuardrailSpec.OpenBraceLoopsListed | apps/cognis-mcp/src/guardrails.ts:337-347 | The brace loops counted on a line are exactly those open there, each once |
| GuardrailSpec.OpenIndentLoopsListed | apps/cognis-mcp/src/guardrails.ts:196-205 | The indented loops counted on a line are exactly those open there, each once |
| GuardrailSpec.BraceLoopOpenMeans | apps/cognis-mcp/src/guardrails.ts:337-347 | In a function that is not Python, a loop line that does not end in a colon is open until, on a line that is not skipped, some closing brace brings the depth back to that of its line |
| GuardrailSpec.DipsMeans | apps/cognis-mcp/src/guardrails.ts:337-347 | A line closes a level exactly when one of its closing braces leaves the depth at or below it |
| GuardrailSpec.IndentLoopOpenMeans | apps/cognis-mcp/src/guardrails.ts:200-205 | A loop line in a Python function or ending in a colon is open while every line after it that is not skipped is indented further |
| GuardrailSpec.RecursiveAndAllocatesMean | apps/cognis-mcp/src/guardrails.ts:255-261 | Recursion is a call on a later line of the function; allocation is a concatenation on a line inside a loop |
| GuardrailSpec.OpenMeans | apps/cognis-mcp/src/guardrails.ts:348-355 | A function is open as long as no line so far ends it |
| GuardrailMeaning.FindingsExact | apps/cognis-mcp/src/guardrails.ts:263-332 | A line of a function has an advisory for a linear scan (no loop line itself), a sort, input or output, or concatenation exactly when it does that, is not skipped, and is inside at least one loop |
| GuardrailMeaning.AdvisoriesInOrder | apps/cognis-mcp/src/guardrails.ts:141-158 | The advisories of a function follow its lines, and on each line the order of the rules, none twice, with the severity of their rule and the depth of their line; the one for nested loops comes last, on the first line, exactly when the depth is at least two and no line had a linear scan in a loop |
| GuardrailMeaning.FlattenJoins | apps/cognis-mcp/src/guardrails.ts:102-105 | The advisories of a file are those of its functions, one function after the other |
| GuardrailMeaning.ReportMeans | apps/cognis-mcp/src/guardrails.ts:124-177 | What a report says: name, lines, the greatest contribution of a line as depth, recursion, time O(2^n) for recursion in loops and otherwise one power of n per loop (one for recursion alone), linear space for recursion or concatenation in a loop |
| GuardrailMeaning.ContributionMeans | apps/cognis-mcp/src/guardrails.ts:246-280 | A line contributes its depth in loops, and one more for a linear scan there |
| GuardrailMeaning.ExtentMeans | apps/cognis-mcp/src/guardrails.ts:195-234 | A function ends where the file ends, before the next declaring line, before the dedent of a Python body, or on the line whose closing brace brings the depth back to that of its first line, whichever comes first |
| GuardrailMeaning.LoopDepthCounts | apps/cognis-mcp/src/guardrails.ts:236-248 | The depth of a line is the number of brace loops open on it and of indented loops it is in, itself included, and one more for a loop line without a block |
| GuardrailMeaning.BlocklessLoopCountsTwice | apps/cognis-mcp/src/guardrails.ts:246-248 | A loop line without a block counts twice: alone it already makes its line two deep |
| GuardrailMeaning.DepthCounts | apps/cognis-mcp/src/guardrails.ts:337-341 | The brace depth is opening less closing braces as long as these are covered, and never below zero |
| GuardrailMeaning.DepthAtMeans | apps/cognis-mcp/src/guardrails.ts:337-341 | The depth before a line is the one before the previous line after its braces; skipped lines have none |
| Guardrails.PopReached | apps/cognis-mcp/src/guardrails.ts:200-205 | On an ordered stack, popping while the top has reached a level leaves exactly the elements below it |
| Guardrails.BracesAfterLine | apps/cognis-mcp/src/guardrails.ts:337-347 | What the pops of one line leave on the brace stack is the list of the loops open on the next line |
| Guardrails.IndentsAfterLine | apps/cognis-mcp/src/guardrails.ts:200-205 | What the pops of one line leave on the indent stack is the list of the indented loops still open |
| Guardrails.FinalizeCurrentFn | apps/cognis-mcp/src/guardrails.ts:124-177 | Ends the current function with its report, and the flat list of advisories stays the concatenation of the functions' lists |
| Guardrails.SettleFunction | apps/cognis-mcp/src/guardrails.ts:195-234 | Before a line is looked at, functions and loops that end there are closed and a function that starts there is current |
| Guardrails.EnterLoop | apps/cognis-mcp/src/guardrails.ts:236-248 | The stacks stay ordered and bounded, and the active loop depth is the number of open loops (with the extra one for a loop line that opens no block) |
| Guardrails.UpdateFn | apps/cognis-mcp/src/guardrails.ts:250-334 | The function's record gains exactly the line's contribution and findings |
| Guardrails.ClosingBrace | apps/cognis-mcp/src/guardrails.ts:340-356 | A closing brace pops the loops it closes and ends the function exactly where it ends |
| Guardrails.AnalyzeSourceLocally | apps/cognis-mcp/src/guardrails.ts:102-362 | The scan yields exactly the reports of the declaring lines, and the flat advisory list is the concatenation of their lists |
| CodeGraphBuilder.FromWeightedTriples | crates/cognis-core/src/graph.rs:64-117 | The built graph represents the triples exactly when its entries can be numbered in 32 bits: row pointers strictly increasing from 0 to the number of entries, rows strictly ascending, each listed weight the sum of the triples kept for its pair, every positive pair listed, a unit loop exactly on rows nothing leaves |
| CodeGraphBuilder.Accumulate | crates/cognis-core/src/graph.rs:75-84 | The accumulator's rows hold exactly the pairs of positive weight, with their sums |
| CodeGraphBuilder.PlacesAreLast | crates/cognis-core/src/graph.rs:70-73 | The index gives the last place of each identifier, and of nothing else |
| CodeGraphs.EntryIsWeight | crates/cognis-core/src/graph.rs:75-112 | Looking a pair up in the compressed form gives the sum of the kept triples (both orientations when symmetrized), plus one on the diagonal of rows without any |
| CodeGraphs.DegreeIsOutWeight | crates/cognis-core/src/graph.rs:92-107 | A degree is positive: all that leaves the node, or one for its loop |
| CodeGraphs.RowsAreStochastic | crates/cognis-core/src/graph.rs:58-63 | The weights of a row divided by the degree are positive and sum to one |
| CodeGraphs.TotalDegree | crates/cognis-core/src/graph.rs:75-107 | All degrees together are the kept weight, doubled when symmetrized, plus the number of rows with a loop |
| CodeGraphs.SymmetrizedWeight | crates/cognis-core/src/graph.rs:80-83 | Symmetrizing adds both orientations, and is symmetric |
| CodeGraphs.DegreeIsColumnSumIff | crates/cognis-core/src/graph.rs:21-22 | With a node's row of the lists as a row of the matrix, the degree is the column sum exactly for nodes with equal weight in and out |
| CodeGraphs.SymmetrizedColumns | crates/cognis-core/src/graph.rs:21-22 | In a symmetrized graph every degree is the column sum, in either orientation |
| CodeGraphs.DirectedColumnsDiffer | crates/cognis-core/src/graph.rs:21-22 | A directed graph of one edge where, in that orientation, it is not |
| CodeGraphs.ReadingDeterminesGraph | crates/cognis-core/src/graph.rs:64-117 | Triples that give every pair the same weight give the same compressed graph, field by field |
| CodeGraphs.PermutedReading | crates/cognis-core/src/graph.rs:75-84 | Permuting the triples changes no pair's weight |
| CodeGraphs.OrderLeavesNoTrace | crates/cognis-core/src/graph.rs:75-84 | The order of the triples leaves no trace in the graph |
| ImpactGraphs.Build | crates/cognis-core/src/graph.rs:139-218 | Each of the four graphs represents its projection of the usable edges, all four exactly when their entries can be numbered in 32 bits |
| ImpactGraphs.OnlyEdge | crates/cognis-core/src/graph.rs:155-203 | The only edge of a pair gives it exactly its confidence forward, its confidence times the worth of its kind in the reverse structural graph, and in the reverse complexity graph also times four for each loop, up to four loops, the depth given for the pair taking precedence over the metadata; all worths and powers are spelled out |
| ImpactGraphs.EdgesAdd | crates/cognis-core/src/graph.rs:155-217 | The entries of all four graphs add up over the edges |
| ImpactGraphs.ReverseWeights | crates/cognis-core/src/graph.rs:169-202 | Summed over all parallel edges, reverse weights stay within the bounds of a single edge's factors |
| ImpactGraphs.ProjectionsAgree | crates/cognis-core/src/graph.rs:169-211 | Off the diagonal forward has (u, v) exactly when both reverse graphs have (v, u); symmetrized weight is the sum of both directions; reverse structural weight is within 0.45 and 1 times forward, reverse complexity within 0.05 and 256 times |
| ImpactGraphs.MetaDepthIsFaithfulIff | crates/cognis-core/src/graph.rs:190-201 | A metadata loop depth counts at face value, up to four, exactly when its low eight bits do |
| Complexity.EvalIsLeftmostGreatestProduct | crates/cognis-core/src/complexity.rs:164-222 | As long as bottom-up evaluation itself cuts no exponent off, evaluating any tree over constants, logarithms and polynomials gives the leftmost of greatest effective degree among all products of leaf choices, whatever becomes of the other products |
| Complexity.SmallTreesAreUnclamped | crates/cognis-core/src/complexity.rs:164-222 | Nothing is cut off in any tree whose leaves cannot reach beyond a byte, square roots included |
| Complexity.LeftmostOfProducts | crates/cognis-core/src/complexity.rs:164-222 | Nesting distributes over sequence: unless it is itself cut off, the product of the leftmost greatest factors is the leftmost greatest product |
| Complexity.NestingOrderIrrelevant | crates/cognis-core/src/complexity.rs:173-222 | Re-bracketing or reordering a nesting of such classes never changes the result, saturation included |
| Complexity.NestingAtMostHalfPerSqrt | crates/cognis-core/src/complexity.rs:131-222 | A nesting of non-exponential classes exceeds the sum of its leaves' degrees by at most one half per square root, less one half when the result is itself a square root |
| Complexity.NestLaw | crates/cognis-core/src/complexity.rs:131-222 | Nesting two non-exponential classes adds their degrees, with one half more when one is a square root and the other absorbs it, exactly when no exponent is cut off; otherwise the degree is less |
| Complexity.NestingMeans | crates/cognis-core/src/complexity.rs:173-222 | For all classes, which kind a nesting is: factorial if one side is, else exponential if one is, with the product of the bases between two and 255; otherwise exponents of n and log n add up to what a byte holds, an absorbed square root counting as a whole degree |
| Complexity.NestingIsSumIff | crates/cognis-core/src/complexity.rs:131-222 | In every bracketing the degree of a nesting is the sum of its leaves' degrees and one half for each square root absorbed, exactly when nothing is cut off anywhere; otherwise it is less |
| Complexity.NestingAtLeastSum | crates/cognis-core/src/complexity.rs:131-222 | If nothing is cut off in evaluating it, a nesting costs at least the sum of its leaves' degrees |
| Complexity.NestingAssociativeIff | crates/cognis-core/src/complexity.rs:173-222 | For all classes, nesting is associative exactly unless two adjacent square roots meet a class that absorbs them one at a time, or three exponentials have bases that multiply differently |
| Complexity.BasesAssociateIff | crates/cognis-core/src/complexity.rs:177-181 | Exactly which three bases multiply alike in either bracketing, saturation included |
| Complexity.SmallBasesNotAssociative | crates/cognis-core/src/complexity.rs:177-181 | Three bases that do not |
| Complexity.CongruenceIff | crates/cognis-core/src/complexity.rs:131-222 | Under a non-exponential class and without cutting off, equal degrees stay equal exactly when both sides gain or neither does; an exponential against another class needs one of degree zero |
| Complexity.MonotoneIff | crates/cognis-core/src/complexity.rs:131-222 | Likewise order is kept exactly when the lower class does not alone gain, or is lower by that gain; an exponential above must exceed all that is added |
| Complexity.SqrtBreaksCongruence | crates/cognis-core/src/complexity.rs:191-195 | Two classes of equal degree, one of which alone gains, part |
| Complexity.DocumentedOrder | crates/cognis-core/src/complexity.rs:131-140 | The named classes are in the documented order of dominance; exactly which powers of a logarithm stay below a square root, and which bases below a factorial |
| Complexity.ExponentialStands | crates/cognis-core/src/complexity.rs:131-170 | An exponential beats a polynomial in sequence exactly when 20 d + 5 p is at most 160 + 2 max(b, 2), a logarithm when 5 p is, and a factorial exactly when b is at least 20; one more base call above two adds two twentieths |
| Complexity.FactorialAndSqrtStand | crates/cognis-core/src/complexity.rs:131-170 | Exactly which polynomials and logarithms a factorial and a square root beat in sequence |
| ToggleMachine.RunKeepsInv | apps/cognis-mcp/src/toggle.ts:136-195 | Over any sets, reopens and settlements: an open transition is told to stop exactly when it is not the newest, and the newest one is on its slot with its value |
| ToggleMachine.DisplaysLastRequest | apps/cognis-mcp/src/toggle.ts:115-118 | The value displayed is always the last one asked for, or the one in force at the last reopen |
| ToggleMachine.OnlyNewestWrites | apps/cognis-mcp/src/toggle.ts:163-181 | Only the newest transition of a workspace changes its slot or its stored value; every other one was told to stop and ends without a trace |
| ToggleMachine.SingleSlot | apps/cognis-mcp/src/toggle.ts:150-155 | At most one transition of a workspace is at work without having been told to stop |
| ToggleMachine.OthersUntouched | apps/cognis-mcp/src/toggle.ts:245-253 | What happens to one workspace leaves the slots, transitions and stored values of all others as they were |
| ToggleMachine.InForceIsStoredIff | apps/cognis-mcp/src/toggle.ts:163-253 | After every run the value in force in a workspace is the stored one exactly when the last of its own writes was kept (or storage read the same anyway); other workspaces' lost writes do not matter |
| ToggleMachine.FirstSight | apps/cognis-mcp/src/toggle.ts:209-243 | Whatever happens elsewhere, a workspace not yet used shows its stored value, or Off when none is stored: then a request for Off is answered at once and one for On starts a transition |
| ToggleMachine.AnswersMean | apps/cognis-mcp/src/toggle.ts:136-161 | Which request is answered at once, which is ignored, and which starts a transition; a reopening answers the value in force |
| ToggleMachine.WriteEndsQuietly | apps/cognis-mcp/src/toggle.ts:174-181 | The end of a write changes nothing; its failure is reported exactly when the workspace was neither asked for another value nor reopened since |
| ToggleMachine.Convergence | apps/cognis-mcp/src/toggle.ts:136-181 | A transition whose value is not overruled brings it into force and into storage if it ends well (into force only, if the write is lost), and for good; if it fails, the value stays displayed and never comes into force |
| ToggleMachine.RequestServedUnlessStuck | apps/cognis-mcp/src/toggle.ts:136-161 | A request leaves its value in force or a transition at work towards it, exactly unless the last transition to it has failed; then nothing happens at all |
| ToggleControls.ToggleControl.constructor | apps/cognis-mcp/src/toggle.ts:109-112 | One slot for each toggle value in storage |
| ToggleControls.ToggleControl.Set | apps/cognis-mcp/src/toggle.ts:136-166 | The object takes exactly the machine's set step, up to the await |
| ToggleControls.ToggleControl.Settle | apps/cognis-mcp/src/toggle.ts:167-181 | Once the work has ended, the call takes exactly the machine's settle step on the slot it holds, up to where the write is awaited |
| ToggleControls.ToggleControl.EndWrite | apps/cognis-mcp/src/toggle.ts:174-180 | The failure of a write changes nothing, and is heard only while nothing newer was asked for |
| ToggleControls.ToggleControl.Reopen | apps/cognis-mcp/src/toggle.ts:187-194 | Exactly the machine's reopen step |
| ToggleControls.ToggleControl.Displayed | apps/cognis-mcp/src/toggle.ts:115-118 | Gives the machine's displayed value; looking makes a slot and changes nothing else |
| ToggleControls.ToggleControl.Persisted | apps/cognis-mcp/src/toggle.ts:121-123 | Gives the value in force, and changes nothing but making the slot |
| WatchLoops.World.WatchLoop | bins/cognis-indexd/src/lib.rs:243-311 | For all answers of clock, channel and disk: every received event falls into one window, the batches are those of the windows, and the published statuses are the transcript of the batches, complete exactly on success and otherwise cut short. The loop goes on until the stop flag is seen or the channel is closed, and then writes the last status; it breaks off at the first write, or start of the watcher, that fails |
| WatchLoops.World.DrainWindow | bins/cognis-indexd/src/lib.rs:276-293 | A window collects every event received in it, from the first on, and goes on exactly as long as it is open and events come |
| WatchLoops.World.CollectEvent | bins/cognis-indexd/src/lib.rs:408-426 | Adds exactly what one event reports |
| WatchLoops.CollectAllMeans | bins/cognis-indexd/src/lib.rs:408-426 | A window's collection is strictly ascending and holds exactly the unignored paths its create, modify and remove events report |
| WatchLoops.BatchesConserve | bins/cognis-indexd/src/lib.rs:276-299 | A path is in some batch exactly when some received event reports it and it is not ignored |
| WatchLoops.BatchedIff | bins/cognis-indexd/src/lib.rs:408-426 | A file below the root is in some batch exactly when some event says that it was created, modified or removed and no component on the way is ignored |
| WatchLoops.IgnoredIff | bins/cognis-indexd/src/lib.rs:460-468 | Ignored are exactly paths with an ignored name or `.cognis` among their components below the root, wherever the root lies |
| WatchLoops.TranscriptMeans | bins/cognis-indexd/src/lib.rs:255-308 | The statuses are starting, watching, then for each batch the batch and watching again, and stopped |
| Orders.LessPathIff | bins/cognis-indexd/src/lib.rs:278-296 | Batches are in the order of their first differing component, a directory before what it contains |
| WatchLoops.BatchesAreProper | bins/cognis-indexd/src/lib.rs:294-296 | Batches are non-empty, free of duplicates and free of ignored paths |
| WatchLoops.OwnWritesMakeNoBatch | bins/cognis-indexd/src/lib.rs:460-468 | Events inside the runtime directory alone make no batch, so the daemon does not wake itself |
| ServerHolds.Conserved | apps/cognis-mcp/src/mcpServer.ts:652-743 | In every possible run the count is client starts less graceful stops, plus tool calls not yet settled, plus the tool hold, plus what the lower bound has added; and it is zero only when killed |
| ServerHolds.PaddingIff | apps/cognis-mcp/src/mcpServer.ts:696-707 | The lower bound comes into play exactly when the hold is taken already and at least as many references have been given up as clients and unsettled calls account for |
| ServerHolds.FairRunsNeverPad | apps/cognis-mcp/src/mcpServer.ts:696-743 | If each graceful stop gives up a client's reference or comes between tool calls, the bound never comes into play, not even for a call whose server is stopped by force under it |
| ServerHolds.StopsNeeded | apps/cognis-mcp/src/mcpServer.ts:728-743 | It takes exactly as many graceful stops to end a server as its count says |
| ServerHolds.StopMeans | apps/cognis-mcp/src/mcpServer.ts:728-774 | A forced stop ends the server however many hold it, a graceful one when at most one does; a process no longer ours is let go instead; any other stop takes one reference and nothing else |
| ServerHolds.RunningIff | apps/cognis-mcp/src/mcpServer.ts:623-633 | A server counts as running exactly when its port was reached since it was last launched |
| ServerHolds.ToolCallsDoNotCount | apps/cognis-mcp/src/mcpServer.ts:684-707 | After any two such runs that leave as many clients and at least one settled tool call, equally many stops end the server: the clients and one |
| ServerHolds.ToolCallsKeepCount | apps/cognis-mcp/src/mcpServer.ts:696-707 | Any number of whole tool calls leaves the count of a server with a hold as it was |
| ServerHolds.StopDuringCallPads | apps/cognis-mcp/src/mcpServer.ts:701-704 | A run in which the bound does come into play |
| LaunchBooks.BooksBalance | apps/cognis-mcp/src/mcpServer.ts:603-743 | Over every run of starts, failed, retried and abandoned launches, exits, stops and tool calls, what callers have taken and not given back is the count, less what the lower bound has added to it, plus launchers between attempts and holds forgotten, less launches revived |
| LaunchBooks.ForgottenIff | apps/cognis-mcp/src/mcpServer.ts:652-681 | No hold is forgotten exactly when no launch fails or is replaced under anyone but its launcher, and no launch is revived exactly when none fails after all its holds were given back |
| LaunchBooks.CountIsHoldsIff | apps/cognis-mcp/src/mcpServer.ts:652-743 | The count is what callers hold exactly when as many holds were forgotten as launches revived and references added by the lower bound; in fair runs, if no launch was given up early, exactly when nobody else held a launch that failed |
| LaunchBooks.RetryForgetsJoiners | apps/cognis-mcp/src/mcpServer.ts:652-669 | Launching again after a failure keeps the count exactly when the launch had one caller, and otherwise loses all the others |
| LaunchBooks.JoinerIsForgotten | apps/cognis-mcp/src/mcpServer.ts:652-669 | A run in which two clients hold a server with a count of one |
| LaunchBooks.StoppedLaunchReturns | apps/cognis-mcp/src/mcpServer.ts:603-621 | A run in which a launch that its only client gave up comes back with a count of one |
| McpServers.Servers.StartMcpServer | apps/cognis-mcp/src/mcpServer.ts:652-669 | Joins the server that is there or launches one; other repositories are untouched |
| McpServers.Servers.BoundToolHold | apps/cognis-mcp/src/mcpServer.ts:696-707 | Exactly the settling step of one tool call |
| McpServers.Servers.StopMcpServer | apps/cognis-mcp/src/mcpServer.ts:728-774 | Exactly the stop step: a graceful stop gives up one reference, the last one or a forced one kills, and a process that is no longer ours is forgotten instead |
| McpServers.Servers.OnBound | apps/cognis-mcp/src/mcpServer.ts:623-633 | Only the handle still in place becomes running |
| McpServers.Servers.OnExit | apps/cognis-mcp/src/mcpServer.ts:603-621 | An exit removes its own handle and never a newer one |
| McpServers.Servers.GiveUp | apps/cognis-mcp/src/mcpServer.ts:674-681 | A start whose last attempt has failed removes whatever handle is there |
| Ownership.PlanOwnership | apps/cognis-mcp/src/mcpCanonical.ts:233-264 | The loop and the sort compute the plan |
| Ownership.PlanMeans | apps/cognis-mcp/src/mcpCanonical.ts:233-264 | The plan is strictly sorted and holds exactly the first input for each root, database path and host |
| Ownership.PlanOrder | apps/cognis-mcp/src/mcpCanonical.ts:255-263 | Entries stand in the order of root and database path, and of the host where these are the same |
| Orders.LessStringIff | apps/cognis-mcp/src/mcpCanonical.ts:255-263 | Strings are compared where they first differ, and a beginning comes before the whole |
| Ownership.PlanHasSlots | apps/cognis-mcp/src/mcpCanonical.ts:215-226 | It has an entry for exactly the slots asked for |
| Ownership.SlotKeysTellApart | apps/cognis-mcp/src/mcpCanonical.ts:121-128 | Keys joined by NUL identify the slot, as long as neither root nor host contains a NUL |
| Ownership.NulConfuses | apps/cognis-mcp/src/mcpCanonical.ts:121-128 | Any slot with a NUL in root or host shares its key with another that has none there |
| Ownership.PlanIsDeterministic | apps/cognis-mcp/src/mcpCanonical.ts:229-231 | Slots and their order depend only on which slots are asked for, not on the order or repetition of the inputs |
| Ownership.AgreedPlan | apps/cognis-mcp/src/mcpCanonical.ts:240-244 | If the inputs of a slot spell their repository alike the whole plan is the same in every order |
| Ownership.DisagreedPlan | apps/cognis-mcp/src/mcpCanonical.ts:240-244 | If they do not, two orders of the inputs have different plans |
| Endpoints.ParseIsNormal | bins/cognis-mcpd/src/proxy.rs:99-129 | A target parses to itself exactly when it is in canonical form |
| Endpoints.ParsedIsProper | bins/cognis-mcpd/src/proxy.rs:99-129 | Every accepted address gives a target in canonical form, so that parsing twice is parsing once |
| Endpoints.ParseAddress | bins/cognis-mcpd/src/proxy.rs:99-129 | Whatever blanks surround it, either scheme with a host and port without separators, and with a path or none, is accepted exactly when host and port are proper, and gives that host, that port, their canonical address, and the trimmed credential and fingerprint |
| Endpoints.ParsedIsAddress | bins/cognis-mcpd/src/proxy.rs:99-129 | Nothing but such an address is accepted |
| Endpoints.PortTextMeans | bins/cognis-mcpd/src/proxy.rs:116 | A plus sign and leading zeros change nothing; a minus sign, a second plus sign, a blank and the empty text are refused |
| Endpoints.PortNumberMeans | bins/cognis-mcpd/src/proxy.rs:116 | A number in decimal is accepted exactly when it fits sixteen bits |
| Endpoints.PrintMeans | bins/cognis-mcpd/src/proxy.rs:121 | Numbers are printed in decimal without leading zeros |
| Endpoints.LowerMeans | bins/cognis-mcpd/src/proxy.rs:127 | Lowering changes capital letters into their small ones, and nothing else |
| Endpoints.PortRoundTrip | bins/cognis-mcpd/src/proxy.rs:115-121 | A printed 16-bit port parses to itself |
| Endpoints.FileRoundTripIff | bins/cognis-mcpd/src/proxy.rs:152-198 | A target survives writing and reading exactly when no field has a line break and a fingerprint comes with a credential |
| Endpoints.FileText | bins/cognis-mcpd/src/proxy.rs:152-177 | The file holds one line each for the address, the credential if there is one, and below it the fingerprint if there is one |
| Endpoints.FieldsMean | bins/cognis-mcpd/src/proxy.rs:192-193 | A reader takes the lines one by one, whichever way they end, trims them, and passes over blank ones |
| Endpoints.ReadLines | bins/cognis-mcpd/src/proxy.rs:189-198 | Of the lines that are not blank the first three matter, and the last two of them may be missing |
| Endpoints.ReadFingerprint | apps/cognis-mcp/src/mcpServer.ts:351-358 | The extension takes the third line that is not blank, and nothing when there are fewer |
| Endpoints.BlankMeans | bins/cognis-mcpd/src/proxy.rs:192-193 | The two languages trim the same characters but two |
| Endpoints.ExtensionAgreesIff | apps/cognis-mcp/src/mcpServer.ts:351-358 | The extension reads the same fingerprint exactly when its own trimming leaves it whole and leaves something of the credential |
| Endpoints.PortsAgree | bins/cognis-mcpd/src/proxy.rs:219-239 | 16-bit wrapping never shows: the port is the extension's formula on the same digest, and lies in the dynamic range |
| Endpoints.PortsDifferIff | bins/cognis-mcpd/src/proxy.rs:219-239 | Two offsets give the same port exactly when they are congruent modulo the size of the range |

## Left out

- Path canonicalization, the hash in derived server names, digests and credentials: file-system and foreign calls; their
  results are inputs of the models.
- JSON and YAML syntax, key order in files, the temporary sibling and directory creation of an atomic write: a configuration
  file is a typed map with a layout, or does not parse.
- The text of backup names: a backup is named by its file, timestamp and number.
- The audit trail, messages and `movedServerNames` of a migration outcome: they repeat the plan and the steps taken.
- Two migrations at once in one process: the routine does not await, so the held lock is seen only when entered from outside.
- Contents of the scanner's regular expressions, its texts, and the diagnostics controller.
- Floating-point rounding, infinities and not-a-number in weights and confidences.
- `ComplexityClass::notation` and `risk_weight`: printing and a table.
- A transition that aborts its own control synchronously while being started, and `reloadFromStorage`, a seam for tests.
- Processes, sockets, watcher registration beyond its failure, and the indexing of a batch: outcomes are arbitrary. Events
  still in the channel when the loop stops are not received and so not conserved.
- The contents of a published status beyond its kind and batch, and a rejected watcher event's error.
- Lease files and the bookkeeping around them; the lease check of a stop is an input.
- `dedupeCognisOwnersByIdentity`: a filter over one map, which would add only easy members.
- Writing the endpoint file through a rename with retries: the model is about its text.
- The order of strings is that of code points; the extension compares UTF-16 units, which differs beyond the basic plane but
  is a total order all the same.
- Endpoints.ParseIsNormal: does not model host syntax, because the source checks only that a host is not empty.
- CodeGraphBuilder.Accumulate: does not model the cast of node numbers in the accumulator, which differs from casting them
  when they are written only beyond 2^31 nodes, where no graph represents its triples.
- Complexity.CongruenceIff: does not cover nesting under an exponential or factorial class, because there the degree of the
  result no longer comes from the degree of the other side.
- The push solver, lease acquisition, indexer and stores: their code is not part of this model.
