# Mokumo in Dafny: server state, migrations, scorecard

This project models the stateful core of Mokumo, a self-hosted shop application
(the `mokumo-shop` server on the `kikan` platform crates), and of its CI scorecard, and
proves what that code keeps over whole runs.

| file | models |
|---|---|
| `RateLimit.dfy` | the sliding-window rate limiter: a mutable table of attempts per key, pruned on each check |
| `Server.dfy`, `ServerProperties.dfy` | one process and its data directory: boot, setup, profile switch behind the automatic demo login, admin switch and restore, each file, session and database call of which may fail |
| `RestoreProtocol.dfy` | restore and validate requests in flight together, one atomic access per step, interleaved freely, dropped anywhere they wait |
| `SwitchRace.dfy` | profile switches in flight together: rename on disk, store in memory |
| `LayoutMigration.dfy` | the start-up migration from the flat layout, cut off anywhere and rerun |
| `MigrationOrder.dfy`, `MigrationDag.dfy`, `CycleSearch.dfy`, `MigrationResolve.dfy` | the dependency resolver: checks, Kahn's algorithm with a priority heap, and the depth-first search that names a cycle |
| `MigrationTargets.dfy` | what that order owes to the migrations' targets |
| `MigrationRunner.dfy` | applying the resolved order to the databases of an installation, over interrupted and repeated runs |
| `ProfileKinds.dfy` | boot-time validation of profile kinds and the snapshot requests are answered from |
| `FeatureParser.dfy`, `FeatureText.dfy`, `BddCorpus.dfy` | the line-driven `.feature` parser with its pending tags, files as they are written, and the fold into workspace and crate tallies |
| `Breakouts.dfy`, `CoverageRow.dfy` | the sorted wire form of handler coverage, thresholds, and the coloured row with its explanation |
| `Slug.dfy` | the slug canonicaliser, a byte loop with an algebraic specification |
| `Pagination.dfy`, `LineCounter.dfy` | page arithmetic with 32-bit saturation, and the incremental line counter |
| `Text.dfy` | shared strings, `Option` and `Result`, and the `active_profile` file |

Code that changes state step by step is a class or a loop, proved equal to a function of the
old state (`Server.Process.RestoreHandler` to `RestoreStep`, `RateLimiter.CheckAndRecord` to
`Record`, `KahnSort` to `Plan`); the lemmas are about those functions. Failures are
arguments: a `Faults` record says how each call of an operation goes, so a statement for all
faults covers every pattern of failure. Time is a natural number per call, in the order in
which the entry lock is taken.

`dafny verify dfyconfig.toml` checks the whole project. Lemmas are marked
`{:induction false}`: every induction is the recursive call written in the proof.

## Where the code and its documentation differ

The model follows the code.

- `crates/kikan/src/control_plane/profiles.rs:149-152` says the write lock is held across
  rename and flip; it is taken after the rename. `SwitchRace.OverlappingSwitchesDisagree` is
  the consequence, `AlwaysAgreesIffSameTargets` the exact condition, and
  `ExclusiveSwitchesAgree` what the comment would have given.
- `crates/kikan/src/migrations/dag.rs:154-206` is to name a cycle. The search starts at the
  first stuck migration and follows dependents only, so when that one merely depends on a
  cycle it lists every stuck migration. `MigrationResolve.CycleIsNamedIff` has the exact
  condition, `CycleErrorMayNameNoCycle` an input.
- `crates/kikan/tests/features/migration_ordering.feature:22-25` promises Meta migrations
  before PerProfile ones. `MigrationTargets.MetaBeforePerProfileIff` says exactly when the
  heap's priority gives that, `MetaBeforePerProfileByKey` without mention of the plan where
  Backup migrations do not need each other, and `MetaMayBeOvertaken` has an accepted input
  on which it does not.
- `crates/kikan/src/migrations/runner.rs:52-57` takes a dependency to be satisfied because
  Meta runs first. Session and Backup migrations are never run at boot, yet may be depended
  on: `MigrationRunner.DependencyIsMetIff` is the exact condition,
  `UnmetDependencyIsAccepted` an accepted input.
- `crates/mokumo-shop/src/startup.rs:69-78` calls the layout migration idempotent and safe,
  and its steps 2 and 3 leave out that both need the flat file. Reruns converge unless a copy
  or the profile write was cut short; the two `...Intact` lemmas have the exact conditions.
- `crates/mokumo-shop/src/profile_switch.rs:213-216` means to abort the switch when the
  email cannot be stored. It rolls back the profile but not the login, and under demo the
  layer in front (`crates/mokumo-shop/src/auth/handlers.rs:264-293`) logs the demo admin into
  any session without a login, so a failed switch can lose the way back in two ways. Which
  sessions are stored is up to the session library, which is not part of this model and
  enters as parameters. `ServerProperties.EmailSurvivesIff` says exactly when the way back is
  lost, `InsertFailureLosesTheEmail` and `LoginFailureLosesTheEmail` have an input each.
- `crates/mokumo-shop/src/admin/profile_switch.rs:12-19` selects a profile without ending
  first launch, so a restore may follow; if its sentinel fails, its rollback removes the file
  the switch wrote (`ServerProperties.AdminSwitchBreaksAgreement`, and
  `EveryFailedRestoreKeepsProfileIff` for the exact condition).
- `crates/kikan/src/backup/restore.rs:212-268` refuses a filled slot by a check before the
  rename. A foreign process can create the file in between; `RestoreProtocol.PlacedFileSurvivesIff`
  is the exact condition, `PlacedDuringCopyIsOverwritten` a run.
- `crates/mokumo-shop/src/restore_handler.rs:282-283` says the guard is held for the entire
  operation. A request dropped during its copy releases it (`:83-87`) while the blocking task
  (`:305-310`) runs on, and another restore can fall in between.
  `RestoreProtocol.DropIsHarmlessIff` is the exact condition,
  `DroppedCopyOverwritesARestore` a run.
- `crates/scorecard/src/aggregate.rs:584` and `:596` say tag counters count files and
  scenarios; the code counts occurrences. `BddCorpus.OncePerFileIff` and
  `OncePerCorpusScenarioIff` have the exact conditions, `RepeatedTagsCountTwice` the inputs.
- `crates/scorecard/src/aggregate.rs:2499-2504` says a delta at equal thresholds lands
  Yellow; the resolver tests Red first (`Thresholds.EqualThresholdsAreRed`).
- `tools/bdd-lint/src/extract-rust.ts:25-36` is right for the ordered offsets it gets;
  `LineCounter.AllRightIff` says which other runs it would also answer.

## Model

| member | source | states |
|---|---|---|
| `RateLimit.RateLimiter.CheckAndRecord` | crates/kikan/src/rate_limit.rs:35-48 | the verdict is whether fewer than the limit of stored attempts are young enough; the entry of the lowercased key changes as the specification says, every other key's entry not at all |
| `RateLimit.RateLimiter.constructor` | crates/kikan/src/rate_limit.rs:24-30 | a new limiter holds no attempts |
| `RateLimit.RecordTracks` | crates/kikan/src/rate_limit.rs:35-48 | on the state of all keys together, each key's entry is the one its own calls alone would give: a verdict depends only on the calls with the same lowercased key |
| `RateLimit.WindowBound` | crates/kikan/src/rate_limit.rs:35-48 | in every run whose readings fall back by at most `d`, each half-open interval of length `window - d` holds at most the limit of accepted attempts; `d = 0` is the exact sliding-window bound |
| `RateLimit.SkewBoundIsTight` | crates/kikan/src/rate_limit.rs:36-47 | the interval cannot be one tick longer: for every limit from two on, every window and every positive skew within it, a run puts twice the limit less one accepted attempts into it |
| `RateLimit.PruningIsInvisible` | crates/kikan/src/rate_limit.rs:38-47 | with a clock that does not go back, pruning gives the same verdict on every call as a ledger that keeps every accepted attempt and counts the young ones |
| `RateLimit.RejectedCallIsNoOp` | crates/kikan/src/rate_limit.rs:42-44 | with any clock, a rejected call leaves the entry exactly as it was |
| `RateLimit.DeletingRejectedCall` | crates/kikan/src/rate_limit.rs:42-44 | deleting a rejected call from any run changes no later verdict |
| `RestoreProtocol.AtMostOneGuard` | crates/mokumo-shop/src/restore_handler.rs:36-87 | over every interleaving of any number of validate and restore requests, any of which may be dropped while it waits, at most one guard is live and the flag is set exactly while one is |
| `RestoreProtocol.GuardSawFirstLaunch` | crates/mokumo-shop/src/restore_handler.rs:66-80 | whoever holds a guard read first-launch as set after winning the flag |
| `RestoreProtocol.NoGuardOnceCleared` | crates/mokumo-shop/src/restore_handler.rs:66-80 | once a setup or a switch has cleared first launch, nobody gets a guard any more, however far a request had come |
| `RestoreProtocol.FilledSlotIsNeverOverwritten` | crates/mokumo-shop/src/restore_handler.rs:305-378 | at every point of every run a filled slot stays as it is or is emptied by the rollback of the very thread that filled it, as long as no outsider creates the file between a copy's check and its rename and no request is dropped during its copy while another restore may still fill the slot |
| `RestoreProtocol.FoundFileSurvives` | crates/kikan/src/backup/restore.rs:217-222 | a production file that was there first is there after every such run |
| `RestoreProtocol.RestoredOnceAndForGood` | crates/mokumo-shop/src/restore_handler.rs:305-391 | in every such run at most one restore succeeds; its candidate stays in the slot however the run goes on |
| `RestoreProtocol.ShutdownIffRestored` | crates/mokumo-shop/src/restore_handler.rs:380-385 | in every such run shutdown is scheduled exactly when some restore succeeded; one that failed without admitting an incomplete rollback leaves nothing of its own in the slot |
| `RestoreProtocol.PlacedFileSurvivesIff` | crates/kikan/src/backup/restore.rs:217-265 | in every state with an empty slot reached by such a run, a file placed from outside survives every continuation of that kind exactly when no copy is between its check and its rename; otherwise the copy's next step overwrites it |
| `RestoreProtocol.PlacedDuringCopyIsOverwritten` | crates/kikan/src/backup/restore.rs:219-265 | that happens: from every start that allows a restore, the run in which the request takes its steps up to the copy, the file is placed and the copy renames, overwrites it |
| `RestoreProtocol.ProfileChangesIff` | crates/mokumo-shop/src/restore_handler.rs:318-378 | the profile file changes by others' writes, by the rename of a restore and by the rollback of one, and in no other way |
| `RestoreProtocol.RollbackRemovesAnothersProfile` | crates/mokumo-shop/src/restore_handler.rs:364-375 | the rollback does not look whose file it removes: from every start that allows a restore, a run in which it removes one written by somebody else in between |
| `RestoreProtocol.DropIsHarmlessIff` | crates/mokumo-shop/src/restore_handler.rs:83-310 | in every state reached by such a run, dropping a waiting request leaves every filled slot safe in all such continuations exactly when it is not in its copy, or first launch is over, or the slot is full for good |
| `RestoreProtocol.DroppedCopyOverwritesARestore` | crates/mokumo-shop/src/restore_handler.rs:302-310 | otherwise some such continuation has another restore answer success, and the next step of the copy left behind overwrites its file |
| `RestoreProtocol.DropReleasesGuard` | crates/mokumo-shop/src/restore_handler.rs:83-87 | a request can be dropped wherever it holds the guard and has not answered, which clears the flag and nothing else |
| `RestoreProtocol.DetachedCallRunsOn` | crates/mokumo-shop/src/restore_handler.rs:305-316 | a blocking call left behind has the effect it would have had; a copy goes on to its rename, any other call is the last |
| `RestoreProtocol.EveryStepMakesProgress` | crates/mokumo-shop/src/restore_handler.rs:278-391 | every step of a thread that is not done brings it closer to done, so every request ends |
| `RestoreProtocol.SoloRunIsTheHandler` | crates/mokumo-shop/src/restore_handler.rs:278-391 | a restore thread stepped alone leaves flag, first-launch bit, slot, profile file and shutdown as the sequential handler does, and gives its answer |
| `Server.Process.constructor` | crates/mokumo-shop/src/startup.rs:54-67 | a new process's memory, first-launch bit and slot follow from the directory it finds |
| `Server.Process.VerticalSetup` | crates/mokumo-shop/src/setup.rs:56-160 | the whole state after setup: memory flips only if the file was replaced, first-launch is cleared either way |
| `Server.Process.PersistAndFlip` | crates/kikan/src/control_plane/profiles.rs:153-220 | an error changes nothing; success changes file and memory together and returns the previous profile |
| `Server.Process.RestoreProfile` | crates/mokumo-shop/src/profile_switch.rs:172-184 | a rollback restores memory always and the file if its write goes through |
| `Server.Process.ProfileSwitch` | crates/mokumo-shop/src/profile_switch.rs:60-256 | state, answer, looked-up email and the session the next request finds, for every way the steps can fail and whatever the layer in front did to the session |
| `Server.Process.PassLayer` | crates/mokumo-shop/src/auth/handlers.rs:243-302 | the layer in front of protected routes: refused with the session untouched, by the first of its checks that fails, or handed on, with the demo admin logged in when demo is active and nobody was |
| `Server.Process.SwitchRoute` | crates/mokumo-shop/src/routes.rs:84-107 | the layer and the handler together: state, answer, lookup and stored session of a request to switch |
| `Server.Process.SwapSession` | crates/mokumo-shop/src/profile_switch.rs:166-240 | the session part: what logout, login and insert leave, by step, and the rollback of the profile when one of them fails |
| `Server.Process.AcquireGuard` | crates/mokumo-shop/src/restore_handler.rs:36-81 | check, compare-and-swap and re-check: the guard is held exactly when nothing refuses it |
| `ServerProperties.GuardHeldIff` | crates/mokumo-shop/src/restore_handler.rs:36-81 | the guard is given exactly on first launch with an empty slot, none in progress and the bit still set; while it is held nobody else gets it |
| `Server.Process.CopyToProduction` | crates/kikan/src/backup/restore.rs:212-268 | a filled slot is refused and kept; otherwise the slot holds the candidate exactly on success |
| `Server.Process.Commit` | crates/mokumo-shop/src/restore_handler.rs:286-391 | the three-stage commit with its rollbacks, for every pattern of failing file calls |
| `Server.Process.RestoreHandler` | crates/mokumo-shop/src/restore_handler.rs:278-391 | acquire, commit, release: the flag is released on every exit |
| `ServerProperties.IncompleteDemoRefuses` | crates/mokumo-shop/src/auth/handlers.rs:255-262 | while demo is active and its install incomplete, every request to switch is answered with that and changes nothing, and any other request leaves the session alone |
| `ServerProperties.RefusedBeforeHandlerIff` | crates/mokumo-shop/src/auth/handlers.rs:251-300 | who is turned away before the handler, with the exact cause of each answer, and that nothing is looked up or changed then but a demo login |
| `ServerProperties.VisitLogsInIff` | crates/mokumo-shop/src/auth/handlers.rs:267-293 | any other request changes the session exactly by logging the demo admin in, and exactly when demo is active, installed and nobody is logged in, and lookup, login and storing succeed |
| `ServerProperties.SwitchRefusesIff` | crates/mokumo-shop/src/profile_switch.rs:60-164 | each refusal of the handler with its exact cause, and when an account is looked up |
| `ServerProperties.RefusedSwitchKeepsSession` | crates/mokumo-shop/src/profile_switch.rs:60-164 | a refused switch leaves the session alone, but for the layer's demo login, which stays exactly if the answer stores the session |
| `ServerProperties.SwitchAnswersIff` | crates/mokumo-shop/src/profile_switch.rs:166-256 | each answer after the flip with its exact cause |
| `ServerProperties.SwitchChangesIff` | crates/mokumo-shop/src/profile_switch.rs:135-256 | the node changes only if the session calls are reached; a success selects the target, ends first launch, logs in the account looked up and carries the production email to demo; a failure leaves the old profile, and what its rollback could write of the file |
| `ServerProperties.RestoreRefusesIff` | crates/mokumo-shop/src/restore_handler.rs:36-316 | each refusal of a restore with its exact cause, none of which changes anything but a first-launch bit another request clears |
| `ServerProperties.RestoreAnswersIff` | crates/mokumo-shop/src/restore_handler.rs:318-391 | once the candidate is copied: each answer with its exact cause, and what is left of slot, sentinel and tmp file |
| `ServerProperties.RestorableIff` | crates/mokumo-shop/src/restore_handler.rs:36-81 | some restore can succeed exactly on first launch with an empty slot and none in progress |
| `ServerProperties.SetupAnswersIff` | crates/mokumo-shop/src/setup.rs:56-160 | each answer of setup with its exact cause; only a complete one changes anything, ends first launch and selects production if the profile can be written |
| `ServerProperties.BootFindsIff` | crates/mokumo-shop/src/startup.rs:54-67 | a new process is in first launch exactly if no profile was selected and there is no flat file, and on production exactly if the file says so or there is one; slot, tmp file and sentinel are as found |
| `ServerProperties.RestartAfterRestore` | crates/mokumo-shop/src/restore_handler.rs:318-391 | a restart after Ok comes up as production on the restored data, for good; after a clean failure on first launch it is a first launch that admits a restore |
| `ServerProperties.FirstLaunchIff` | crates/kikan/src/engine.rs:252 | over every run, first launch lasts from the last restart that found none selected until a complete setup, a successful switch, or a bit cleared under a restore |
| `ServerProperties.RestoreEndsInOneOfThreeWays` | crates/mokumo-shop/src/restore_handler.rs:278-391 | from an empty slot under a demo profile: Ok with candidate, production on disk, sentinel and shutdown; or the incomplete-rollback error; or an error with the slot empty and demo still selected; shutdown only on Ok |
| `ServerProperties.FailedRestoreKeepsProfileIff` | crates/mokumo-shop/src/restore_handler.rs:355-378 | from any directory: a cleanly failed restore leaves the slot as it was, and the profile a restart resolves too, except exactly when the guard admits the request, every step up to the sentinel succeeds and the profile resolved to production |
| `ServerProperties.EveryFailedRestoreKeepsProfileIff` | crates/mokumo-shop/src/restore_handler.rs:355-378 | every clean failure keeps the profile exactly when that resolves to demo or the guard refuses the node |
| `ServerProperties.IncompleteIffResidue` | crates/mokumo-shop/src/restore_handler.rs:324-374 | the incomplete-rollback error is given exactly when something was left in the slot or production was left selected |
| `ServerProperties.RestoreNeverOverwrites` | crates/mokumo-shop/src/restore_handler.rs:49-56 | a filled slot and the profile file survive every restore |
| `ServerProperties.CommitNeverOverwrites` | crates/kikan/src/backup/restore.rs:217-222 | past the guard, the copy's own check refuses a slot filled by then and changes nothing |
| `ServerProperties.MemoryDiffersFromDiskIff` | crates/mokumo-shop/src/profile_switch.rs:135-256 | over every run of boots, setups, switches, admin switches and restores, memory differs from what a restart would resolve exactly after a restore that left production selected, after a switch whose rollback write failed, or after a complete rollback removed the file under a production memory |
| `ServerProperties.MemoryAgreesWithDiskUnlessExcused` | crates/mokumo-shop/src/profile_switch.rs:135-256 | without admin switches only the first two reasons remain |
| `ServerProperties.FirstLaunchStaysDemo` | crates/kikan/src/engine.rs:252 | without admin switches, memory says demo for as long as the first-launch bit is set |
| `ServerProperties.AdminSwitchBreaksAgreement` | crates/mokumo-shop/src/admin/profile_switch.rs:12-19 | a concrete run with an admin switch in which memory and disk differ after a complete rollback |
| `ServerProperties.EveryReturnLooksUpTheSameEmail` | crates/mokumo-shop/src/profile_switch.rs:103-129 | over every run of switches in which session calls succeed, mixed with any other requests and changes of profile, started as production user `e`: each switch to production looks up `e`, and the session is always production as `e` or demo carrying `e` |
| `ServerProperties.EmailSurvivesIff` | crates/mokumo-shop/src/profile_switch.rs:51-240 | over every run of switches, other requests and changes of profile by others, whatever fails, behind the automatic demo login: at every point a switch to production would look up `e`, or nobody is logged in, exactly when no event loses the email. One does that gets to the session calls with an email that logout drops or never carried, and either switches to demo, fails between login and carrying, and has its session stored with the error answer, or fails leaving nobody logged in under demo; or one that selects demo for an empty session |
| `ServerProperties.InsertFailureLosesTheEmail` | crates/mokumo-shop/src/profile_switch.rs:213-240 | when only storing the carried email fails, the profile is rolled back, in the file if that write succeeds, and the way back is lost exactly when logout left no email and the session is stored with the error answer, or logout emptied the session, it is not stored and demo was active |
| `ServerProperties.LoginFailureLosesTheEmail` | crates/mokumo-shop/src/profile_switch.rs:189-211 | from demo carrying `e`, a switch back whose logout empties the session and whose login fails leaves demo active and nobody logged in; the layer logs the demo admin in and the next switch to production looks that up |
| `SwitchRace.LastWritesWin` | crates/kikan/src/control_plane/profiles.rs:153-220 | over every interleaving of any number of switches, disk holds the target renamed last and memory the one stored last |
| `SwitchRace.StepsOfEachSwitch` | crates/kikan/src/control_plane/profiles.rs:153-220 | in every run a switch renames once and then stores once, or fails once, and does nothing else |
| `SwitchRace.AlwaysAgreesIffSameTargets` | crates/kikan/src/control_plane/profiles.rs:153-220 | every run that leaves no switch half done ends with disk and memory in agreement, exactly when all the switches have one target |
| `SwitchRace.ExclusiveSwitchesAgree` | crates/kikan/src/control_plane/profiles.rs:147-152 | were rename and store one critical section, disk and memory would agree whenever nobody is inside it |
| `SwitchRace.OverlappingSwitchesDisagree` | crates/kikan/src/control_plane/profiles.rs:180-206 | two switches to different profiles both succeed and leave memory on one and disk on the other |
| `SetupProfile.WriteThenResolve` | crates/kikan-types/src/profile.rs:18-50 | writing a profile and resolving the file gives it back |
| `SetupProfile.ParseIff` | crates/kikan-types/src/profile.rs:18-50 | a profile name is recognised in letters of either case, framed by any space, and nothing else is |
| `SetupProfile.ResolvesToProductionIff` | crates/mokumo-shop/src/startup.rs:54-67 | the profile file selects production exactly when it can be read and says so |
| `SetupProfile.TornWriteResolvesToDemo` | crates/mokumo-shop/src/startup.rs:54-67 | every proper prefix of a written production selection resolves to demo |
| `LayoutMigration.DataDir.MigrateFlatLayout` | crates/mokumo-shop/src/startup.rs:79-117 | the directory after a run, whether complete or cut off before, within or after any file call |
| `LayoutMigration.CompleteRun` | crates/mokumo-shop/src/startup.rs:69-79 | what an uninterrupted run leaves: no flat file, production with its old bytes or else the flat ones, production selected if nothing was |
| `LayoutMigration.FinishedIff` | crates/mokumo-shop/src/startup.rs:79-128 | a run that says it finished has done all of it, and a flat file is gone exactly then |
| `LayoutMigration.RestartConverges` | crates/mokumo-shop/src/startup.rs:71-117 | any number of runs cut off between calls, then a complete one, end as a single uninterrupted run |
| `LayoutMigration.BytesNeverLost` | crates/mokumo-shop/src/startup.rs:89-110 | while runs are cut off between calls, the flat bytes are in the flat or the production slot at every point |
| `LayoutMigration.BytesArriveIffCopyIntact` | crates/mokumo-shop/src/startup.rs:89-110 | when a copy may be torn, the flat bytes reach production exactly if the first copy to start was not cut short |
| `LayoutMigration.ProductionSelectedIffProfileIntact` | crates/mokumo-shop/src/startup.rs:104-107 | when a profile write may be torn, a migrated install comes up as production exactly if the first one to start was not cut short |
| `LayoutMigration.ProductionFrozen` | crates/mokumo-shop/src/startup.rs:87-89 | once there is a production file, no run changes its bytes, whatever they are |
| `MigrationOrder.PlanIsCompleteIffOrderable` | crates/kikan/src/migrations/dag.rs:111-151 | the order reaches every migration exactly when some valid order exists, and then it is one: each migration once, after all it depends on |
| `MigrationOrder.PlanRespectsDependencies` | crates/kikan/src/migrations/dag.rs:126-145 | even when not all can be placed, each placed migration comes after all it depends on |
| `MigrationOrder.PlanIsLeast` | crates/kikan/src/migrations/dag.rs:126-145 | of all valid orders it is the least by target, graft and name: where another first departs from it, the other has the larger key |
| `MigrationOrder.PlanFollowsKeys` | crates/kikan/src/migrations/dag.rs:117-127 | no migration that could have stood at a place of the order has an earlier target than the one there, or a smaller graft in the same target, or a smaller name in the same graft |
| `MigrationOrder.PlanIsTheKeyOrder` | crates/kikan/src/migrations/dag.rs:117-145 | a valid order does that exactly if it is the plan |
| `MigrationOrder.IndependentOnesAreGrouped` | crates/kikan/src/migrations/dag.rs:117-127 | migrations of one target without dependencies come graft by graft, and by name within each |
| `MigrationOrder.StuckIffCycle` | crates/kikan/src/migrations/dag.rs:146-149 | some migration cannot be placed exactly when dependencies form a cycle |
| `MigrationOrder.StuckIffNeedsCycle` | crates/kikan/src/migrations/dag.rs:126-149 | each single migration cannot be placed exactly when it needs, directly or not, a member of a cycle or is one |
| `MigrationOrder.CyclesAreStuck` | crates/kikan/src/migrations/dag.rs:126-149 | no member of a cycle is ever placed |
| `MigrationTargets.MetaFirstIffClosed` | crates/kikan/tests/features/migration_ordering.feature:22-25 | Meta migrations come before all others exactly when they depend on Meta migrations only |
| `MigrationTargets.MetaBeforePerProfileIff` | crates/kikan/tests/features/migration_ordering.feature:22-25 | Meta migrations come before PerProfile ones exactly when no Meta migration needs a PerProfile one, directly or not, and none needs a Backup migration placed after all the Backup migrations some PerProfile one needs |
| `MigrationTargets.MetaBeforePerProfilePlainly` | crates/kikan/src/migrations/dag.rs:67-145 | needing Meta and Session migrations only is enough, and it is the exact condition as soon as some PerProfile migration waits for no Backup one |
| `MigrationTargets.MetaBeforePerProfileByKey` | crates/kikan/src/migrations/dag.rs:126-145 | when no Backup migration needs another, the exact condition without the plan: no Meta migration needs a PerProfile one, nor a Backup one whose key is greater than those of all the Backup migrations some PerProfile one needs |
| `MigrationTargets.MetaMayBeOvertaken` | crates/kikan/src/migrations/dag.rs:67-89 | a registration that resolution accepts and plans with a PerProfile migration before a Meta one that waits for a Backup one |
| `MigrationDag.CheckDuplicates` | crates/kikan/src/migrations/dag.rs:25-37 | no error exactly when no graft and name repeat; the error names the first repetition |
| `MigrationDag.RefIndex` | crates/kikan/src/migrations/dag.rs:39-45 | the index holds exactly the registered names, each at a position of that name |
| `MigrationDag.CheckDanglingRefs` | crates/kikan/src/migrations/dag.rs:47-65 | no error exactly when every dependency is registered; the error names one that is not, of the first migration that has one |
| `MigrationDag.CheckCrossTargetViolations` | crates/kikan/src/migrations/dag.rs:67-89 | no error exactly when no Meta migration depends on a PerProfile one; the error names such a pair, of the first that has one |
| `MigrationDag.WellFormedIff` | crates/kikan/src/migrations/dag.rs:25-89 | the three checks together: no graft and name twice, every dependency registered, no Meta migration depending on a PerProfile one |
| `MigrationDag.BuildAdjacency` | crates/kikan/src/migrations/dag.rs:91-109 | the lists hold each edge as often as it is declared, and in-degrees start at the number of dependencies |
| `MigrationResolve.PlaceNext` | crates/kikan/src/migrations/dag.rs:130-144 | one round pops the least ready migration, and degrees and heap again say what waits and what is ready |
| `MigrationResolve.KahnSort` | crates/kikan/src/migrations/dag.rs:111-152 | the heap-driven loop returns the plan exactly when nothing is stuck |
| `CycleSearch.Search.Visit` | crates/kikan/src/migrations/dag.rs:208-244 | the depth-first search returns a genuine closed walk, or has finished the node and all it leads to |
| `CycleSearch.FinishedLeadsNowhere` | crates/kikan/src/migrations/dag.rs:232-244 | no walk from a finished node ever comes back to where it was |
| `MigrationResolve.FindFirstCycle` | crates/kikan/src/migrations/dag.rs:154-206 | the reported path names a cycle exactly when the first stuck migration, in registration order, reaches one; otherwise it is the list of all stuck ones |
| `MigrationResolve.Resolve` | crates/kikan/src/migrations/dag.rs:10-23 | succeeds exactly on well-formed acyclic input, with the plan; every error says what is wrong, checks in order |
| `MigrationResolve.RegistrationOrderIsIrrelevant` | crates/kikan/tests/features/migration_ordering.feature:17-20 | the order of registration decides neither success nor result |
| `MigrationResolve.CycleIsNamedIff` | crates/kikan/src/migrations/dag.rs:154-206 | the cycle error, on whichever input, names a cycle exactly when the first registered migration that needs or is on a cycle can reach one by going from dependency to dependent: a condition on dependencies and registration order only |
| `MigrationResolve.CycleErrorMayNameNoCycle` | crates/kikan/src/migrations/dag.rs:169-206 | three Meta migrations, two of them in a cycle, that pass every earlier check and for which the cycle error lists all three and names no cycle |
| `MigrationRunner.Pool.RunMigrations` | crates/kikan/src/migrations/runner.rs:79-160 | database and history after a run that stops at the first failure, and whether it completed |
| `MigrationRunner.DependenciesRunFirst` | crates/kikan/src/migrations/runner.rs:89-119 | in every run, complete or not, a migration runs after everything with its target that it depends on |
| `MigrationRunner.CompletedRunAppliesAll` | crates/kikan/src/migrations/runner.rs:91-118 | a completed run leaves everything with its target applied |
| `MigrationRunner.RecordedIsNotRun` | crates/kikan/src/migrations/runner.rs:85-98 | in every run, complete or not, nothing on record, backfilled or of the bootstrap is run, and all of it is on record afterwards |
| `MigrationRunner.CompletedRunAddsExactly` | crates/kikan/src/migrations/runner.rs:85-119 | a completed run runs exactly the migrations of its target that were neither on record nor backfilled, and adds exactly their ids |
| `MigrationRunner.RunStopsAtFirstFailure` | crates/kikan/src/migrations/runner.rs:108-119 | a migration due is run exactly when it and every one due before it in the plan succeed |
| `MigrationRunner.NeverRunTwice` | crates/kikan/src/migrations/runner.rs:89-98 | kept by every run, of any plan, complete or not: no migration is in the history twice, and all that is in it is on record |
| `MigrationRunner.RestartConverges` | crates/kikan/src/migrations/runner.rs:79-160 | any number of runs cut short anywhere, then one that completes, leave database and history as one uninterrupted run |
| `MigrationRunner.BootMeetsDependencies` | crates/kikan/src/engine.rs:237-250 | at boot, when a PerProfile migration runs, the Meta migrations it depends on are applied on the meta database and the PerProfile ones on the same profile's, whatever else is registered |
| `MigrationRunner.DependencyIsMetIff` | crates/kikan/src/engine.rs:237-250 | a dependency on record nowhere beforehand is met, on the meta database or earlier in the profile's round, exactly when its target is Meta or PerProfile respectively |
| `MigrationRunner.OtherTargetsAreNeverRun` | crates/kikan/src/migrations/runner.rs:46-58 | over any rounds, complete or not, a migration of another target that is not on record is neither run nor recorded |
| `MigrationRunner.UnmetDependencyIsAccepted` | crates/kikan/src/migrations/runner.rs:46-58 | a registration that resolution accepts in which a PerProfile migration runs although the Session one it depends on is recorded nowhere |
| `MigrationRunner.PlanHasDistinctIds` | crates/kikan/src/migrations/dag.rs:25-37 | a resolved plan names no migration twice |
| `ProfileKinds.AcceptedNameIsOneStepDown` | crates/kikan/src/tenancy/profile_dir_name.rs:63-81 | an accepted directory name, joined to any base, adds one component that is not empty, `.` or `..`, and has no NUL |
| `ProfileKinds.NameErrorsIff` | crates/kikan/src/tenancy/profile_dir_name.rs:63-81 | each reason for turning a directory name away, with its exact cause |
| `ProfileKinds.KindErrorsIff` | crates/kikan/src/engine.rs:704-723 | each reason for turning a kind away, with its exact cause |
| `ProfileKinds.BootAcceptsIff` | crates/kikan/src/engine.rs:254-277 | boot goes ahead exactly when every declared kind and the auth kind is path-safe and round-trips; otherwise the error is that of the first at fault |
| `ProfileKinds.SoundKindsAreApart` | crates/kikan/src/engine.rs:704-723 | two kinds that round-trip share a directory name exactly if they are the same kind |
| `ProfileKinds.LastWriterWins` | crates/kikan/src/engine.rs:270-274 | collecting into the map, each directory gets the answer of the last kind that has it, and every kind's directory is present |
| `ProfileKinds.SnapshotAnswersForTheGraft` | crates/kikan/src/engine.rs:254-274 | once boot succeeds the map answers for every declared kind as the graft does, names exactly the declared directories, listed in order with that of the auth kind, and distinct kinds keep separate entries |
| `ProfileKinds.SetupCompletenessIsTheGrafts` | crates/kikan/src/platform_state.rs:198-209 | `is_setup_complete` is what the graft would say of the active kind, and true for a directory no kind has |
| `FeatureParser.ParseFeature` | crates/scorecard/src/aggregate.rs:718-748 | the loop computes the declarative reading of the file |
| `FeatureParser.TakeLine` | crates/scorecard/src/aggregate.rs:723-745 | one line of the loop takes the parse of the lines before it to the parse including it |
| `FeatureParser.TallyScenarioTags` | crates/scorecard/src/aggregate.rs:693-708 | a scenario adds one to the total; unless the file is gated, its pending tags add their skip counts |
| `FeatureParser.CountSkipTags` | crates/scorecard/src/aggregate.rs:703-707 | every occurrence of a skip tag adds one to its counter, and nothing else changes |
| `FeatureParser.PendingAfter` | crates/scorecard/src/aggregate.rs:718-748 | the tags a line finds pending are those on tag lines since the last feature, rule, scenario or background line |
| `FeatureParser.FeatureAfter` | crates/scorecard/src/aggregate.rs:718-748 | feature tags and the gate are those of the first feature or rule line |
| `FeatureText.WrittenFileIsCounted` | crates/scorecard/src/aggregate.rs:652-748 | for every file written as blocks of tag lines, a keyword line and steps, with any indentation, titles, comments, blank lines and stray words: parsing its text counts exactly what the blocks hold |
| `FeatureText.ReadKeyword` | crates/scorecard/src/aggregate.rs:652-671 | a line with a keyword is read as that, whatever its title and indentation |
| `FeatureText.ReadTagLine` | crates/scorecard/src/aggregate.rs:676-681 | a tag line is read as its tags in order, stray words dropped |
| `FeatureParser.ByTagCountsOccurrences` | crates/scorecard/src/aggregate.rs:693-708 | a tag's counter is the number of its occurrences over all scenarios counted one by one |
| `FeatureParser.OncePerScenarioIff` | crates/scorecard/src/aggregate.rs:626-632 | within one file a tag's counter counts scenarios exactly when no counted scenario repeats the tag |
| `FeatureParser.RepeatedTagCountsTwice` | crates/scorecard/src/aggregate.rs:703-707 | a two-line file whose one scenario is counted twice |
| `BddCorpus.MergeInto` | crates/scorecard/src/aggregate.rs:829-846 | merging adds a file to one skip signal only, and to both totals |
| `BddCorpus.Accumulator.MergeParsedFeature` | crates/scorecard/src/aggregate.rs:882-904 | workspace and crate take the same file, other crates keep theirs |
| `BddCorpus.DiscoverCorpus` | crates/scorecard/src/aggregate.rs:912-939 | the walk yields the fold of all parsed files, or an error exactly when one is unreadable |
| `BddCorpus.CratesSumToWorkspace` | crates/scorecard/src/aggregate.rs:882-904 | for every counter to which files add, the crates sum to the workspace |
| `BddCorpus.CrateCountsItsOwnFiles` | crates/scorecard/src/aggregate.rs:882-904 | each crate's tally is the summary of its own files alone, and a crate has one exactly if it has a file |
| `BddCorpus.DiscoveryBooksByCrate` | crates/scorecard/src/aggregate.rs:912-939 | so discovery books each file under the crate it was found in, and no other |
| `BddCorpus.ScenariosAddUp` | crates/scorecard/src/aggregate.rs:882-904 | the workspace counts every file once and the scenarios of all files |
| `BddCorpus.EveryCounterIsConserved` | crates/scorecard/src/aggregate.rs:882-939 | so do all six counters, the tag counters tag by tag |
| `BddCorpus.SignalsAreDisjoint` | crates/scorecard/src/aggregate.rs:829-846 | no file counts in both skip signals, and no skip count exceeds its total |
| `BddCorpus.ParsedFilesAreBounded` | crates/scorecard/src/aggregate.rs:693-702 | what the parser produces meets the bound this needs |
| `BddCorpus.OncePerFileIff` | crates/scorecard/src/aggregate.rs:583-585 | the workspace's feature tag counter counts gated files, as documented, exactly when none of them repeats the tag |
| `BddCorpus.OncePerCorpusScenarioIff` | crates/scorecard/src/aggregate.rs:595-597 | the workspace's scenario tag counter counts scenarios, as documented, exactly when no skipped scenario outside the gated files repeats the tag |
| `BddCorpus.RepeatedTagsCountTwice` | crates/scorecard/src/aggregate.rs:829-846 | two corpora of one file each, whose one gated file and one skipped scenario are counted twice |
| `BddCorpus.OrderDoesNotMatter` | crates/scorecard/src/aggregate.rs:882-939 | every permutation of the files gives the same summary and the same crates |
| `StableSort.StableSortIsUnique` | crates/scorecard/src/coverage_breakouts.rs:161-169 | any sorted rearrangement that keeps equal keys in order is this one |
| `StableSort.SortIsStable` | crates/scorecard/src/coverage_breakouts.rs:161-169 | sorting orders by key, keeps every element, and keeps equal keys in order |
| `StableSort.LeIsLexicographic` | crates/scorecard/src/coverage_breakouts.rs:148-171 | strings are ordered by their first difference, a prefix before what it starts |
| `Breakouts.WireIsSorted` | crates/scorecard/src/coverage_breakouts.rs:148-171 | crates are sorted by name and handlers by route within each |
| `Breakouts.WireKeepsEntries` | crates/scorecard/src/coverage_breakouts.rs:148-180 | the multiset of crate, route and percentage is kept |
| `Thresholds.ResolveCoverageHandler` | crates/scorecard/src/threshold.rs:351-370 | the loop that stops at the first Red yields the worst verdict over all handlers, and one some handler has |
| `Thresholds.AcceptedConfigReachesYellow` | crates/scorecard/src/aggregate.rs:1698-1832 | in an accepted configuration each row has a Yellow range exactly if its thresholds differ |
| `Thresholds.RejectedConfigHasACause` | crates/scorecard/src/aggregate.rs:1698-1832 | a finite configuration in range is rejected exactly if some row with differing thresholds has no Yellow range |
| `Thresholds.ConfigErrorsIff` | crates/scorecard/src/aggregate.rs:1698-1832 | each validation error with its exact cause, the first rule violated |
| `Thresholds.NonFiniteThresholds` | crates/scorecard/src/threshold.rs:337-370 | what a threshold that is no number, or beyond all numbers, does |
| `Thresholds.EqualThresholdsAreRed` | crates/scorecard/src/threshold.rs:397-405 | with equal thresholds the configuration is accepted, the threshold itself is Red and nothing is Yellow |
| `CoverageRow.CoverageRedFailureDetail` | crates/scorecard/src/aggregate.rs:328-379 | the text is never empty; it names the drop exactly if the delta is Red, counts the failing handlers exactly if the enforcing gate is Red, at least one if that is the artifact's verdict, and is the fallback exactly if neither is |
| `CoverageRow.RowColourIff` | crates/scorecard/src/aggregate.rs:238-273 | the row is Red exactly if the delta is or the gate enforces and some handler is, Green exactly if the delta is and so is every handler under an enforcing gate; it carries the delta and the sorted breakouts, and a text exactly if it is Red or a handler made it Yellow |
| `Thresholds.ColourOfNumber` | crates/scorecard/src/threshold.rs:350-405 | for finite thresholds: at or beyond the fail threshold is Red, short of both Green |
| `CoverageRow.FirstFiveAreShown` | crates/scorecard/src/aggregate.rs:297-313 | up to five offenders are shown in full, of more the first five with the number left out |
| `CoverageRow.PickedCounts` | crates/scorecard/src/aggregate.rs:288-296 | the offenders listed are exactly the entries that meet the condition, as often as they occur |
| `CoverageRow.WorseInputIsNeverBetter` | crates/scorecard/src/aggregate.rs:221-273 | a lower delta, lower coverage or more handlers never improve the colour; in report-only mode handlers do not matter |
| `CoverageRow.RedRowIsExplained` | crates/scorecard/src/aggregate.rs:259-271 | a Red row names the drop exactly if the delta failed and a non-empty, correctly counted list exactly if the gate did; the fallback is unreachable |
| `CoverageRow.YellowRowIsExplained` | crates/scorecard/src/aggregate.rs:278-315 | under validated handler thresholds a Yellow row carries a text exactly if the gate is Yellow, and then counts and names at least one handler |
| `CoverageRow.WireVerdictIsTheSame` | crates/scorecard/src/coverage_breakouts.rs:148-180 | the verdict over the wire form is the one over the artifact |
| `Slug.DeriveSlug` | crates/kikan/src/slug.rs:147-177 | the byte loop, trim and checks compute the algebraic canonical form and its outcome |
| `Slug.NewSlugOutcomes` | crates/kikan/src/slug.rs:61-85 | each answer of the validator with its exact cause |
| `Slug.SlugLettersAre` | crates/kikan/src/slug.rs:158-163 | letters and digits are the ASCII ones, and lowercasing maps the n-th capital to the n-th small letter |
| `Slug.CaseDoesNotMatter` | crates/kikan/src/slug.rs:158-163 | names that differ in case only have the same slug |
| `Slug.TrimmedBufferIsCanon` | crates/kikan/src/slug.rs:158-170 | the trimmed buffer is the maximal alphanumeric runs, lowercased, joined by single hyphens |
| `Slug.CanonIsCanonical` | crates/kikan/src/slug.rs:61-85 | a non-empty canonical form has slug bytes only, no outer and no double hyphen |
| `Slug.CanonIsAHomomorphism` | crates/kikan/src/slug.rs:158-170 | canonicalising two inputs around a run of separators gives the two forms and one hyphen |
| `Slug.AcceptedSlugIsFixedPoint` | crates/kikan/src/slug.rs:61-85 | every string the validator accepts is derived from itself |
| `Slug.DeriveIsIdempotent` | crates/kikan/src/slug.rs:147-177 | derivation is idempotent, and its result the canonical form |
| `Slug.DeriveOutcomes` | crates/kikan/src/slug.rs:147-177 | above the input cap TooLong; below it Unparseable, TooLong, Reserved and Ok, each with its exact cause, and nothing else |
| `Pagination.NewParams` | crates/kikan/src/pagination.rs:11-22 | pages start at one, page sizes lie in 1 to 100, and acceptable requests are honoured |
| `Pagination.ParamsAre` | crates/kikan/src/pagination.rs:11-22 | page 1 and 25 items by default, 100 items at most, and zero is no request |
| `Pagination.NoPagesIff` | crates/kikan-types/src/pagination.rs:16-31 | there are no pages exactly when there is no item or the page size is zero |
| `Pagination.PagesTile` | crates/kikan/src/pagination.rs:10-35 | for every total below 2^32 and all parameters, pages 1 to the last tile the items, clamp and saturation never take effect, and later pages are empty |
| `Pagination.PagesTileIff` | crates/kikan-types/src/pagination.rs:16-31 | for every total: the pages tile the items exactly if the last one starts within 32 bits |
| `LineCounter.LineNumberAt` | tools/bdd-lint/src/extract-rust.ts:17-23 | one plus the newlines before the offset, past the end too |
| `LineCounter.NewlinesAreCounted` | tools/bdd-lint/src/extract-rust.ts:17-23 | what is counted is the multiplicity of the newline in what comes before |
| `LineCounter.LineCounter.LineAt` | tools/bdd-lint/src/extract-rust.ts:26-36 | the closure's state and answer after a call |
| `LineCounter.OrderedOffsetsAreRight` | tools/bdd-lint/src/extract-rust.ts:26-36 | over every non-decreasing run of offsets each answer is the direct count |
| `LineCounter.AllRightIff` | tools/bdd-lint/src/extract-rust.ts:26-36 | over every run of offsets: all answers are right exactly if no call goes back over a newline |

## Left out

- Dropped requests and panics: dropped restore and validate requests are in RestoreProtocol; switches dropped between two steps, and panics other than a panicking blocking task, are not modelled.
- ServerProperties.MemoryDiffersFromDiskIff: one operation at a time; overlapping switches are in SwitchRace, overlapping restores in RestoreProtocol, and mixtures of the two are not modelled beyond another request selecting a profile during a restore.
- RestoreProtocol.FilledSlotIsNeverOverwritten: for runs in which no outside process places a file between a copy's check and its rename and no request is dropped during its copy while another restore may fill the slot; PlacedFileSurvivesIff and DropIsHarmlessIff show that both are exact.
- RestoreProtocol.DroppedCopyOverwritesARestore: what a copy does after its check (`crates/kikan/src/backup/restore.rs:224-265`) is one step, taken when it renames. The temporary file that two overlapping copies would share is not modelled, so a copy left behind that has already begun to write it is not told apart from one that has only made its check.
- RestoreProtocol.SoloRunIsTheHandler: the rate limit, the upload and the validation are one step that passes or fails, and a failed tmp write or rename one failure, so the error codes inside those groups are not told apart.
- ServerProperties.RestoreEndsInOneOfThreeWays: leaves the sentinel out on error paths, because a failed write may leave part of it.
- ServerProperties.EveryReturnLooksUpTheSameEmail: for runs in which session calls succeed; EmailSurvivesIff covers those in which they fail.
- CoverageRow.YellowRowIsExplained: needs accepted handler thresholds, because with a NaN fail threshold the Yellow list can be empty; every configuration the program loads is checked.
- MigrationRunner: connection pragmas, the foreign-key check after a batch, the downgrade and legacy checks of boot, and what a migration body does. A migration and its record are one transaction; a batch after which a pragma fails counts as complete. Resolution is done before the run instead of after bootstrap and backfill, whose rows a resolution error would leave behind.
- Heap order among equal keys: the position that breaks ties is not modelled, since keys are distinct once duplicates are refused.
- `Path::exists` answering false on an input/output error.
- WAL and SHM files of the databases, and the checkpoint before the layout copy.
- Session storage: whether logout drops the session's data, whether a call that failed did its work all the same, and whether a session is stored with an error answer are arguments; so are, for the layer in front, the install check, the lookup of the demo admin, whether the automatic login goes through and whether the handler behind sees it in the same request. A login or logout by the user is a new start; the automatic login is modelled.
- The recovery request `/api/demo/reset`, which passes the layer unauthenticated while the demo install is incomplete.
- Setup's account creation, shop name row and automatic login, and the check of the demo database after a switch: steps that pass or fail and touch none of the modelled state.
- Unicode lowercasing of rate-limit keys: an arbitrary function on keys. The keys' table does not shrink and neither does the model's.
- Counter widths: `u32` tallies are natural numbers. Floating point: coverage percentages and deltas are reals, thresholds reals, infinities or NaN; rounding happens only in texts.
- Texts: a failure text is a list of parts with counts, thresholds and names, not its rendering.
- Library sorting and ordered maps: insertion sort stands for the stable library sort, which StableSort.StableSortIsUnique justifies; per-crate breakouts are a map.
- Crate names from paths and the directory walk: discovered files come with their crate.
- Gherkin beyond line prefixes: doc strings and tables are lines like any other, as in the code.
- FeatureText.WrittenFileIsCounted: for files whose tag words are one space apart and whose other lines are blank, comments, table rows or steps that start with a usual word; FeatureParser.ParseFeature is proved for every text.
- The layout migration's directory creation is part of the copy: both fail alike.
- HTTP, multipart upload, origin checks, password hashing, candidate validation, mail, mDNS, scheduler, event channel, admin socket plumbing, desktop shell, CLI and web client: library code or one-branch mappings that would add easy members.
