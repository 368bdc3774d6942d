# Converge: a verified model

Converge is a durable controller for autonomous code changes. This project models the parts of it that
must stay right when processes die, budgets run out or several controllers compete, and proves what
they promise over every input and every history.

- **Star re-exports** (`NodePaths`, `StarReexports`, `StarTables`, `StarMeaning`, `EcmaExports`,
  `StarBudgets`, `StarGraphs`, `ResolverTheorems`, `PublishedExports`). The resolver that decides what a
  JavaScript or TypeScript module exports through `export *`, under depth, module and edge budgets, with
  a memo. A complete answer agrees with GetExportedNames and ResolveExport of ECMA-262, does not depend
  on the budgets or the memo, and is given exactly when the graph is sound and affordable. Which file a
  specifier names follows from its text alone. The risk check that skips unaffected targets loses nothing.
- **Restore** (`BackupManifests`, `RestorePlans`, `RestorePaths`, `RestoreLayouts`, `RestoreDeaths`,
  `RestoreProtocol`, `RestoreSafety`, `RestoreInterference`, `PostgresRestore`, `PostgresInterference`).
  Which layouts of targets a plan can publish and always resume, and the journalled restore as processes
  that may die between any two steps and be tried again any number of times, on any host, while others
  place, replace and remove targets and databases between the attempts.
- **Runs** (`ProjectRegistry`, `RunRegistry`, `RunLeases`, `RunTimers`, `RunRecovery`,
  `RunHistories`, `RunWaits`). Bindings, leases,
  heartbeats, generation-stamped timers, recovery from checkpoints and machine waits, over every
  interleaving.
- **Convergence** (`ConvergenceRatchet`). The gate whose acceptance gives the loop a measure.
- **Bounded resources** (`RequiredChecks`, `TextOrder`, `CiRetries`, `CiHistories`, `RunBudget`, `UsageAccounting`,
  `Invocations`, `Utf8`, `PromptContext`). Remote verdicts, the flaky-rerun ledger, the run budget and
  its usage records, provider attempts, and prompts within a token budget that show every section they
  report.
- **Evidence and review** (`FrozenRed`, `EvidenceClosure`, `ReviewScope`, `ServiceGraph`). Snapshots that
  survive edits, dependency closures, scoped review verdicts, and what precedes every merge.

Code that changes state is a class or a loop proved against a specification on values; the theorems are
about the specifications. A crash is a number of steps a process has left (`fuel`), or a place in a poll
where it dies. Digests are injective constructors. Times are real numbers on one clock.

## Where the code falls short of what it says

- *Candidates.* `resolve_node_export_surface` documents that only paths confined to the package root are
  considered (node_compat.py:376-377). `NodePaths.CandidatesConfinedIff` gives the exact condition: it
  fails when a specifier without a suffix names the root itself, and then only the siblings of that root
  are read.
- *Resuming a SQLite restore.* `_stage_path` puts the staging file beside its target. If the database
  target lies inside a state directory, a process that dies between copying and moving the database leaves
  a file that `_validate_state` does not expect, and every later attempt refuses.
  `RestoreSafety.ResumableIff`: every history can be resumed exactly when the database target lies in no
  state directory. `RestoreDeaths.PlanAlwaysResumesIff` says the same of every accepted layout, on paths.
- *Verifying a backup.* `_inventory` leaves out every file called `manifest.json`, verification only the
  one at the root. A frozen-RED snapshot in a state directory writes such a file, and the backup then does
  not verify: `BackupManifests.CreateThenVerify`.
- *Preflight.* Only repository and state directories are compared with each other. A configuration file
  inside its own repository target passes (`RestorePlans.ConfigurationMayLieInTheRepository`), but
  publishing it creates the repository target, and the attempt is refused there
  (`RestoreLayouts.LiteralPlanIsRefused`). `RestoreLayouts.AcceptedPlanCompletesIff` says which accepted
  plans can be published, `RestoreLayouts.CompletedPlanResumesIff` which of them are accepted when run
  again; a database inside a repository is one exactly if git ignores it.
- *One worker per run.* A renewal that fails ends the heartbeat, not the worker. A second worker can start
  exactly when the lease has run out (`RunLeases.SecondWorkerIff`), which three missed beats allow
  (`RunLeases.ThirdMissedBeatIsFatal`).
- *Waiting runs.* `_snapshot` reads a missing key or a database error as an empty checkpoint. That never
  leads to a submission (`RunRecovery.SubmissionIsSafe`), but a wait whose timer meets a busy database is
  not scheduled again, unlike a recovery, and no timer finds it any more (`RunWaits.BusyDatabaseForgets`).
  A restart that finds the database busy in its last loop replaces a wait's timer by a recovery, and a
  reviewer wait that meets contention is retried as one; a recovery gives a waiting run up
  (`RunRecovery.RecoveryDropsWaits`). `RunWaits.AlwaysWatchedIff` gives the exact condition under which a
  waiting run is never forgotten.
- *Recovery.* A checkpoint without a next node, a terminal status or the initial envelope is left behind
  (`RunRecovery.RecoveryMakesProgress`).
- *Rerun limit.* docs/RECOVERY.md promises a bounded per-head budget. The retry ledger keeps one head, so
  the limit holds for histories over a set of heads exactly when there is at most one
  (`CiHistories.LimitHoldsIff`): two heads polled in turn rerun a check without bound. A poll takes its
  head from the pull request in its checkpoint, so this needs rollbacks between checkpoints of both heads.
  The limit always holds since the ledger was last taken over (`CiHistories.RerunsSinceTakeoverAreBounded`).
- *Review lanes.* A lane may sign findings with another lane's name. A surviving blocker then need not keep
  its lane's rejection (`ReviewScope.MisattributedBlockerPasses`); `ReviewScope.JudgedIff` says when a
  candidate passes, and `ReviewScope.SurvivorsReject` what holds when lanes sign their own findings.
- *Twenty findings.* The collector of export breaks looks at its limit after every finding but the unproven
  ones, so unproven targets pass it (`PublishedExports.CollectedIsTheFront`).

## Model

| member | source | states |
|---|---|---|
| `NodePaths.NormalizeRepoPath` | src/converge_orchestrator/node_compat.py:298-309 | the push/pop loop yields the normal form of the path, or nothing once ".." has left the repository |
| `NodePaths.NormalizedIffNeverEscapes` | src/converge_orchestrator/node_compat.py:298-309 | a path has a normal form exactly when no prefix of it climbs above the root; the form has no "." or ".." and stands at the level the parts add up to |
| `NodePaths.NormalizedIsIdentityOnNormal` | src/converge_orchestrator/node_compat.py:298-309 | normalising a normal path changes nothing |
| `NodePaths.CandidatesAreNormal` | src/converge_orchestrator/node_compat.py:320-343 | every re-export candidate is already normal, so following it never reads a different file |
| `NodePaths.CandidatesConfinedIff` | src/converge_orchestrator/node_compat.py:320-343 | all candidates lie in the package root exactly when the specifier does not name that root itself without a suffix |
| `NodePaths.SiblingOfRootIsACandidate` | src/converge_orchestrator/node_compat.py:331-343 | the failing family is inhabited: from pkg/a.ts the specifier "." may read pkg.d.ts |
| `NodePaths.PartsConcat` | src/converge_orchestrator/node_compat.py:331 | the parts of a text are those before any of its slashes followed by those after it, in that order |
| `NodePaths.PartsOfJoin` | src/converge_orchestrator/node_compat.py:331 | splitting the text of a path gives back the path |
| `NodePaths.RelativeTargetIs` | src/converge_orchestrator/node_compat.py:320-333 | a specifier that goes up n directories and then down some names places its target there, below the directory of the file without its last n parts, or nowhere if there are fewer |
| `NodePaths.SuffixIs` | src/converge_orchestrator/node_compat.py:334 | the suffix of a name is its last dot and what follows, if something stands on both sides |
| `NodePaths.LowerIs` | src/converge_orchestrator/node_compat.py:56-57 | extensions are compared without case: capitals become the small letters of the same place |
| `NodePaths.CandidatesWithSuffix` | src/converge_orchestrator/node_compat.py:334-335 | a target with a suffix is tried alone, and only if its last extension is one of the eight, in either case |
| `NodePaths.CandidatesWithoutSuffix` | src/converge_orchestrator/node_compat.py:336-343 | a target without one is tried with every extension, then as a directory with every index file, declarations first |
| `NodePaths.CandidatesOfRoot` | src/converge_orchestrator/node_compat.py:336-343 | at the repository root, whose text is ".", too |
| `NodePaths.NoCandidatesIff` | src/converge_orchestrator/node_compat.py:320-335 | exactly which specifiers name no file |
| `StarReexports.Resolver.ResolveTarget` | src/converge_orchestrator/node_compat.py:346-360 | the candidate loop finds the specified target and records every path it reads |
| `StarReexports.Resolver.Merge` | src/converge_orchestrator/node_compat.py:461-475 | the symbol loop, in any order, leaves exactly the passed names without those two targets both supply |
| `StarReexports.Resolver.ResolveModule` | src/converge_orchestrator/node_compat.py:403-490 | the closure `resolve`, with its memo, active set, budgets and counters, refines the specification `Resolve` |
| `StarReexports.Resolver.FollowStars` | src/converge_orchestrator/node_compat.py:435-475 | the loop over the star specifiers refines `Walk`, including the break when the edge budget is spent |
| `StarReexports.Resolver.FollowStar` | src/converge_orchestrator/node_compat.py:440-475 | one turn of that loop: unresolved, missing, incomplete and complete dependencies |
| `StarReexports.ResolveNodeExportSurface` | src/converge_orchestrator/node_compat.py:363-492 | rejects budgets that are not positive; otherwise returns the surface of the specified search |
| `StarReexports.ParseAtIs` | src/converge_orchestrator/node_compat.py:239-248 | a module is exactly a file that can be read and has a supported extension, with the parse of its own text |
| `StarReexports.RefusedIff` | src/converge_orchestrator/node_compat.py:406-417 | a module admitted before does not count again; exactly when depth, the current path or the module budget refuse one |
| `StarReexports.AccountNames` | src/converge_orchestrator/node_compat.py:440-475 | every file behind a star is named as a source, and only a complete dependency without clashes leaves the answer complete |
| `StarTables.ResolveKeepsTable` | src/converge_orchestrator/node_compat.py:403-490 | whatever is in the memo is a sound, complete answer, and a complete result is one too: memo hits change nothing |
| `StarMeaning.EntryHasNoStarCycle` | src/converge_orchestrator/node_compat.py:410-411 | no module of a complete answer lies on a cycle of star edges |
| `StarMeaning.SourcesAreReachable` | src/converge_orchestrator/node_compat.py:430-458 | `source_paths` of a complete answer is exactly the set of modules that star edges reach |
| `StarMeaning.NamesAreReachableLocals` | src/converge_orchestrator/node_compat.py:459-475 | a name is in a complete answer exactly when the module declares it or, unless it is "default", a reachable module does |
| `StarMeaning.SymbolsOfEntry` | src/converge_orchestrator/node_compat.py:462-475 | every inherited name comes from one star target only, with that target's minimum argument count |
| `EcmaExports.ExportedNamesAreSymbols` | src/converge_orchestrator/node_compat.py:403-490 | the names of a complete answer are those of GetExportedNames of ECMA-262, with its visited set threaded through the graph |
| `EcmaExports.ResolutionAgrees` | src/converge_orchestrator/node_compat.py:403-490 | ResolveExport of ECMA-262 finds for each name the one module behind it, and nothing for every other name |
| `StarBudgets.ResolveWork` | src/converge_orchestrator/node_compat.py:403-439 | bounds the calls, admitted modules and counted edges of every search, on cyclic graphs too |
| `StarBudgets.TablesAgree` | src/converge_orchestrator/node_compat.py:403-490 | two sound memo tables give a module the same surface |
| `StarBudgets.FittingSearchSucceeds` | src/converge_orchestrator/node_compat.py:403-490 | a search whose graph fits what is left of the budgets is complete |
| `StarBudgets.CompleteSearchPays` | src/converge_orchestrator/node_compat.py:403-490 | a complete search has paid one module per reached module and one edge per star of them |
| `StarBudgets.CompleteIff` | src/converge_orchestrator/node_compat.py:403-490 | the search is complete exactly when a sound table exists whose size and deepest call are within the budgets |
| `StarBudgets.ShortChainsAreShallow` | src/converge_orchestrator/node_compat.py:406-407 | if no star chain is longer than the depth budget, the deepest call fits it |
| `StarGraphs.EntryExports` | src/converge_orchestrator/node_compat.py:459-475 | the names of a complete answer stated on the graph alone |
| `StarGraphs.TableIffSoundGraph` | src/converge_orchestrator/node_compat.py:403-490 | a sound table exists exactly when the reachable graph is finite, well linked, unambiguous and acyclic |
| `ResolverTheorems.TargetIff` | src/converge_orchestrator/node_compat.py:346-360 | a specifier resolves to a target exactly when that is its one readable candidate |
| `ResolverTheorems.CompleteSurfaceIsExact` | src/converge_orchestrator/node_compat.py:363-492 | a complete surface has exactly the exported names and the reachable modules, and its graph is acyclic |
| `ResolverTheorems.CompleteSurfaceIsEcma` | src/converge_orchestrator/node_compat.py:363-492 | a complete surface agrees with GetExportedNames and ResolveExport (section 16.2.1.6 of ECMA-262, 2023), name by name, including the minimum argument count of the module each name resolves to |
| `ResolverTheorems.CompleteAnswersAgree` | src/converge_orchestrator/node_compat.py:363-492 | any two budgets that both give a complete answer give the same one |
| `ResolverTheorems.WorkIsBounded` | src/converge_orchestrator/node_compat.py:403-439 | at most max_edges + 1 calls, max_modules modules and an edge counter of max_edges + max_depth + 1 |
| `StarGraphs.AffordableIff` | src/converge_orchestrator/node_compat.py:403-490 | a table within the budgets exists exactly when the reachable graph is sound and its modules, star statements and deepest call are within them |
| `ResolverTheorems.CompleteExactlyWhen` | src/converge_orchestrator/node_compat.py:363-492 | `complete` holds exactly when the modules that the stars reach form a sound graph within the three budgets |
| `ResolverTheorems.SearchReadsProbes` | src/converge_orchestrator/node_compat.py:403-490 | a search over files that agree on every probed path is the same search |
| `ResolverTheorems.FootprintDecides` | src/converge_orchestrator/risk.py:696-704 | two readers that agree on the probes of the first search give identical searches |
| `PublishedExports.CollectRemoved` | src/converge_orchestrator/risk.py:787-801 | appends one finding per disappeared export, in order, until the limit |
| `PublishedExports.CollectRaised` | src/converge_orchestrator/risk.py:805-826 | appends one finding per call shape that now demands more arguments, in order, until the limit |
| `PublishedExports.TargetFindings` | src/converge_orchestrator/risk.py:729-826 | appends exactly the list of a target: both skips, the unproven case, removals before raised arguments, one changed file |
| `PublishedExports.TargetListSays` | src/converge_orchestrator/risk.py:759-826 | that list holds exactly the breaks between the two surfaces, each reported for a changed file, the target itself if it changed |
| `PublishedExports.EntryFindings` | src/converge_orchestrator/risk.py:724-826 | the loop over the targets of an entry, in sorted order |
| `PublishedExports.PublishedFindings` | src/converge_orchestrator/risk.py:707-827 | the collector returns the front of the full list of all targets |
| `PublishedExports.CollectedIsTheFront` | src/converge_orchestrator/risk.py:772-826 | the front ends with the first finding from the twentieth on that proves a break, and is everything if there is none |
| `PublishedExports.StarlessSearch` | src/converge_orchestrator/risk.py:733-739 | without stars the search returns the parsed file itself |
| `PublishedExports.SkipsLoseNothing` | src/converge_orchestrator/risk.py:729-765 | where a skip applies, the two surfaces are equal: nothing is lost |
| `PublishedExports.SkipsChangeNothing` | src/converge_orchestrator/risk.py:729-765 | comparing a skipped target would list nothing |
| `PublishedExports.TypeScriptIs` | src/converge_orchestrator/node_compat.py:60-61 | call shapes are compared exactly for files whose last extension is one of the four of TypeScript, in either case |
| `PublishedExports.TextNamesPath` | src/converge_orchestrator/risk.py:761-771 | the reported text of a path names that path and no other |
| `PublishedExports.ReportedIs` | src/converge_orchestrator/risk.py:758-767 | the breaks of an unchanged target are reported for the first changed file that its searches touched |
| `BackupManifests.Inventory` | src/converge_orchestrator/backup.py:291-305 | the inventory describes exactly the files not called manifest.json |
| `BackupManifests.Verify` | src/converge_orchestrator/backup.py:423-454 | verification accepts exactly the trees that the manifest describes |
| `BackupManifests.CreateThenVerify` | src/converge_orchestrator/backup.py:406-454 | a backup verifies right after it was written exactly when no file below the root is called manifest.json |
| `BackupManifests.ManifestNameIs` | src/converge_orchestrator/backup.py:291-305 | manifests of any directory are left out of the inventory, and no other file |
| `RestorePlans.CheckTargets` | src/converge_orchestrator/restore.py:357-392 | a project has no target blocker exactly when all five targets are absolute and vacant |
| `RestorePlans.CheckDirectories` | src/converge_orchestrator/restore.py:394-411 | the two nested loops report an overlap exactly when a new directory target is, contains or lies in an earlier one |
| `RestorePlans.PlanTargets` | src/converge_orchestrator/restore.py:339-411 | the preflight is clear of target blockers exactly when ids differ, targets are vacant and all repository and state directories are pairwise apart |
| `RestorePlans.OverlapIsShared` | src/converge_orchestrator/restore.py:397-406 | two targets overlap exactly when some path lies in both |
| `RestorePlans.ConfigurationMayLieInTheRepository` | src/converge_orchestrator/restore.py:384-411 | other targets are not compared: a plan whose configuration lies in its repository target is accepted |
| `RestorePaths.StepIff` | src/converge_orchestrator/restore_apply.py:165-411 | after some targets were published, the next is accepted or published exactly when it is compatible with all of them and no host file lies on the way |
| `RestorePaths.StepLays` | src/converge_orchestrator/restore_apply.py:165-411 | the disk then holds the host's files, the contents of the targets and their ancestors, and nothing else |
| `RestorePaths.CompletesIff` | src/converge_orchestrator/restore_apply.py:560-626 | an attempt over vacant targets completes exactly when each fits behind all earlier ones |
| `RestorePaths.ResumeCompletesIff` | src/converge_orchestrator/restore_apply.py:165-411 | run again after completion it accepts everything, unchanged, exactly when no target disturbs an earlier one |
| `RestoreLayouts.AcceptedIsReady` | src/converge_orchestrator/restore.py:339-411 | what the preflight checks is what the theorems on paths need |
| `RestoreLayouts.AcceptedPlanCompletesIff` | src/converge_orchestrator/restore_apply.py:560-626 | an accepted plan completes exactly when no later target is an ancestor of an earlier one, meets other content in it or passes a file |
| `RestoreLayouts.SeparatePlanCompletesIff` | src/converge_orchestrator/restore_apply.py:560-626 | where no target meets another's content: exactly when no later target equals or is an ancestor of an earlier one |
| `RestoreLayouts.ConfigurationBlocksItsRepository` | src/converge_orchestrator/restore_apply.py:259-271 | a target inside a repository or state directory published after it blocks every attempt |
| `RestoreLayouts.LiteralPlanIsRefused` | src/converge_orchestrator/restore_apply.py:259-271 | the accepted plan with its configuration in its repository is refused at the repository key |
| `RestoreLayouts.CompletedPlanResumesIff` | src/converge_orchestrator/restore_apply.py:485-626 | a completed plan is accepted again exactly when no target disturbs an earlier one |
| `RestoreLayouts.NestedIsSpared` | src/converge_orchestrator/restore_apply.py:355-359 | a database or worktree inside a state directory never disturbs it |
| `RestoreLayouts.DatabaseInRepositoryOnResume` | src/converge_orchestrator/restore_apply.py:239-256 | a database inside a repository is published, and accepted again exactly when git ignores it, other things equal |
| `RestoreLayouts.ProjectItemsAre` | src/converge_orchestrator/restore_apply.py:551-607 | each artifact goes to its own target, and the worktree is one exactly when it does not lie in the state directory |
| `RestoreDeaths.PublishedIsAcceptedIff` | src/converge_orchestrator/restore_apply.py:165-411 | a published target is accepted after deaths exactly when no later one disturbs it and it spares what the last death left |
| `RestoreDeaths.NextIsPublished` | src/converge_orchestrator/restore_apply.py:83-84 | the next target is published over any stage and ancestors exactly as if there were none |
| `RestoreDeaths.NextAttemptCompletesIff` | src/converge_orchestrator/restore_apply.py:485-626 | from any reached disk the next uninterrupted attempt completes exactly when all targets fit, no published one disturbs an earlier one, and each spares the residue |
| `RestoreDeaths.HistoriesAreReached` | src/converge_orchestrator/restore_apply.py:485-626 | every history of deaths leaves the first targets published and a residue of the next one |
| `RestoreDeaths.AlwaysResumableIff` | src/converge_orchestrator/restore_apply.py:485-626 | every history can be resumed to completion exactly when every target fits and none disturbs an earlier one, neither itself nor by its stage |
| `RestoreDeaths.NextAttemptAfterAnyHistory` | src/converge_orchestrator/restore_apply.py:485-626 | the same for one history of any accepted plan: when its next attempt completes |
| `RestoreDeaths.PlanAlwaysResumesIff` | src/converge_orchestrator/restore_apply.py:485-626 | which accepted plans can always be resumed |
| `RestoreDeaths.NestedDatabaseShowsItsStage` | src/converge_orchestrator/restore_apply.py:355-359 | the state check ignores a nested database but not its stage, unless that lies in the nested worktree |
| `RestoreDeaths.StageIsBeside` | src/converge_orchestrator/restore_apply.py:83-84 | a stage lies hidden beside its target under a name that no other target shares |
| `RestoreProtocol.ValidateState` | src/converge_orchestrator/restore_apply.py:307-341 | the state check accepts exactly the expected files outside the ignored paths |
| `RestoreProtocol.RestoreProcess.MarkPublished` | src/converge_orchestrator/restore_apply.py:165-168 | appends a key to the journal once, as one atomic step |
| `RestoreProtocol.RestoreProcess.PublishTarget` | src/converge_orchestrator/restore_apply.py:176-207 | clear the stage, copy, move: each a step the process may not live to take |
| `RestoreProtocol.RestoreProcess.Ensure` | src/converge_orchestrator/restore_apply.py:171-207 | the ensure functions: refuse a disappeared or foreign target, accept an exact one, publish an absent one, then record it |
| `RestoreProtocol.RestoreProcess.OpenJournal` | src/converge_orchestrator/restore_apply.py:485-560 | create, keep or restart the journal, or refuse |
| `RestoreProtocol.RestoreProcess.EnsureProjects` | src/converge_orchestrator/restore_apply.py:560-606 | the loop over the projects publishes their targets in the specified order |
| `RestoreProtocol.RestoreProcess.Apply` | src/converge_orchestrator/restore_apply.py:485-626 | a whole attempt with the database last, dying after any number of steps |
| `RestoreSafety.RunsStayReachable` | src/converge_orchestrator/restore_apply.py:485-626 | every history of attempts, deaths and losses leads to a described host |
| `RestoreSafety.RunsAreSafe` | src/converge_orchestrator/restore_apply.py:485-626 | after any history every target is absent or exact, recorded targets exist, and the database exists only when all others do |
| `RestoreSafety.ResumeCompletesIff` | src/converge_orchestrator/restore_apply.py:485-626 | an uninterrupted attempt ends as a run that never crashed, exactly when no half-copied database lies in a state directory; otherwise it refuses and changes nothing |
| `RestoreSafety.DyingWhileCopying` | src/converge_orchestrator/restore_apply.py:185-207 | dying between copy and move of the database leaves its stage behind |
| `RestoreSafety.ResumableIff` | src/converge_orchestrator/restore_apply.py:343-387 | every history can be resumed to completion exactly when the database target lies in no state directory |
| `RestoreSafety.DisasterIsSurvived` | src/converge_orchestrator/restore_apply.py:512-545 | after a disaster that loses every target of a completed restore the next attempt restores them all again |
| `RestoreInterference.DatabaseNestsOnce` | src/converge_orchestrator/restore_apply.py:354-361 | only the project whose state directory holds the database target ignores it there |
| `RestoreInterference.AcceptableIff` | src/converge_orchestrator/restore_apply.py:165-411 | the check of an existing target passes exactly on the backup's content: the text, the checkout, every state file but a nested database, an empty worktree, and no leftover database stage |
| `RestoreInterference.ForeignIsRefused` | src/converge_orchestrator/restore_apply.py:171-207 | on any host another content at the target, or none although it is recorded, ends the attempt and changes nothing |
| `RestoreInterference.KeyIff` | src/converge_orchestrator/restore_apply.py:185-411 | a key is recorded exactly when its target passes or can be published, and then holds the backup's content |
| `RestoreInterference.KeyFrame` | src/converge_orchestrator/restore_apply.py:185-411 | handling a key adds at most its own target and record, and changes no target that is there |
| `RestoreInterference.AttemptFillsGaps` | src/converge_orchestrator/restore_apply.py:485-626 | whatever a host holds, an attempt changes no existing target, moves only the backup's content into place, and leaves it at every key, recorded, when it returns |
| `RestoreInterference.AttemptReturnsIff` | src/converge_orchestrator/restore_apply.py:485-626 | from any host, exactly when an attempt that is not cut short returns |
| `RestoreInterference.ReturnedContents` | src/converge_orchestrator/restore_apply.py:551-617 | each text, checkout, state file and worktree at its own target, named artifact by artifact |
| `RestoreInterference.TargetsStay` | src/converge_orchestrator/restore_apply.py:485-626 | in histories where others place, replace and remove targets, a target is only ever changed from outside |
| `RestoreInterference.ForeignContentStops` | src/converge_orchestrator/restore_apply.py:195-197 | foreign content stays and stops every later attempt until somebody changes that target |
| `RestoreInterference.DisappearedStops` | src/converge_orchestrator/restore_apply.py:171-173 | a recorded target that has gone is not published again while any other target stays |
| `RestoreInterference.OutsideDoes` | src/converge_orchestrator/restore_apply.py:171-207 | what others may do to a host between attempts |
| `PostgresRestore.PostgresProcess.Begin` | src/converge_orchestrator/restore_postgres.py:442-500 | opens the journal only over an empty database and absent targets |
| `PostgresRestore.PostgresProcess.Execute` | src/converge_orchestrator/restore_postgres.py:156-244 | the staged script runs in one transaction; its outcome may be misreported |
| `PostgresRestore.PostgresProcess.Ensure` | src/converge_orchestrator/restore_postgres.py:327-385 | accept a matching receipt, refuse any other content, restore an empty database, then record it |
| `PostgresRestore.PostgresProcess.Apply` | src/converge_orchestrator/restore_postgres.py:442-538 | a whole attempt, files first and the transaction last |
| `PostgresRestore.PgRunsStayReachable` | src/converge_orchestrator/restore_postgres.py:442-538 | every history of attempts, misreported commits and losses leads to a described host |
| `PostgresRestore.PgRunsAreSafe` | src/converge_orchestrator/restore_postgres.py:327-385 | after any history the database is empty without a receipt or restored with the exact receipt, the script committed at most once per journal, and a restored database means restored files |
| `PostgresRestore.CommitIsOnlyRecorded` | src/converge_orchestrator/restore_postgres.py:327-350 | after a commit whose record was lost, the next attempt records it and changes nothing else |
| `PostgresRestore.PgResumeCompletes` | src/converge_orchestrator/restore_postgres.py:442-538 | from any point of any history an uninterrupted attempt whose transaction commits completes |
| `PostgresRestore.PgDisasterIsSurvived` | src/converge_orchestrator/restore_postgres.py:442-538 | after the loss of files and database the next attempt commits once more and restores everything |
| `PostgresInterference.ForeignDatabaseIsRefused` | src/converge_orchestrator/restore_postgres.py:327-356 | a database with another receipt, with data and no receipt, or recorded and gone, ends the attempt untouched |
| `PostgresInterference.DatabaseStepIs` | src/converge_orchestrator/restore_postgres.py:327-385 | the step changes only an empty, unrecorded database, only into the backup under the expected receipt, and returns exactly with that receipt recorded |
| `PostgresInterference.DyingInTheScript` | src/converge_orchestrator/restore_postgres.py:156-244 | what a death leaves of the staged script and the transaction, step by step |
| `PostgresInterference.PgAttemptFillsGaps` | src/converge_orchestrator/restore_postgres.py:442-538 | whatever files and database a host holds, an attempt changes nothing that is there but an empty database, and returns only with everything in place and recorded |
| `PostgresInterference.PgAttemptReturnsIff` | src/converge_orchestrator/restore_postgres.py:442-538 | from any host and any database, exactly when an uninterrupted, committing attempt returns |
| `PostgresInterference.DatabaseStays` | src/converge_orchestrator/restore_postgres.py:327-385 | in histories where others change files and database, a database that is not empty is only ever changed from outside |
| `PostgresInterference.ForeignDatabaseStops` | src/converge_orchestrator/restore_postgres.py:349-356 | data without the expected receipt stays and stops every later attempt until somebody changes the database |
| `PostgresInterference.LostDatabaseStops` | src/converge_orchestrator/restore_postgres.py:345-348 | a recorded database whose receipt has gone is not restored again while any target stays |
| `PostgresInterference.OthersDo` | src/converge_orchestrator/restore_postgres.py:327-385 | what others may do to the database and the files between attempts |
| `ProjectRegistry.ProjectTable.RegisterProject` | src/converge_orchestrator/registry.py:115-177 | registers exactly when neither binding conflicts and no other project holds the state store; a refusal changes nothing |
| `ProjectRegistry.NoStoreIsShared` | src/converge_orchestrator/registry.py:85-91 | in every history no state store serves two projects |
| `ProjectRegistry.BindingsAreForEver` | src/converge_orchestrator/registry.py:115-177 | in every history a workspace or state-store binding, once made, stays |
| `ProjectRegistry.RegistrationIs` | src/converge_orchestrator/registry.py:115-177 | exactly which registrations are refused; an accepted one takes the new configuration and keeps every binding it does not name |
| `RunRegistry.ControlRegistry.ClaimRunLease` | src/converge_orchestrator/registry.py:238-262 | claims a row exactly when it is unfinished and no other owner holds an unexpired lease |
| `RunRegistry.ControlRegistry.RenewRunLease` | src/converge_orchestrator/registry.py:264-277 | renews only the owner's lease on an unfinished row |
| `RunRegistry.ControlRegistry.ReleaseRunLease` | src/converge_orchestrator/registry.py:279-289 | releases only the owner's lease |
| `RunRegistry.ControlRegistry.UpdateRun` | src/converge_orchestrator/registry.py:291-333 | finishing a row drops its lease in the same step |
| `RunRegistry.ControlRegistry.CreateRun` | src/converge_orchestrator/registry.py:200-236 | a new id gets a queued, unfinished, unleased row; an id that exists is refused and its row kept |
| `RunRegistry.ForeignLeaseBlocksClaim` | src/converge_orchestrator/runtime.py:161-167 | on an unfinished row with a readable expiry the guard recovery checks is exactly the refusal of a claim |
| `RunLeases.FinishedForEver` | src/converge_orchestrator/registry.py:238-277 | a finished row is never claimed or renewed again and gains no worker |
| `RunLeases.LateBeatRevivesNothing` | src/converge_orchestrator/registry.py:264-277 | a beat after release or takeover leaves the row alone |
| `RunLeases.StepKeepsExclusion` | src/converge_orchestrator/runtime.py:350-484 | one step of any controller keeps exclusion, if renewals are recent |
| `RunLeases.AtMostOneExecutes` | src/converge_orchestrator/runtime.py:350-484 | in every timed interleaving at most one controller executes the graph, if successful renewals are less than the TTL apart |
| `RunLeases.SecondWorkerIff` | src/converge_orchestrator/runtime.py:350-362 | while one worker executes, another controller can start a second one exactly when the lease has run out |
| `RunLeases.TwoMissedBeatsAreHarmless` | src/converge_orchestrator/runtime.py:58-59 | 30 s beats under 10 s late, with at most two consecutive failures, keep the hypothesis and hence exclusion |
| `RunLeases.ThirdMissedBeatIsFatal` | src/converge_orchestrator/runtime.py:399-412 | three failures let a second controller start the run while the first worker goes on |
| `RunLeases.SubmitDoes` | src/converge_orchestrator/runtime.py:350-397 | a claim succeeds exactly on an unfinished, readable row that nobody else leases, for 120 seconds |
| `RunLeases.BeatDoes` | src/converge_orchestrator/runtime.py:399-412 | a beat that reaches the database renews its owner's open row or is the last one; one that does not is only missed |
| `RunLeases.EndingsDo` | src/converge_orchestrator/runtime.py:414-484 | a worker's end releases its own lease only, a death none, and finishing a row stops no worker |
| `RunTimers.TimerTable.ReplaceTimer` | src/converge_orchestrator/runtime_service.py:468-483 | starts a timer under the next generation |
| `RunTimers.TimerTable.CancelTimer` | src/converge_orchestrator/runtime_service.py:485-492 | forgets the timer and takes a generation |
| `RunTimers.TimerTable.TakeTimerGeneration` | src/converge_orchestrator/runtime_service.py:494-499 | lets a callback pass exactly when its generation is current |
| `RunTimers.HistoryFollowsEvents` | src/converge_orchestrator/runtime_service.py:468-499 | the table after any interleaving, computed from the events alone |
| `RunTimers.PassesIff` | src/converge_orchestrator/runtime_service.py:468-499 | a callback passes exactly when its timer was started by the run's last reset and has not fired before |
| `RunTimers.GenerationsGrow` | src/converge_orchestrator/runtime_service.py:468-499 | generations grow strictly with each replacement and cancellation and never otherwise |
| `RunTimers.PassesAtMostOnce` | src/converge_orchestrator/runtime_service.py:494-499 | each started timer passes at most once |
| `RunTimers.TrackedTimerIsCurrent` | src/converge_orchestrator/runtime_service.py:468-492 | the one tracked timer of a run is of its current generation |
| `RunRecovery.SubmissionIsSafe` | src/converge_orchestrator/runtime_service.py:69-99 | no resume, decision or timer path submits a terminal or unreadable checkpoint; the initial input is sent again only from an empty or initial one |
| `RunRecovery.RecoveryMakesProgress` | src/converge_orchestrator/runtime_service.py:564-608 | recovery closes exactly the terminal checkpoints, continues exactly those with a next node, restarts exactly the initial ones, and leaves exactly the rest behind |
| `RunRecovery.SomeRunsAreLeftBehind` | src/converge_orchestrator/runtime_service.py:580-598 | such a rest exists: a run between two nodes, and a paused run without a checkpoint |
| `RunRecovery.WaitIsAttendedIff` | src/converge_orchestrator/runtime_service.py:508-562 | after a wait's callback an unfinished run has a worker, a timer or an end exactly when no foreign lease was seen, the reading shows the wait and the lease column parses |
| `RunRecovery.RecoveryDropsWaits` | src/converge_orchestrator/runtime_service.py:564-608 | a recovery keeps a waiting run only while the database is busy; once the wait is read it gives the run up |
| `RunRecovery.WaitsStop` | src/converge_orchestrator/runtime_service.py:370-402 | a reading that raises ends the restart of waits: the remaining runs are not restored |
| `RunRecovery.RestartAgreesWithTimer` | src/converge_orchestrator/runtime_service.py:414-449 | a restart schedules exactly the runs its callback will submit or inspect, closes exactly those it would close, and leaves that decision unchanged |
| `RunRecovery.RestartsAreIndependent` | src/converge_orchestrator/runtime_service.py:414-449 | a restart treats each unfinished run by itself and leaves the other runs and timers alone |
| `RunRecovery.SubmissionIsLeaseStep` | src/converge_orchestrator/runtime.py:350-397 | a submission is the claim step of the lease protocol; an exhausted or damaged budget closes the row without a worker |
| `RunRecovery.RunController.Submit` | src/converge_orchestrator/runtime.py:350-397 | no second local worker, no claimed row without a worker or a closed run |
| `RunRecovery.RunController.StartRun` | src/converge_orchestrator/runtime.py:183-226 | creates a row under a new id and submits it; a new row is never turned away |
| `RunRecovery.RunController.TrySubmit` | src/converge_orchestrator/runtime_service.py:501-534 | submit, and after contention start the retry timer |
| `RunRecovery.RunController.ResumeRecoverable` | src/converge_orchestrator/runtime_service.py:564-608 | a superseded callback changes nothing; a passing one leaves exactly the row, timer and worker of its decision |
| `RunRecovery.RunController.ResumeWait` | src/converge_orchestrator/runtime_service.py:508-562 | the same for the callbacks of CI and reviewer waits |
| `RunRecovery.RunController.RestoreOneWait` | src/converge_orchestrator/runtime_service.py:371-385 | one turn of the loops over waits |
| `RunRecovery.RunController.RestoreWaits` | src/converge_orchestrator/runtime_service.py:370-402 | the loops over waits, ended by a reading that raises |
| `RunRecovery.RunController.RestoreRun` | src/converge_orchestrator/runtime_service.py:416-449 | one turn of the restart loop |
| `RunRecovery.RunController.RestoreRecoverableRuns` | src/converge_orchestrator/runtime_service.py:414-449 | the restart loop |
| `RunRecovery.ClosesAsItsStatus` | src/converge_orchestrator/runtime_service.py:69-76 | a recovery closes a run exactly when its readable checkpoint carries one of the eight terminal statuses with nothing pending, and with that status; callback and restart write the same closed row |
| `RunRecovery.InitialInputIs` | src/converge_orchestrator/runtime_service.py:79-99 | exactly the envelopes that starting this run submits, with the pinned configuration if there is one, count as its initial input |
| `RunRecovery.OperatorsMoveRuns` | src/converge_orchestrator/runtime.py:237-263 | which runs `resume` and `decide` go on with: every interrupt is answered by exactly one of them |
| `RunRecovery.WaitsAreResumedIff` | src/converge_orchestrator/runtime_service.py:508-562 | the callback of a wait resumes exactly the unfinished run that nobody else leases and whose checkpoint shows that wait |
| `RunRecovery.PathsDecide` | src/converge_orchestrator/runtime_service.py:163-200 | which of the four paths may submit a run, on its checkpoint alone |
| `RunRecovery.SubmissionWrites` | src/converge_orchestrator/runtime.py:350-397 | when a submission starts, is turned away, fails or closes the run, and the row it leaves |
| `RunRecovery.WaitCallbackDoes` | src/converge_orchestrator/runtime_service.py:508-562 | what the callback of a wait leaves, and which timer it sets after contention |
| `RunRecovery.RecoveryCallbackDoes` | src/converge_orchestrator/runtime_service.py:564-608 | when the callback of a recovery starts a worker and when it looks again |
| `RunRecovery.RestoredWaits` | src/converge_orchestrator/runtime_service.py:370-402 | a restart marks exactly the waiting runs that nobody else leases and sets the timer of their own wait |
| `RunRecovery.WaitsAreIndependent` | src/converge_orchestrator/runtime_service.py:370-402 | a restart of the waits that reaches its end treats every run by itself |
| `RunRecovery.TimersAre` | src/converge_orchestrator/runtime_service.py:468-499 | a restarted timer is a new generation with the wanted callback, a stopped one is gone, and other runs keep theirs |
| `RunRecovery.WaitsComplete` | src/converge_orchestrator/runtime_service.py:370-402 | that restart reaches its end when no reading raises |
| `RunRecovery.RestartOneWrites` | src/converge_orchestrator/runtime_service.py:414-449 | one turn of the restart writes the row and the timer decided on |
| `RunHistories.StartsAreJustified` | src/converge_orchestrator/runtime.py:350-397 | in every history a worker starts only from a readable, non-terminal checkpoint of an unfinished run, and with the initial input only from an empty or initial one |
| `RunHistories.NoSecondBeginning` | src/converge_orchestrator/runtime_service.py:564-608 | in every history a run that has begun is never started from its initial input again |
| `RunHistories.OverIsForEver` | src/converge_orchestrator/runtime_service.py:69-77 | once a terminal checkpoint has no worker, no event starts one or changes it; a finished row stays as it is |
| `RunHistories.TerminalRunIsClosedForEver` | src/converge_orchestrator/runtime_service.py:414-449 | a restart or recovery that reads a terminal checkpoint closes the run for ever, with that status |
| `RunHistories.EndWrites` | src/converge_orchestrator/runtime.py:414-484 | how a worker's end leaves the row: failed, paused, interrupted, recoverable or closed with the graph's own status, and never with its lease |
| `RunHistories.TriesDo` | src/converge_orchestrator/runtime.py:350-397 | an attempt to submit starts a worker exactly when its path allows it and the claim and the budget do |
| `RunHistories.EventsDo` | src/converge_orchestrator/runtime.py:399-484 | only a worker's graph writes checkpoints, only its end writes the row, and a restart leaves finished rows alone |
| `RunWaits.StepStaysWatchedIff` | src/converge_orchestrator/runtime_service.py:118-608 | a waiting run that has its worker or the right timer keeps one through a callback, an end, a death, a restart or an operator exactly when the stated condition on readings and leases holds |
| `RunWaits.AlwaysWatchedIff` | src/converge_orchestrator/runtime_service.py:118-608 | along every history a waiting run is never without its worker or timer exactly when it had one and every event meets that condition |
| `RunWaits.FreshRestartWatchesIff` | src/converge_orchestrator/runtime_service.py:118-122 | a fresh process watches a waiting run exactly when nobody else leases it, its loop reads the checkpoint, no earlier loop raises and the last one does not find the database busy |
| `RunWaits.ForgottenStaysForgotten` | src/converge_orchestrator/runtime_service.py:508-608 | a waiting run without worker and timer stays so until a restart, an operator or another controller ends it |
| `RunWaits.BusyDatabaseForgets` | src/converge_orchestrator/runtime_service.py:519-522 | a busy database makes the callback of a wait forget the run for good, where a recovery looks again |
| `RunWaits.WaitTimerIs` | src/converge_orchestrator/runtime_service.py:202-297 | the timer a checkpoint needs |
| `RunWaits.EndLeaves` | src/converge_orchestrator/runtime_service.py:202-297 | which timer is left when a worker ends, for every outcome and every reading |
| `RunWaits.ViewAgreesWithRestart` | src/converge_orchestrator/runtime_service.py:414-449 | an operator's look at an idle run leaves the same row and timer as a restart of the controller |
| `RunWaits.RestartWrites` | src/converge_orchestrator/runtime_service.py:370-449 | what a restart makes of an idle run, for every kind of checkpoint |
| `RunWaits.ViewClosesAsItsStatus` | src/converge_orchestrator/runtime_service.py:69-76 | a look at a run that has come to its end closes it with the status the graph wrote |
| `RunWaits.ViewShows` | src/converge_orchestrator/runtime.py:265-304 | what a look writes otherwise, and that it changes nothing but status and node |
| `RunWaits.ViewOfTheRest` | src/converge_orchestrator/runtime.py:265-304 | what it writes for an idle run with nothing pending that has not come to its end |
| `RunWaits.ResumeDoes` | src/converge_orchestrator/runtime_service.py:163-186 | an operator's resume leaves no timer when it submits, and makes sure of a machine wait's timer when it cannot |
| `RunWaits.ElapseDoes` | src/converge_orchestrator/runtime_service.py:508-608 | a callback that passes uses up its timer and leaves what the controller's callback leaves |
| `RunWaits.OthersDo` | src/converge_orchestrator/runtime_service.py:202-297 | what time, other controllers, the graph and a death may do to the run |
| `RunWaits.ViewKeepsFinished` | src/converge_orchestrator/runtime.py:265-304 | a look never reopens a finished run |
| `ConvergenceRatchet.RunRequirementVerifiers` | src/converge_orchestrator/verification.py:137-191 | one status per requirement, or a refusal exactly when a verifier names an unknown requirement |
| `ConvergenceRatchet.ApplyVerifications` | src/converge_orchestrator/compliance.py:31-43 | folds the results into the snapshot, ignoring unknown and unverified ones |
| `ConvergenceRatchet.StatusMap` | src/converge_orchestrator/quality.py:184-189 | the status dictionary keeps the last result of each requirement |
| `ConvergenceRatchet.CompareMandatoryRegressions` | src/converge_orchestrator/compliance.py:76-91 | counts exactly the mandatory requirements that passed and no longer do |
| `ConvergenceRatchet.TargetProgress` | src/converge_orchestrator/quality.py:190-201 | progress holds exactly when some targeted requirement with a verifier newly passes, or none is targeted |
| `ConvergenceRatchet.ConvergenceOk` | src/converge_orchestrator/quality.py:147-215 | the gate accepts exactly when no proven mandatory requirement is lost and the targets progress |
| `ConvergenceRatchet.RegressionsAreLosses` | src/converge_orchestrator/quality.py:169-182 | the snapshot comparison counts exactly the proven requirements that were lost |
| `ConvergenceRatchet.StepRatchets` | src/converge_orchestrator/quality.py:147-215 | an accepted step keeps every proven requirement and, when its targets are mandatory and include one with a verifier, proves a new one |
| `ConvergenceRatchet.ChainTerminates` | src/converge_orchestrator/quality.py:147-215 | along any chain of accepted candidates the proven set grows, and such steps are at most as many as the provable requirements still unproven |
| `ConvergenceRatchet.VerdictIs` | src/converge_orchestrator/verification.py:137-191 | unverified exactly without rules; passing exactly when every required rule has a successful outcome |
| `ConvergenceRatchet.LossIs` | src/converge_orchestrator/compliance.py:76-91 | only requirements that some entry marks mandatory can be lost, by passing before and not passing now |
| `RequiredChecks.MergeRequiredChecks` | src/converge_orchestrator/github.py:111-117 | the required checks of both sources, each once, in the order of first appearance |
| `RequiredChecks.Collect` | src/converge_orchestrator/github.py:382-428 | the states observed for each required check, by name and app |
| `RequiredChecks.JudgeAll` | src/converge_orchestrator/github.py:438-448 | without required checks every observation counts, and there must be one |
| `RequiredChecks.CiStatus` | src/converge_orchestrator/github.py:367-448 | passes exactly when the policy is authoritative and every required check was observed and only passing; fails exactly when one of them failed |
| `RequiredChecks.PassesOnlyIs` | src/converge_orchestrator/github.py:382-448 | in the words of the remote: something reports for the check by name and app, every such run completed as success, neutral or skipped, every such status is success |
| `RequiredChecks.FailingIs` | src/converge_orchestrator/github.py:382-448 | a run that completed otherwise, or a status that is neither pending nor success, fails the check it reports for |
| `RequiredChecks.EverythingDecides` | src/converge_orchestrator/github.py:438-448 | the same without required checks, over everything observed |
| `CiRetries.AuthoritativeFailures` | src/converge_orchestrator/ci_flakes.py:71-87 | the failing items that decide the verdict |
| `CiRetries.FailureIsShown` | src/converge_orchestrator/ci_flakes.py:59-87 | there is such an item exactly when the remote verdict is a failure |
| `CiRetries.ChooseFlakyRetry` | src/converge_orchestrator/ci_flakes.py:90-120 | a check is chosen exactly when every failure is a distinct check run that the policy names and that is below its limit; it is the least of them |
| `TextOrder.OrderIsTotal` | src/converge_orchestrator/ci_flakes.py:112-120 | the order of names is total |
| `TextOrder.OrderIsTransitive` | src/converge_orchestrator/ci_flakes.py:112-120 | the order of names is transitive |
| `TextOrder.OrderIsUnique` | src/converge_orchestrator/risk.py:787 | a set of names has one sorted listing |
| `TextOrder.Sort` | src/converge_orchestrator/risk.py:787 | computes it |
| `CiRetries.CiPoller.ReserveRetry` | src/converge_orchestrator/ci.py:77-93 | counts one retry of one check in the durable ledger |
| `CiRetries.CiPoller.Poll` | src/converge_orchestrator/ci.py:96-214 | one poll that may die before or after the reservation or the rerun call, as a relation between ledgers, calls and checkpoints |
| `CiRetries.CiPoller.PollRemote` | src/converge_orchestrator/ci.py:96-214 | a poll of the named remote result stores a pass exactly when every required check passes under an authoritative policy; pending verdicts and retries never turn into one |
| `CiRetries.MayRetryIff` | src/converge_orchestrator/ci_flakes.py:90-120 | retrying needs a failing head whose deciding failures are all named, distinct check runs with a retry left |
| `CiRetries.CountsAre` | src/converge_orchestrator/ci.py:34-93 | a retry counts as checkpoint or ledger remembers it, whichever is more, each for its own head only |
| `CiRetries.RecoveredIs` | src/converge_orchestrator/ci.py:96-130 | a reservation is recovered exactly when the ledger of this head counts more than the checkpoint |
| `CiRetries.PollSays` | src/converge_orchestrator/ci.py:96-214 | what a surviving poll stores: since when the head is polled, when it times out, when a failure is called pending, and when a rerun error is reported |
| `CiHistories.RerunsSinceTakeoverAreBounded` | src/converge_orchestrator/ci.py:48-93 | for any heads, checkpoints and deaths: reruns since the ledger was taken over are at most its count, which is at most the limit |
| `CiHistories.RerunsAreBounded` | src/converge_orchestrator/ci.py:48-175 | for one head, over all polls, deaths and rollbacks: reruns are at most the durable count, which equals the reservations and is at most the limit |
| `CiHistories.LedgerNeverForgets` | src/converge_orchestrator/ci.py:54-93 | for one head no durable count ever decreases |
| `CiHistories.AlternatingHeadsForget` | src/converge_orchestrator/ci.py:48-93 | under every enabled policy, n rounds of polls of any two heads rerun the same check of the same head n times |
| `CiHistories.LimitHoldsIff` | src/converge_orchestrator/ci.py:48-93 | for an enabled policy the per-head limit holds over all histories of a set of heads exactly when there is at most one head |
| `CiHistories.LostReservationWaits` | src/converge_orchestrator/ci.py:121-150 | a reservation whose poll died makes the next poll from that checkpoint wait |
| `CiHistories.OnlyPassesPass` | src/converge_orchestrator/ci.py:133-175 | only a remote pass becomes a pass, and it reserves nothing |
| `RunBudget.RunEvidence.InitializeRunBudget` | src/converge_orchestrator/budget.py:106-125 | creates the ledger once; existing consumption is never reset |
| `RunBudget.RunEvidence.ReserveModelAttempt` | src/converge_orchestrator/budget.py:217-306 | grants exactly when the request fits all three limits, with the next attempt number and the largest whole timeout left |
| `RunBudget.RunEvidence.RecordModelUsageAttempt` | src/converge_orchestrator/model_usage.py:250-305 | records only a reserved attempt; the same record again is accepted, a different one refused |
| `RunBudget.RunEvidence.SummarizeModelUsage` | src/converge_orchestrator/model_usage.py:330-388 | totals, totals by role and by model, and coverage of what was recorded |
| `RunBudget.AddAll` | src/converge_orchestrator/model_usage.py:364-371 | the summing loop |
| `RunBudget.GroupsTakeIn` | src/converge_orchestrator/model_usage.py:367-371 | adding a record to its group keeps every group the total of its records |
| `RunBudget.TotalsAreSums` | src/converge_orchestrator/model_usage.py:308-327 | a total counts its records and the reporting ones, and each of its seven fields is the sum of that field |
| `RunBudget.GroupKeysAre` | src/converge_orchestrator/model_usage.py:364-371 | records are grouped under the role and the model they name, and without a model as unresolved |
| `UsageAccounting.LimitsHold` | src/converge_orchestrator/budget.py:217-306 | in every history attempts are exactly 1..n within the limit, tokens are those requested and within the limit, and no granted call can outlast the wall time |
| `UsageAccounting.ConsumptionOnlyGrows` | src/converge_orchestrator/budget.py:106-125 | in every history the start is fixed and consumption never goes back |
| `UsageAccounting.RecordsAreReserved` | src/converge_orchestrator/model_usage.py:282-288 | in every history records sit only on reserved attempts |
| `UsageAccounting.RecordsNeverChange` | src/converge_orchestrator/model_usage.py:289-304 | in every history a record stays as written |
| `UsageAccounting.CoverageIff` | src/converge_orchestrator/model_usage.py:352-386 | in every history the summary succeeds, and calls its coverage complete exactly when there is a reservation and each one has reported |
| `UsageAccounting.GroupsSumToTotal` | src/converge_orchestrator/model_usage.py:364-371 | totals by role and by model each sum to the totals of the run |
| `Invocations.InvokeWithResilience` | src/converge_orchestrator/opencode.py:245-329 | tries the profiles in schedule order until one succeeds, raises a budget failure, and reports transport exactly when every attempt failed in transit |
| `Invocations.TryProfile` | src/converge_orchestrator/opencode.py:261-326 | the retries of one profile, cut short when the prompt exceeds its budget |
| `Invocations.AttemptsAreBounded` | src/converge_orchestrator/opencode.py:257-326 | an invocation makes at most one attempt per scheduled try and never repeats a profile whose prompt was too long |
| `Invocations.ScheduleIs` | src/converge_orchestrator/opencode.py:257-326 | the primary profile is retried up to the limit and a fallback never; a profile is left exactly when used up or its prompt is too long |
| `Utf8.EncodedCharDecodes` | src/converge_orchestrator/context.py:116-123 | an encoded character decodes to itself, whatever follows (section 3 of RFC 3629) |
| `Utf8.OnlyEncodedCharDecodes` | src/converge_orchestrator/context.py:116-123 | no other bytes decode to it: no overlong form, no surrogate |
| `Utf8.CutKeepsWholeChars` | src/converge_orchestrator/context.py:121-123 | decoding the first k bytes and ignoring errors keeps exactly the whole characters that fit |
| `Utf8.DecodeUndoesEncode` | src/converge_orchestrator/context.py:121-123 | decoding an encoded text gives the text |
| `PromptContext.EstimateIsCeiling` | src/converge_orchestrator/context.py:71-75 | the estimate is a third of the UTF-8 bytes, rounded up, and zero only for the empty text |
| `PromptContext.TruncateFits` | src/converge_orchestrator/context.py:116-123 | a truncated text fits its tokens and is a prefix of the text followed by the marker |
| `PromptContext.CompactedFits` | src/converge_orchestrator/context.py:172-180 | a compacted section always fits what remains, so the check after compaction never fails |
| `PromptContext.PlaceSection` | src/converge_orchestrator/context.py:164-187 | a section is included whole, else compacted and checked again, else dropped |
| `PromptContext.PreparePrompt` | src/converge_orchestrator/context.py:126-189 | rejects exactly an invalid budget or a core that exceeds it; otherwise assembles the sections and reports their fates |
| `PromptContext.PromptFits` | src/converge_orchestrator/context.py:126-189 | an accepted prompt starts with the unmodified core, has at most three bytes per reported token, and stays within the budget |
| `PromptContext.TruncatedIsAPrefix` | src/converge_orchestrator/context.py:172-184 | a truncated section did not fit, is now shorter, and is a prefix of its text followed by the marker |
| `PromptContext.EverySectionHasOneFate` | src/converge_orchestrator/context.py:164-187 | included, truncated and dropped names together are exactly the section names, each once per section |
| `PromptContext.PromptLeavesTheReserve` | src/converge_orchestrator/context.py:91-105 | the prompt and the output reserve together fit the context window |
| `PromptContext.SpacesAre` | src/converge_orchestrator/context.py:108-139 | which characters are stripped |
| `PromptContext.StripIs` | src/converge_orchestrator/context.py:108-139 | stripping removes spaces at both ends and nothing else, until neither end is a space |
| `PromptContext.BudgetIsGreatest` | src/converge_orchestrator/context.py:91-105 | the input budget is the greatest number of tokens that fits beside both reserves and within the fraction |
| `PromptContext.TruncateIs` | src/converge_orchestrator/context.py:116-123 | a cut keeps as much of the text as fits beside the marker, and no trailing space |
| `PromptContext.PromptIs` | src/converge_orchestrator/context.py:126-189 | the prompt is the core followed, section by section in order, by all of its text under its heading if that fits, else by as much as fits beside the marker, else by nothing; the reported tokens are theirs |
| `PromptContext.PieceStands` | src/converge_orchestrator/context.py:160-187 | each section's piece stands after the core and all earlier pieces |
| `PromptContext.IncludedIsShown` | src/converge_orchestrator/context.py:108-170 | a section reported as included stands in the prompt with all of its text, under its name |
| `FrozenRed.FrozenRedStore.SnapshotFrozenRed` | src/converge_orchestrator/evidence.py:85-133 | fails exactly when a listed file present has another hash; otherwise stores its bytes and lists exactly the files present |
| `FrozenRed.FrozenRedStore.VerifyFrozenRed` | src/converge_orchestrator/evidence.py:135-192 | unchanged exactly when every listed path still resolves to a file with its content, with the reason for each |
| `FrozenRed.FrozenRedStore.RestoreFrozenRed` | src/converge_orchestrator/evidence.py:194-241 | writes back what was stored, entry by entry, and never fails on a sound store |
| `FrozenRed.StatusesSay` | src/converge_orchestrator/evidence.py:155-191 | the details name each listed file with its own status |
| `FrozenRed.RestoredFile` | src/converge_orchestrator/evidence.py:194-241 | a restored file is as the last entry that resolves to it says, any other file as before |
| `FrozenRed.RestoreThenVerifyIff` | src/converge_orchestrator/evidence.py:135-241 | after a restore over any worktree, verification reports all unchanged exactly when every listed path resolves and paths that share a file were stored with one content |
| `FrozenRed.OtherFilesAreUntouched` | src/converge_orchestrator/evidence.py:194-241 | files that no listed path resolves to are left alone |
| `FrozenRed.SnapshotSurvivesEdits` | src/converge_orchestrator/evidence.py:85-241 | snapshot, any edits and deletions, restore: all unchanged, even with aliases, while the paths resolve as before |
| `FrozenRed.PresentIs` | src/converge_orchestrator/evidence.py:135-192 | a path is present with a content exactly when it resolves to a file that has it |
| `EvidenceClosure.Traverse` | src/converge_orchestrator/evidence.py:354-370 | the worklist ends on every map, cyclic or not, with the least closed set that contains the roots |
| `EvidenceClosure.EvidenceClosure.constructor` | src/converge_orchestrator/evidence.py:354-373 | missing are exactly the unresolved members; closed exactly when there are none |
| `EvidenceClosure.ClosureIsReachability` | src/converge_orchestrator/evidence.py:354-370 | the closure is exactly what chains of dependencies reach from the roots |
| `ReviewScope.AggregateSplits` | src/converge_orchestrator/opencode.py:163-184 | aggregation loses, adds and reorders nothing: where lanes sign their own findings the aggregate splits into each lane's findings, in order, and its verdict |
| `ReviewScope.LanesStandTogether` | src/converge_orchestrator/opencode.py:172 | whoever signs them, the findings of each lane stand together in the order of the lanes |
| `ReviewScope.LeastLaneDecides` | src/converge_orchestrator/opencode.py:173-183 | the aggregate is as confident as its least confident lane, and silent only if every lane is |
| `ReviewScope.RequirementStatuses` | src/converge_orchestrator/review_scope.py:33-48 | the snapshot's status where it has one, else the last one of the contract |
| `ReviewScope.ContractStatus` | src/converge_orchestrator/review_scope.py:43 | an id has a contract status exactly when a requirement carries it |
| `ReviewScope.BlockingIds` | src/converge_orchestrator/review_scope.py:51-71 | the scope is exactly the targets and the requirements that pass or are partly satisfied |
| `ReviewScope.BlockingRequirementIds` | src/converge_orchestrator/review_scope.py:64-71 | computes that scope |
| `ReviewScope.ScopeReview` | src/converge_orchestrator/review_scope.py:74-163 | the loops compute the specified findings, demotions, lane verdicts and verdict |
| `ReviewScope.OnlyOutOfScopeBlockersChange` | src/converge_orchestrator/review_scope.py:101-124 | scoping turns out-of-scope blockers into notes and touches no in-scope, uncited or unknown-id finding |
| `ReviewScope.ScopingIsIdempotent` | src/converge_orchestrator/review_scope.py:74-163 | scoping a scoped review changes nothing |
| `ReviewScope.JudgedIff` | src/converge_orchestrator/review_scope.py:126-147 | a candidate passes exactly when every rejecting or silent lane has a demoted blocker under its name and no surviving one |
| `ReviewScope.OwnFindingsDecide` | src/converge_orchestrator/review_scope.py:126-140 | with findings attributed to their lanes, each lane decides by its own findings alone |
| `ReviewScope.SurvivorsReject` | src/converge_orchestrator/opencode.py:139-184 | with findings attributed to their lanes, a surviving blocker of a rejecting lane, or a lane without an answer, keeps the verdict reject |
| `ReviewScope.MisattributedBlockerPasses` | src/converge_orchestrator/opencode.py:151-154 | a blocker signed with another lane's name lets the candidate pass with the blocker in force |
| `ReviewScope.NormalizedLane` | src/converge_orchestrator/opencode.py:124-160 | a lane that answers keeps verdict, confidence and findings and signs the unsigned ones; one that does not rejects with one finding |
| `ReviewScope.BlocksIff` | src/converge_orchestrator/review_scope.py:33-71 | a requirement blocks exactly when it is a target or passes or is partly satisfied, by the snapshot or else by its last contract entry |
| `ReviewScope.UnsignedVerdict` | src/converge_orchestrator/review_scope.py:135-142 | a rejection that no lane signed falls exactly when it had a blocker to demote and keeps none |
| `ServiceGraph.RouterFollowsTheGraph` | src/converge_orchestrator/ci.py:240-257 | the CI router takes an edge of the graph, to merge only after a pass and to wait only while pending |
| `ServiceGraph.ProgressIsNeeded` | src/converge_orchestrator/graph_service.py:77-244 | each node is entered only after the milestones it needs |
| `ServiceGraph.ProgressIsReached` | src/converge_orchestrator/graph_service.py:77-244 | milestones counted were visited in order since code was last written |
| `ServiceGraph.MergeIsEarned` | src/converge_orchestrator/graph_service.py:77-244 | in every run a merge follows quality, review, integrate, pr and a passing poll, in order, since code was last written; no human decision skips one |
| `ServiceGraph.MergeFollowsItsPoll` | src/converge_orchestrator/graph_service.py:217-242 | only the pause lies between the passing poll and the merge |
| `ServiceGraph.EdgesMirror` | src/converge_orchestrator/graph_service.py:77-244 | every edge seen from its end: exactly where each node may be entered from |
| `ServiceGraph.EveryNodeIsReached` | src/converge_orchestrator/graph_service.py:77-244 | every node is reached by a run |
| `ServiceGraph.VerdictLasts` | src/converge_orchestrator/graph_service.py:217-242 | a verdict stays in the state until the next poll |
| `ServiceGraph.WaitsArePolledAgain` | src/converge_orchestrator/graph_service.py:217-242 | a wait follows exactly a pending poll, and a poll follows it |
| `ServiceGraph.RedIsGatedAndFrozen` | src/converge_orchestrator/graph_service.py:117-135 | a failing test written first passes its gate and is frozen before anything is built on it |
| `ServiceGraph.FailuresAreAnsweredInTurn` | src/converge_orchestrator/ci.py:248-256 | failing verdicts are answered by all allowed repairs, then a replan with as many again, and at last by a human: the exact answer to the n-th of them |
| `ServiceGraph.AnswersAreFinite` | src/converge_orchestrator/ci.py:248-256 | whoever spent before, every answer without a human is paid for, and a human comes exactly on a retry error or when nothing is left |

## Left out

- Parsing: tree-sitter, JSON and YAML are inputs. The parse of a module is a function of its path and
  text; a minimum argument count is given only for a name the module exports.
- EcmaExports.ExportedNamesAreSymbols: names in `export { x } from` count as the module's own, as in the
  source; they are exported names in either reading.
- EcmaExports.ResolutionAgrees: indirect named exports are not followed into the module they name, because
  the source does not follow them either; a specifier is linked to the module the resolver finds for it.
- ResolverTheorems.CompleteSurfaceIsEcma: the same two readings of indirect named exports.
- PublishedExports.PublishedFindings: the manifests and their entries are given in order, with the targets
  both sides publish; reading them from JSON, and the texts of the findings, are left out.
- RestorePlans.CheckTargets: symbolic links among the parents of a target, and the texts of the blockers.
- RestorePaths.CompletesIff: repositories and state directories are taken to hold a file that is no other
  target, as their markers are, and the host's files to form a tree.
- RestoreDeaths.AlwaysResumableIff: stated on values; creating the ancestors of a target is one step, nothing
  else lies where a stage goes, and the journal, which cannot disagree with the disk without losses, is that
  of RestoreProtocol.
- RestoreProtocol.ValidateState: the identity marker, refusals of links and the quick check of a database.
- RestoreProtocol.RestoreProcess.OpenJournal: the checks of the token, the manifest hash and the stored plan
  of a resumed journal, which compare fixed inputs.
- RestoreInterference.ForeignContentStops: others change targets, one at a time and between attempts, but neither
  stages nor the journal.
- PostgresInterference.ForeignDatabaseStops: the same, and the database as a whole.
- PostgresRestore.PostgresProcess.Begin: the same checks of a resumed journal.
- RestoreSafety.RunsAreSafe: targets are taken to be apart, except a worktree or the database inside a state
  directory; RestoreLayouts and RestoreDeaths say what other layouts do.
- A journal write is one step. Symbolic links, file modes, fsync and the content of Git repositories, beyond
  equality, are not modelled. The half-open state inside creating a journal, which later runs refuse, is not
  either.
- The psql run is one transaction; `pg_restore` and the checks of its archive are left out.
- RunRegistry.ControlRegistry.UpdateRun: the columns for the error text and the active task are left out.
- RunRegistry.ControlRegistry.CreateRun: the uniqueness of thread names and the configuration snapshot.
- `registry_postgres.py` has the contract of `registry.py` and is not modelled again.
- RunRecovery.RunController.Submit: a thread that cannot be started, and the exceptions of configuration
  loading, are left out; reading a checkpoint and claiming the lease are one step.
- RunRecovery.RunController.StartRun: the refusal while the project has another active or waiting run, which
  needs the project's other rows, and the validation of the thread name.
- RunHistories.StartsAreJustified: the first submission by `start_run`, which reads no checkpoint, is the
  start of a history and not an event of it.
- RunWaits.AlwaysWatchedIff: the wake-up times, and other controllers that execute the run, are left out;
  they may change its row at will. A restart that raises leaves the timers it has started.
- CiHistories.AlternatingHeadsForget: a poll's head is an input; the source reads it from the checkpoint.
- RunBudget.RunEvidence.SummarizeModelUsage: decimal costs are real numbers without rounding, and an
  unreadable usage file is left out.
- One process holds the budget and usage locks.
- PromptContext.PreparePrompt: upper-casing a section name is a parameter, the input fraction is a real
  number, and the report's identifiers are left out.
- FrozenRed.FrozenRedStore.RestoreFrozenRed: a target that is a directory, and symbolic links beyond
  what resolving a path yields, are left out; manifest entries always carry their digest.
- EvidenceClosure.EvidenceClosure.constructor: closure and missing are sets; their sorted order is left out.
- Invocations.InvokeWithResilience: the waiting times between attempts and the recorded details are left out.
- ServiceGraph.FailuresAreAnsweredInTurn: the attempts that reviews spend in between are left out; AnswersAreFinite
  holds whoever spent them.
- ServiceGraph: the END edges are left out, nodes other than `ci_poll` are taken to leave the stored CI
  verdict alone, and routers other than `route_after_ci` may take any of their labels.
- Secret, authorisation and migration heuristics, campaign, fencing, quiescence and mutation policies: flat
  predicates that would only add easy members.
