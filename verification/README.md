# Eir: verified models of the approval protocol and its crash-safe state

Eir watches a Windows machine, asks a model what is wrong, and runs fixes — some on its own,
some only after the user approves them. This project models the parts where that can go wrong
in ways no single function shows, and proves what they keep over every run.

| part | files | what it models |
|---|---|---|
| The audit database | `Approvals`, `Store`, `AuditDb`, `Ledger` | the `pending_approvals` table, its repair on load, the execution log and its retention, the undo records; `AuditDb` is the object whose methods run the statements, `Store` and `Approvals` the values they are tied to |
| The approval and execution protocol | `Protocol`, `ProtocolTables`, `ProtocolRuns`, `ProtocolGate`, `ProtocolTheorems`, `ProtocolPaths`, `Executor` | one decision loop, one executor worker and the database, interleaved step by step; every write may fail, every fix may panic or time out, and the process may stop between any two steps |
| What a fix is about | `Actions` | fix actions and their semantic key |
| Registry resets | `Registry`, `UndoProtocol`, `Executor` | typed values, exact undo, chains of resets, concurrent undo requests |
| Game Mode | `GameMode`, `PowerPlan` | the manual latch and the automatic lease, the ordered edges they queue, and the power plan those edges switch |
| The configuration file | `ConfigStore` | backup, temporary file, rename, and the load that falls back |
| Loop bookkeeping | `Investigation`, `IdleSkip`, `Escalation` | investigations, skipped cycles, the daily escalation cap |
| Data bounds | `Utf8`, `ModelOutput`, `Attach`, `ThinPoints` | cutting UTF-8, bounding model output, attaching files, thinning a series |

How to read it: a class holds the fields the program updates, each of its methods is tied by
its `ensures` to a function of the old state, and lemmas about that function say what is kept.
The protocols are state machines on values: `Next` is one step, `Play` a whole run, and the
theorems quantify over all of them. Time is an integer that never goes back, as the code
assumes of its clock. Transactions are atomic and serialised. The partial unique index
(`migrations/0017_durable_approvals.sql`) is part of `Valid()`, so every single statement has
to respect it. `hist` and `trace` in the protocol record what happened and steer nothing.
Policy verdicts, action parsing, serialisation, path normalisation and the outcome of running
an action are arbitrary.

## What turned out not to hold

The code was followed where it and its comments part, and the exact condition proved.

- The sliding-window bound holds on every run exactly when the rate-limit window is at most the log's
  retention plus one clock tick (`ProtocolTheorems.BoundedIffRetained`). The shipped retention is 90 days.
  Rows written before the semantic key existed do not weaken it.
- `config::load` uses the backup only when the live file can be read and does not parse. A live
  file that is missing or unreadable is an error even beside a good backup
  (`ConfigStore.LoadIffReadable`, `ConfigStore.BackupUnusedWhenLiveIsGone`), until a save replaces it
  (`ConfigStore.LoadAfterSaves`).
- A game's end asks for a fresh analysis by clearing the fingerprint. On every run that request is
  lost exactly when an analysis of the same signals was in flight at that moment, succeeds
  afterwards and still counts (`IdleSkip.GameEndIsLostIff`).
- The stored plan is the one Eir's switch replaced, unless another program switches between Eir's read
  and Eir's switch; `PowerPlan.RaceBreaksRecovery` says exactly when that breaks it.
- Apart from that, a plan that the user or another program selects is not always kept: a restore does
  not look at the live plan. A choice survives whatever Eir does from then on exactly when no
  other plan is stored at the moment it is made (`PowerPlan.ChoiceIsKeptIff`); one made during a
  boosted game is overwritten at its end (`PowerPlan.ChoiceDuringAGameIsLost`).
- A restart while an undo runs leaves its record claimed for good although nothing may have been
  restored (`UndoProtocol.RestartLosesARunningUndo`); `UndoProtocol.UndoAtMostOnce` says exactly when a
  record can be claimed.
- The key of a registry reset names its path and value name unambiguously exactly when neither
  holds a bar (`Actions.RegistryTargetUnambiguous`), and the key of a startup change its name,
  location and hive exactly when none of them does (`Actions.StartupTargetUnambiguous`).
- The daily escalation counter is right after every step of a run exactly when every restart reads
  back what the loop had counted (`Escalation.CurrentIffRestartsRecover`); after an analysis it can
  do so exactly when the count was saved, or stood in the table already
  (`Escalation.RecoverableIffSaved`).

## Model

| member | source | states |
|---|---|---|
| `ProtocolTheorems.OneRunPerClick` | eir-svc/src/main.rs:2934-3046 | over every interleaving, failure and restart, each run of a card has a recorded approval of it before it with no other run in between |
| `ProtocolTheorems.RunsNeverExceedClaims` | eir-svc/src/audit.rs:934-969 | on every run a card is executed at most as often as it was successfully claimed |
| `ProtocolTheorems.CountArmed` | eir-svc/src/main.rs:3121-3190 | counting form of the above: a card that may still run has been claimed strictly more often than run |
| `ProtocolTheorems.NothingApprovedIsLost` | eir-svc/src/main.rs:2966-2995 | every recorded approval still stands in the table as approved, or a later event accounts for it: logged by the transaction that removed its card, or, after a panic, a timeout or a rollback, put it back as pending; resolved before it ran; or pending again after startup |
| `ProtocolTheorems.ApprovalNeverMovesAway` | eir-svc/src/audit.rs:1098-1118 | the worker never finds its approved row changed: for any well-formed result the commit is possible, so the "changed before completion" error cannot come from the protocol itself |
| `ProtocolTheorems.InFlightIsExact` | eir-svc/src/main.rs:2254-2264 | the keys of unfolded outcomes, the running job and queued jobs are pairwise distinct and are exactly the in-flight set; the empty key of an undo is never in it |
| `ProtocolTheorems.ReloadKeepsClaims` | eir-svc/src/main.rs:2257-2264 | a reload at any moment of any run drops no pending or approved row, leaves every queued and running job its claim, and returns one card per key within the bound |
| `ProtocolTheorems.LoadKeepsActive` | eir-svc/src/audit.rs:852-901 | on a table this version wrote, a load keeps every active row as it is |
| `ProtocolTheorems.ReportedResetIsDurable` | eir-svc/src/main.rs:1164-1243 | on every run a reset reported successful has, under the id it reports, the very way back the executor handed over, complete, with the successful log row of that execution |
| `ProtocolTheorems.ExecutionsBounded` | eir-svc/src/safety.rs:10-39 | with retention covering the window, every window of the gate's length holds at most three log rows of one key, and a success only as the last of them |
| `ProtocolTheorems.BoundedIffRetained` | eir-svc/src/main.rs:4261-4272 | that bound holds on every run if and only if the window is at most retention plus one clock tick |
| `ProtocolTheorems.ForgottenSuccess` | eir-svc/src/audit.rs:1132-1145 | otherwise a run exists that prunes a success and repeats it inside the window |
| `ProtocolTheorems.AlwaysSound` | eir-svc/src/main.rs:1101-1279 | the invariant behind these theorems holds after every sequence of steps |
| `ProtocolTheorems.SoundAtStart` | eir-svc/src/main.rs:1797-1827 | and at every start on a table one load has repaired, whatever retention removed from the log before |
| `ProtocolPaths.RestartHandsBack` | eir-svc/src/main.rs:1797-1827 | after a restart in any state of any run, exactly the rows that were pending or approved are active, all as pending cards in the queue with their fix |
| `ProtocolPaths.RestartForgetsWork` | eir-svc/src/main.rs:1797-1827 | and nothing is queued, running or waiting to be folded in |
| `ProtocolPaths.NewCardIff` | eir-svc/src/main.rs:2596-2671 | a fix becomes a card exactly if no card of its issue is queued, it is not executing, and the table has room and no active row of it |
| `ProtocolPaths.ApprovalQueues` | eir-svc/src/main.rs:2934-2965 | an approved card whose gate is open and whose key is not in flight is claimed and queued as a job carrying it |
| `ProtocolPaths.DuplicateIsDropped` | eir-svc/src/main.rs:2966-2971 | one whose key is in flight is deleted and not queued |
| `ProtocolPaths.RefusedIsDropped` | eir-svc/src/main.rs:2972-2987 | one that is refused by policy or gate is deleted and not queued |
| `ProtocolPaths.UncheckedStaysApproved` | eir-svc/src/main.rs:2988-2995 | one whose checks could not complete stays approved |
| `ProtocolPaths.AutonomousFixIsQueued` | eir-svc/src/main.rs:2526-2592 | an autonomous fix with an open gate, not in flight and without a card, is queued |
| `ProtocolPaths.AutonomousFixIsSkipped` | eir-svc/src/main.rs:2558-2564 | one that is executing or has a card is not |
| `ProtocolPaths.FinishedJobSettles` | eir-svc/src/main.rs:1101-1279 | a job that ran to its end is logged, its card removed, its undo stored and its key freed |
| `ProtocolPaths.GivenUpJobComesBack` | eir-svc/src/main.rs:1160-1177 | one that panicked or timed out is logged as a failure, and its card is back in the table and in the queue unchanged |
| `ProtocolPaths.RejectedIsFinal` | eir-svc/src/main.rs:2996-3022 | a recorded rejection is final: on no run and after no restart is the card active again, even if its row could not be deleted |
| `ProtocolPaths.IgnoredIsFinal` | eir-svc/src/main.rs:3048-3120 | nor is a card that was ignored and deleted |
| `ProtocolTables.TableStays` | eir-svc/src/audit.rs:677-713 | every step keeps the table bounded, uniquely keyed, each row under the key of its action, and ids below the next one |
| `ProtocolTables.InFlightStays` | eir-svc/src/main.rs:2558-2593 | every step keeps the in-flight set equal to the duplicate-free keys of the work on its way |
| `ProtocolTables.CardsStay` | eir-svc/src/main.rs:2596-2671 | every step keeps each card of the queue a pending row holding that very action |
| `ProtocolTables.TicketsStay` | eir-svc/src/main.rs:2943-2970 | every step keeps each queued or running job's row approved and held by that job alone |
| `ProtocolTables.WorkerKeyNotQueued` | eir-svc/src/main.rs:1095-1108 | no job behind the running one has its key |
| `ProtocolRuns.RunsStay` | eir-svc/src/main.rs:2937-2965 | every step keeps every unstarted claim fresh and every past run preceded by its own approval |
| `ProtocolRuns.ClaimsStay` | eir-svc/src/audit.rs:1005-1125 | every step keeps every approval accounted for |
| `ProtocolRuns.CarriedOver` | eir-svc/src/audit.rs:930-943 | an approved row survives a step, or that step's one event settles it |
| `ProtocolGate.GateStays` | eir-svc/src/main.rs:4812-4833 | every step keeps the gate that was read before queueing open until the job's row is written |
| `ProtocolGate.LogAfterCommit` | eir-svc/src/main.rs:1164-1177 | a commit of a cleared job keeps the log within the gate |
| `ProtocolGate.ResetsStay` | eir-svc/src/audit.rs:1019-1096 | every step keeps every reported successful reset backed by a stored undo |
| `ProtocolGate.ReportCarriesItsWay` | eir-svc/src/main.rs:1164-1177 | a reported successful reset carries the way back of the result it reports |
| `Executor.SettleJob` | eir-svc/src/main.rs:1160-1276 | the worker's commit, rollback and second commit do what the protocol's steps do; a card whose fix panicked, timed out or was rolled back is pending again with a reload asked for, a result of its own removes it; a reset is reported successful only with log row and undo stored, and otherwise is back at its exact prior type and data or nothing was committed and its approval stands |
| `Executor.LiveRegistry.RestoreValue` | eir-svc/src/executor/registry.rs:163-236 | a restore writes only over the value the reset applied, and on success leaves the exact prior value |
| `AuditDb.AuditDb.InsertPendingApproval` | eir-svc/src/audit.rs:677-739 | a card is stored exactly when its texts fit, the queue has room and the index has no row of its key |
| `AuditDb.AuditDb.ClaimPendingApproval` | eir-svc/src/audit.rs:947-988 | only a pending row that parses can be claimed, and a failure changes nothing |
| `AuditDb.AuditDb.DeletePendingApproval` | eir-svc/src/audit.rs:991-998 | removes that row and no other, or fails and changes nothing |
| `AuditDb.AuditDb.RequeueClaimedApprovalsOnStartup` | eir-svc/src/audit.rs:934-943 | no row goes; every approved row becomes pending and is else as it was, every other row is untouched, and the approved ones are counted |
| `AuditDb.AuditDb.SanitizeActiveApprovalRows` | eir-svc/src/audit.rs:741-784 | drops oversized rows, then all but the 256 best |
| `AuditDb.AuditDb.SelectActive` | eir-svc/src/audit.rs:791-798 | the active ids, approved first and newest first |
| `AuditDb.AuditDb.SplitWinners` | eir-svc/src/audit.rs:800-820 | the scan keeps exactly the rows that win their key |
| `AuditDb.AuditDb.SetKeys` | eir-svc/src/audit.rs:837-843 | each key is written back without ever meeting another active row of it, and the result is the normalised table |
| `AuditDb.AuditDb.NormalizeActiveApprovalKeys` | eir-svc/src/audit.rs:789-846 | from any table that satisfies the index to the normalised one, the index kept by every statement |
| `AuditDb.KeyIsFree` | eir-svc/src/audit.rs:822-843 | while winners get their keys back one at a time, the next one's key is held by nobody |
| `AuditDb.AuditDb.LoadPendingApprovals` | eir-svc/src/audit.rs:852-901 | repairs the table and returns, oldest first and at most 256, exactly the pending rows that survive, whichever of the best-effort deletes fail |
| `AuditDb.AuditDb.DropUnreadableRows` | eir-svc/src/audit.rs:867-880 | deletes exactly the pending rows that do not parse, but for those whose delete fails, and keeps the rest in order |
| `AuditDb.AuditDb.SweepDuplicates` | eir-svc/src/audit.rs:882-900 | the backward sweep keeps the newest card of each key, oldest first, and deletes the others as far as that works |
| `AuditDb.NothingToSweep` | eir-svc/src/audit.rs:882-900 | after normalisation the sweep deletes nothing |
| `AuditDb.LeftByFailedDeletes` | eir-svc/src/audit.rs:870-878 | failed deletes leave unreadable pending rows for the next load and nothing else |
| `AuditDb.NoDeletesOnCleanTable` | eir-svc/src/audit.rs:867-898 | on a table this version wrote there is none to delete |
| `AuditDb.AuditDb.PersistExecution` | eir-svc/src/audit.rs:1007-1125 | log row, undo record and approval transition become visible together, or, wherever it fails or stops, not at all |
| `AuditDb.AuditDb.PruneOld` | eir-svc/src/audit.rs:1132-1145 | removes exactly the log rows before the cutoff |
| `AuditDb.AuditDb.ClaimRegistryUndo` | eir-svc/src/audit.rs:530-579 | one call flips a free record and gets its undo; every other call changes nothing |
| `AuditDb.AuditDb.UnclaimRegistryUndo` | eir-svc/src/audit.rs:583-589 | frees that record and no other |
| `Approvals.LoadRepairs` | eir-svc/src/audit.rs:741-901 | from any table at all, a load leaves a bounded, uniquely keyed one whose keys fit their actions, and creates, approves or un-approves no row |
| `Approvals.LoadKeepsExactly` | eir-svc/src/audit.rs:741-880 | from any table at all, which rows a load keeps: those of the best 256 that are not oversized whose action is readable, that outrank every other such row of their key, and that are readable throughout while pending; they get their key and are else unchanged |
| `Approvals.LoadedQueue` | eir-svc/src/audit.rs:882-901 | the queue is the pending rows, one card per key |
| `Approvals.OneRowPerKey` | eir-svc/src/audit.rs:786-820 | every key an active readable row had keeps exactly one row, and it beats the others: approved before pending, then the newest |
| `Approvals.NormalizedKeepsIndex` | eir-svc/src/audit.rs:822-843 | the normalised table satisfies the index and every active row carries its action's key |
| `Approvals.BestIdsBound` | eir-svc/src/audit.rs:761-776 | the rows kept are at most 256, all of them if they fit, and each beats every row dropped |
| `Approvals.LoadOfCleanTable` | eir-svc/src/audit.rs:852-859 | on a table this version wrote, a load only retires rejected rows, in its first statement; the later ones find nothing to do |
| `Approvals.RankedInOrder` | eir-svc/src/audit.rs:791-798 | the ranking lists each id once, better before worse |
| `Ledger.GateOpensOnQuietWindow` | eir-svc/src/safety.rs:19-39 | the gate opens exactly when the rows it matches are fewer than three, all failures |
| `Ledger.LimitedIff` | eir-svc/src/safety.rs:19-39 | on the fields of the log: limited exactly on a success, or on three rows, among those younger than the window with the key or, without a key, the label |
| `Ledger.GatePassed` | eir-svc/src/safety.rs:23-29 | an open gate means the keyed rows are quiet, whatever legacy rows also match |
| `Ledger.WindowBound` | eir-svc/src/safety.rs:7-16 | a log whose rows were all written through an open gate has at most three of a key in any window, none after a success |
| `Ledger.RespectedIsBounded` | eir-svc/src/safety.rs:7-16 | the same on the fields of the log: no four rows of a key in a window, none after a success |
| `Ledger.PruningDropsAPrefix` | eir-svc/src/audit.rs:1132-1145 | on a log in time order, retention drops a prefix of rows before the cutoff |
| `Ledger.PrunedMeans` | eir-svc/src/audit.rs:1132-1145 | retention keeps exactly the rows at or after the cutoff |
| `Actions.SameKeyIffSameIssue` | eir-svc/src/models.rs:470-545 | two actions share a key exactly when kind and target text are the same, and no key is empty |
| `Actions.KeyIffSameVariantAndTarget` | eir-svc/src/models.rs:470-545 | actions of different variants never share a key; two of one variant share it when the fields that are keyed on agree, up to ASCII case or path normalisation, and without bars only then; value data, scripts and ages never count |
| `Actions.RegistryTargetUnambiguous` | eir-svc/src/models.rs:500-511 | a reset's target names path and value name unambiguously exactly when neither holds a bar |
| `Actions.StartupTargetUnambiguous` | eir-svc/src/models.rs:525-541 | a startup change's target names its entry unambiguously exactly when name, location and hive hold no bar |
| `Actions.StandingApprovalCoversNoScript` | eir-svc/src/models.rs:460-468 | a standing approval is refused exactly for the actions whose key would cover every script |
| `Actions.SameFixIffSameIssue` | eir-svc/src/models.rs:470-545 | the protocol takes two fixes for one exactly when their actions share a key: for targets without bars, one variant on the same target |
| `Registry.ReverseUndoIsExact` | eir-svc/src/models.rs:593-611 | undoing a chain of resets in reverse order returns the original type and data |
| `Registry.OutOfOrderUndo` | eir-svc/src/models.rs:605-607 | out of order, an undo goes through exactly when the live value still is what its reset applied, and otherwise changes nothing |
| `UndoProtocol.UndoAtMostOnce` | eir-svc/src/main.rs:3555-3608 | on every run each record has at most one holder and one successful restore, and is free exactly when nobody holds it, restored it or was lost holding it |
| `UndoProtocol.RequestedUndoRestores` | eir-svc/src/main.rs:3555-3596 | a request for a free record whose value still is what was applied puts back the prior value |
| `UndoProtocol.RefusedUndoCanBeRetried` | eir-svc/src/main.rs:3570-3578 | one whose value changed leaves everything as it was once released |
| `UndoProtocol.UndoneInReverseIsOriginal` | eir-svc/src/models.rs:593-611 | on every run in which no other program writes a value and its resets are put back latest first, it is what the latest open reset applied, and its exact original once none is open |
| `UndoProtocol.GuardKeepsOrder` | eir-svc/src/executor/registry.rs:194-236 | the guard by itself enforces that order unless an earlier open reset applied the very value of the latest |
| `UndoProtocol.RestoreIsGuarded` | eir-svc/src/executor/registry.rs:163-236 | a restore never writes over a value that is not the one applied, and touches no other value |
| `UndoProtocol.RestartLosesARunningUndo` | eir-svc/src/main.rs:3557-3578 | a restart while an undo runs leaves the record claimed and unusable |
| `PowerPlan.PowerControl.OnGamingEdge` | eir-svc/src/game_mode.rs:22-47 | the steps of an edge, each able to fail, to work although it reported failure, or to be the last |
| `PowerPlan.PowerControl.RestorePlan` | eir-svc/src/game_mode.rs:52-67 | the saved plan is forgotten only after the switch back succeeded |
| `PowerPlan.NoBoostWithoutTheSetting` | eir-svc/src/game_mode.rs:27-33 | with the setting off the start of a game changes nothing |
| `PowerPlan.BoostStoresAndSwitches` | eir-svc/src/game_mode.rs:34-47 | with it on and no faults the machine ends on High Performance with the old plan stored, or is there already |
| `PowerPlan.EndGoesBack` | eir-svc/src/game_mode.rs:52-67 | the end of a game goes back to the stored plan and forgets it, whatever the setting |
| `PowerPlan.NoSwitchWithoutStore` | eir-svc/src/game_mode.rs:34-47 | a plan that could not be stored is not switched away from |
| `PowerPlan.NotForgottenBeforeRestored` | eir-svc/src/game_mode.rs:52-67 | a stored plan is forgotten only after a switch back that reported success |
| `PowerPlan.AlwaysRecoverable` | eir-svc/src/game_mode.rs:13-47 | on every run, whenever Eir's switch is in force the stored plan is the one active just before it |
| `PowerPlan.RaceBreaksRecovery` | eir-svc/src/game_mode.rs:26-46 | with another program switching between read and switch, exactly when the stored plan is no longer the one replaced |
| `PowerPlan.ChoiceIsKeptIff` | eir-svc/src/game_mode.rs:22-67 | a plan selected by someone else stays in force or stored through every later run of Eir alone exactly when no other plan is stored at that moment |
| `PowerPlan.RestoreOverwritesIff` | eir-svc/src/game_mode.rs:52-58 | a restore overwrites a plan selected since exactly when it takes effect with another plan stored |
| `PowerPlan.ChoiceDuringAGameIsLost` | eir-svc/src/game_mode.rs:52-58 | a run without fault or race in which a plan chosen during a game is gone after it |
| `PowerPlan.RestoreBringsBack` | eir-svc/src/main.rs:1646-1648 | after any number of failed attempts the next working restore brings that plan back |
| `PowerPlan.SessionLeavesNoTrace` | eir-svc/src/game_mode.rs:22-67 | without faults, any edges ending in an off leave the plan and the store as they were |
| `GameMode.GamingState.OnSetGaming` | eir-svc/src/main.rs:2748-2784 | a message changes latch or lease and queues an edge exactly when Game Mode as a whole starts or ends |
| `GameMode.GamingState.OnTick` | eir-svc/src/main.rs:4057-4064 | a tick ends a session whose lease lapsed |
| `GameMode.GamingState.ApplySetGaming` | eir-svc/src/main.rs:603-616 | manual is a latch, automatic a lease, and a manual off withdraws both |
| `GameMode.ManualLasts` | eir-svc/src/main.rs:603-608 | a manual on holds at every later time, a manual off ends everything |
| `GameMode.LeaseLasts` | eir-svc/src/main.rs:609-615 | an automatic on lasts 90 seconds beside the latch, an automatic off withdraws the lease alone |
| `GameMode.EdgeIffTransition` | eir-svc/src/main.rs:2748-2784 | an edge is queued exactly when Game Mode as a whole starts, with the boost setting, or ends |
| `GameMode.EdgesAgree` | eir-svc/src/main.rs:1649-1659 | on every run the last queued edge is on exactly while the loop counts as gaming, active Game Mode implies that, and offs directly follow ons |
| `GameMode.PlanIsBackAfterGame` | eir-svc/src/main.rs:4052-4064 | once a tick has seen Game Mode over, draining the queued edges leaves the plan the machine started with |
| `ConfigStore.ConfigDir.Save` | eir-svc/src/config.rs:547-566 | backup only from a config that parses, temporary file, rename; cut off anywhere |
| `ConfigStore.BackupAfterSave` | eir-svc/src/config.rs:551-558 | the backup is the live text if that parses and the write was whole, and is never touched by a live file that does not parse |
| `ConfigStore.LiveAfterSave` | eir-svc/src/config.rs:560-565 | the live file is only ever replaced by the whole new text |
| `ConfigStore.BackupCoversTheLastSave` | eir-svc/src/config.rs:536-566 | after a whole save, losing the new text leaves the previous configuration to load |
| `ConfigStore.SaveIsAtomic` | eir-svc/src/config.rs:547-566 | a save cut off anywhere leaves the old configuration in force or puts the new one |
| `ConfigStore.SavesAreCrashConsistent` | eir-svc/src/config.rs:547-566 | from any files and after any number of such saves, the configuration in force is the last one whose save reached the rename, or else the one before; the live file is there exactly if it was or a save put it there |
| `ConfigStore.LoadAfterSaves` | eir-svc/src/config.rs:647-673 | what load then returns, error cases included; what could be loaded before still can |
| `ConfigStore.LoadIffReadable` | eir-svc/src/config.rs:647-673 | load succeeds exactly when the live file can be read as text and it or the backup parses |
| `ConfigStore.BackupUnusedWhenLiveIsGone` | eir-svc/src/config.rs:647-673 | a good backup is not read when the live file is missing |
| `Investigation.InvestigationState.OnInvestigate` | eir-svc/src/ask.rs:281-309 | accepts exactly a text of 1 to 1000 characters, with a provider, not paused, none open and a minute since the last; else nothing changes |
| `Investigation.InvestigationState.OnAnalysisDone` | eir-svc/src/main.rs:2329-2366 | an analysis that carried a request reports and clears it, any other leaves it |
| `Investigation.EveryInvestigationReportedOnce` | eir-svc/src/main.rs:871-887 | on every run the reports name the accepted requests, each once and in order, at most one is open, and each report stems from an analysis that was given it |
| `Investigation.ConservedAtStart` | eir-svc/src/main.rs:873-887 | and that holds at the start |
| `Investigation.LateRequestWaits` | eir-svc/src/main.rs:3812-3818 | a request made during an analysis outlives it, however it ends, and goes into the next |
| `IdleSkip.FingerprintIgnoresOrder` | eir-svc/src/main.rs:1437-1485 | the fingerprint is independent of the order of signals and, without line breaks in the parts, tells different sets of actionable parts apart |
| `IdleSkip.ActionableIff` | eir-svc/src/main.rs:1437-1475 | which signals have a part |
| `IdleSkip.SamePartIffSameFault` | eir-svc/src/main.rs:1446-1468 | without bars in the fields, two parts are equal exactly when kind and identifying fields are |
| `IdleSkip.StartsIff` | eir-svc/src/main.rs:4327-4352 | on every run a cycle starts an analysis exactly when none runs and the user asked, the heartbeat is due, or something actionable is not what the last success since any reset was of |
| `IdleSkip.SkipsAreHonest` | eir-svc/src/main.rs:4323-4352 | on every run a skipped actionable cycle has the fingerprint of the last successful analysis, with no quiet skip and no game end in between, and the remembered fingerprint is exactly that one |
| `IdleSkip.HonestAtStart` | eir-svc/src/main.rs:4323-4352 | and that holds at the start |
| `IdleSkip.GameEndIsLostInFlight` | eir-svc/src/main.rs:2353-2356 | a game end's reset is undone exactly when an analysis of the same signals was in flight and succeeds |
| `IdleSkip.GameEndIsLostIff` | eir-svc/src/main.rs:2353-2356 | on every run, with no analysis begun since a game ended, the next cycle is skipped exactly when an analysis of its signals was in flight at the end, has succeeded since and still counts |
| `Escalation.AdvisorCounters.OnSpawn` | eir-svc/src/main.rs:4377-4389 | a new day starts its count at zero before the analysis gets its baseline |
| `Escalation.AdvisorCounters.OnAnalysisDone` | eir-svc/src/main.rs:2379-2387 | a count from yesterday is not carried into a day that began while the analysis ran |
| `Escalation.AlwaysCapped` | eir-svc/src/main.rs:2379-2413 | on every run at most 24 are counted, and while the table can be saved and loaded the counter is the number of successful escalations folded in that day |
| `Escalation.NoEscalationPastTheCap` | eir-svc/src/main.rs:908-936 | no escalation starts once 24 are counted for the current day |
| `Escalation.EscalatesBelowTheCap` | eir-svc/src/main.rs:4411-4437 | on every run an analysis that wants to escalates exactly while fewer than 24 are counted |
| `Escalation.EscalatesOnDoubt` | eir-svc/src/main.rs:908-936 | advisor on, a deeper tier set, below the cap, and flagged as ambiguous or with findings none of which reaches the threshold |
| `Escalation.UnsavedCountIsForgotten` | eir-svc/src/main.rs:2404-2413 | a count that could not be saved is lost by a restart |
| `Escalation.CurrentIffRestartsRecover` | eir-svc/src/main.rs:2373-2413 | on every run the counter is the number folded in that day after every step exactly when every restart reads back what the loop had counted |
| `Escalation.OnlyRestartForgets` | eir-svc/src/main.rs:4377-4389 | no failed save, failed analysis or midnight makes the counter wrong by itself |
| `Escalation.RestartForgetsIff` | eir-svc/src/audit.rs:259-284 | a restart makes it wrong exactly when what it reads for today differs from what was counted |
| `Escalation.RecoverableIffSaved` | eir-svc/src/audit.rs:286-314 | after a fold the table can give the count back exactly when it was saved or already stood there |
| `Escalation.LaterSaveMakesUp` | eir-svc/src/main.rs:2402-2413 | a later save makes up for a failed one |
| `Escalation.CurrentCounterCaps` | eir-svc/src/main.rs:908-923 | while the counter is right no analysis escalates past 24 folded in that day, whatever became of the saves |
| `Utf8.TruncateUtf8Bytes` | eir-svc/src/models.rs:688-697 | ends with the longest well-formed prefix within the limit, at most three bytes short of it |
| `Utf8.BoundaryIffValid` | eir-svc/src/models.rs:692-695 | a prefix of a string is a string exactly when it ends at a character boundary |
| `Utf8.ValidIffEncoded` | eir-svc/src/models.rs:688-697 | well formed means: the encoding of some sequence of Unicode scalar values (section 3 of RFC 3629) |
| `Utf8.DecodeAfterEncode` | eir-svc/src/models.rs:688-697 | decoding what was encoded returns the characters |
| `Utf8.EncodeAfterDecode` | eir-svc/src/models.rs:688-697 | encoding what was decoded returns the bytes |
| `Utf8.PrefixInChars` | eir-svc/src/models.rs:688-697 | a well-formed prefix is a prefix in characters |
| `ModelOutput.ModelDecision.BoundModelOutput` | eir-svc/src/models.rs:653-672 | cuts the texts, drops the problems whose action fails the filter, keeps the first five |
| `ModelOutput.KeepsFirstFivePassing` | eir-svc/src/models.rs:649-672 | what is kept is the first five problems whose untouched action passes, in order, actions unchanged |
| `ModelOutput.KeptFields` | eir-svc/src/models.rs:649-672 | each kept problem is the next acceptable one with each text cut to the longest well-formed prefix of that very text within 16 KiB, and nothing else changed |
| `ModelOutput.PassesIffAcceptable` | eir-svc/src/models.rs:666-670 | an action is kept exactly when every text and member name in it is within 16 KiB, it serialises within 64 KiB, and it parses |
| `ModelOutput.BoundingIsIdempotent` | eir-svc/src/models.rs:653-672 | bounding twice is bounding once |
| `ModelOutput.WithinMeans` | eir-svc/src/models.rs:675-686 | the check holds exactly when every text and member name anywhere in the value is within the limit |
| `Attach.TextIffExtends` | eir-ui/src/ask_attach.rs:178-195 | bytes are text exactly when they hold no NUL and some continuation makes them well formed |
| `Attach.CappedReadIsText` | eir-ui/src/ask_attach.rs:153-195 | for every well-formed file without NUL and every read cap, the capped bytes are text and that is a character prefix of the file |
| `Attach.ReadCapCostsNoText` | eir-ui/src/ask_attach.rs:14-34 | with the real caps, what is attached is exactly the file's first 102400 characters |
| `Attach.CheckedMeans` | eir-ui/src/ask_attach.rs:187-193 | the three verdicts: well formed, cut short after the longest well-formed prefix, or beyond repair |
| `Attach.ProcessFiles` | eir-ui/src/ask_attach.rs:60-81 | picks in order within count and byte budget, and leaves a readable file out only if it did not fit beside those picked before it |
| `ThinPoints.ThinnedEvenly` | eir-svc/src/audit.rs:419-429 | exactly `cap` points, both ends among them, strictly in order, gaps between floor and ceiling of the even stride; short series untouched |
| `ThinPoints.NoEvenerChoice` | eir-svc/src/audit.rs:419-429 | no other choice of as many points with both ends has a smaller largest gap or a larger smallest one |

## Left out

- Named pipe, Unix socket, `eirctl`, the tray UI and the end-to-end harness: transport and presentation; their commands are steps of the loop.
- AI calls, prompts, digests, explanations and notifications: each is an arbitrary result.
- `policy`, `learn`, `feedback`, `prefs`, the updater and the Windows service install: a policy verdict is arbitrary at every use, and what they store steers nothing modelled here.
- The real registry, powercfg, SFC, DISM and process calls: each may fail, or work although it reported failure; the registry script's guard and write are one step.
- SQLite itself: transactions are atomic and serialised, and the partial unique index is enforced; power loss between write and flush is not modelled.
- AuditDb.AuditDb.LoadPendingApprovals: a statement of the load that fails as a whole is not in its contract; the protocol has such a load as a step (`Retire`).
- AuditDb.AuditDb.PersistExecution: the `decisions.executed` flag and the free-text output are not stored in the model.
- AuditDb.AuditDb.PruneOld: the other tables pruned with the log are not modelled.
- The death of the worker task itself, after which sending a job fails: a panic inside a fix is modelled, one in the worker's own loop is not.
- In the protocol the queue of cards is a map by row id; its order is stated on `AuditDb.AuditDb.LoadPendingApprovals`.
- The rate-limit window and the retention are fixed during a run; timestamps are integers whose order is the order of the stored text.
- The protocol starts from a table that one load has repaired; `Approvals.LoadRepairs` covers every table before that, except that an approved row whose details do not parse may stay until startup requeues it.
- Lexical path normalisation is an arbitrary function; the case folding of plan GUIDs and of keys is ASCII.
- Attach.ProcessFiles: image decoding and folder walking (`process_folder`) are left out; a file is what its bytes would add.
- Attach.CheckedMeans: `from_utf8` is modelled by its documented contract, as a scan by characters.
- Investigation: the Ask history's own limit of entries and clearing it by hand.
- IdleSkip.FingerprintIgnoresOrder: line digests are opaque texts, so collisions of the 64-bit digest are outside it; the parts of resource and service faults are opaque too.
- Advisor spend, token cost and resource trends: floating-point totals that gate nothing modelled here.
- ThinPoints.ThinnedEvenly: index products are unbounded integers.
