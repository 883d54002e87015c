# Logstash agent: a verified model of its state machines

The agent keeps a Logstash instance in step with a policy server. It upgrades the Logstash
distribution through an undo log, merges configuration from two channels into one apply, reconciles
pipelines, downloads distributions in the background, tails the Logstash log, and guards a
simulation instance against restart storms. This project models those parts in Dafny and proves
what holds over whole runs. The disk, the clock, systemd, the HTTP peer and the thread scheduler
are parameters: every theorem quantifies over all their answers.

`dafny verify dfyconfig.toml` checks everything.

## How the model is laid out

| module | part of the agent | main results |
|---|---|---|
| `EnvFile`, `RuntimeDisk`, `RuntimeUpgrade` | the undo log of a runtime upgrade | when the launched binary is crash-atomic; the snapshot ends in commit or undo only; restore can be restarted |
| `DeltaMerge`, `MergedApply` | policy and SNMP deltas in one apply, check-ins, whole runs | merged equals sequential exactly when no deleted name comes back; every upgrade resolved once; exact restart and revision accounting |
| `CheckInOutcome` | what a check-in means to whoever changes a policy | exactly when Logstash restarts, when the revision is recorded, what becomes of a runtime change, of each file, key and hash |
| `PipelineNames`, `PipelineReconcile` | `conf.d`, `pipelines.yml`, recorded hashes | what an update leaves, setting by setting; the exact next delta of a diffing server; when a revision or an id recurs |
| `VersionDownloads` | controller and download workers | one live worker per version over all interleavings |
| `ArtifactDownload` | resumable download | the part file is a prefix at every moment; interruptions are overcome; only the artifact is extracted |
| `SignalDedup`, `RestartPairing` | restart analysis | cluster bounds; the two-pointer scan is a maximum matching |
| `LogWatcher` | log tailing | when chunking does not matter; what each report says, entry by entry |
| `SimulationQueue`, `RecoveryLimit`, `BusStorm`, `Supervisor` | simulation control | FIFO accounting and the exact fate of a request; rate-limit distances under overlap; exactly when storms restart; exactly when health and heap verdicts fall |
| `DependencyClosure` | license notice | the worklist computes reachability; when nothing listed is missed |

Code that updates things in place is a class whose methods are proved against specification
functions; the properties of those functions are lemmas beside it, which say in the end what
happens to each name, file, setting or request, in terms of the source's own constants. In `RuntimeUpgrade` and
`ArtifactDownload` a journal records every durable moment of the disk, half-written states
included. A process death cuts the run back to one of them, so an invariant over the journal is a
statement about crashes at every point.

## Where the code does less than one might expect

Each property that does not hold in general is stated with the exact condition under which it
does, and some with a run that shows the failure.

- Only the binary of a pin is crash-atomic. A commit cut between its writes leaves a mixed pin,
  and the drift test may not notice (`PinIsAtomicExactlyWhen`, `DriftIsReportedExactlyWhen`,
  `TornPinGoesUnnoticed`).
- The env file is rewritten in place. An edit that dies before it has written the binary line,
  with no upgrade to undo, leaves a unit that does not launch, and recovery does not repair it
  (`CutEditLaunchesExactlyWhen`, `DeathInEditIsFinal`); every other durable moment of every run is
  fine (`Run`).
- A rollback restores files, not what agent state records about them: keystore and pipeline
  hashes of successful writes (`HashesSurviveRollbackExactlyWhen`, `RolledBackRun`) and a new
  keystore password (`RolledBackCheckIn`) stay, although the keystore file and the password in the
  env file are the old ones.
- An aborted policy rollout stops the SNMP changes of the same check-in only if its verdict counts.
  A check-in for SNMP alone whose first configuration file cannot be written applies and records
  them, and may restart (`AbortedFetchWritesNothingExactlyWhen`, `AbortedWritesExactlyWhen`).
- An exception late in the fetch loses the restart for files and password already changed; one for
  keys still takes place (`RestartsExactlyWhen`).
- A keystore password that cannot be decrypted does not by itself hold the revision back
  (`RevisionAdvancesExactlyWhen`).
- A check-in goes on after a failed recovery, and what it applies is then taken back by the next
  one (`SettingsSurviveExactlyWhen`, `RevisionIsLost`).
- A missing env file is created by the flip and not removed by the rollback
  (`RollbackRelaunchesExactlyWhen`); captured names that were absent before an upgrade stay
  (`RestoreIsExactUndo`).
- A snapshot whose removal dies half way may be restored without the entries it already lost
  (`CutRemovalIsHarmlessExactlyWhen`).
- A name that one channel deletes and an earlier one set comes back (`MergedEqualsSequential`).
- Pipelines without input that are not in a delta are forgotten by it, so two groups of them
  displace each other for ever (`SettlesEventuallyExactlyWhen`, `NoInputPipelinesNeverSettle`,
  `OneChangeStartsIt`).
- Pipeline ids can collide (`IdsCollideExactlyWhen`) and recur (`IdsRecurExactlyWhen`,
  `InterruptionBringsBackFirstId`).
- A log line that is JSON but not a log entry raises. The rest of its chunk is lost and the carry
  buffer is not advanced, so from then on what is processed depends on the chunking
  (`RobustExactlyWhen`, `RaisingStreamIsChunkedDifferently`).
- A complete part file is thrown away and fetched again (`WholePartIsFetchedAgain`), and bad
  bytes in a short one survive until the checksum (`TwoTurnsSuffice` says when).
- A supervisor restart does not reset the unresponsive counter
  (`RestartAgainAfterOneSilentSample`).
- Recoveries that overlap can be recorded closer than the limit allows: a record is within the
  limit exactly if the check would pass again at that moment (`LimitedExactlyWhen`,
  `RunInterleaved`, `RecordBoth`).
- Of several lock-file packages with one name only the last one's dependencies are followed
  (`GraphIsCompleteExactlyWhen`, `ClosureIsCompleteExactlyWhen`).

The docstring of `_set_env_file_var` says that every other line is preserved verbatim
(src/logstashagent/controller.py:513-514), and `_download_file` that a 416 means the partial is
wrong (src/logstashagent/logstash_download.py:441-442). The first is proved, the second does not
hold for a complete partial; the code is followed.

## Model

| member | source | states |
|---|---|---|
| EnvFile.SetThenLookup | src/logstashagent/controller.py:523-531 | What systemd reads for a variable after the edit is the written value, or nothing after a removal, whatever duplicate assignments the file held |
| EnvFile.OtherLinesVerbatim | src/logstashagent/controller.py:513-525 | Every line that does not assign the variable survives verbatim and in order |
| EnvFile.OtherKeysKept | src/logstashagent/controller.py:508-531 | Editing one variable leaves the value of every other variable alone, in particular LOGSTASH_BINARY when another one is edited |
| EnvFile.SetVarEdits | src/logstashagent/controller.py:523-531 | All of this in one: only the assignments of the variable differ, and what is left of them is the one line `key=value` |
| EnvFile.AssignsOneKey | src/logstashagent/controller.py:524-525 | A line that starts with `key=` assigns no other key |
| EnvFile.CutKeepsExactlyWhen | src/logstashagent/controller.py:531 | An in-place rewrite cut after k lines and c characters leaves the value of a variable that is assigned once if and only if its line is complete |
| RuntimeDisk.RestoreIsRestartable | src/logstashagent/controller.py:943-962 | A restore cut off anywhere, whatever half-written entries it left, followed by a complete one gives the same settings as one complete restore |
| RuntimeDisk.RestoreIsIdempotent | src/logstashagent/controller.py:943-962 | Restoring twice is restoring once |
| RuntimeDisk.RestoreUndoes | src/logstashagent/controller.py:896-922 | Captured files regain their content, captured directories become exactly what they were, everything else is left as it is |
| RuntimeDisk.RestoreBringsBack | src/logstashagent/controller.py:943-958 | After a complete restore each of logstash.yml, jvm.options, log4j2.properties, pipelines.yml and the keystore that was captured has its old content, pipelines and conf.d are entry by entry what they were, and every other file and directory is untouched |
| RuntimeDisk.RestoreIsExactUndo | src/logstashagent/controller.py:943-958 | For an upgrade that touched captured names only, a restore gives back exactly the old settings if and only if the upgrade created no captured entry that was absent before |
| RuntimeDisk.BaseIsEarlierMoment | src/logstashagent/controller.py:911-912 | Over any run with crashes, the settings and env file a snapshot was taken of are those of the last durable moment without a snapshot |
| RuntimeDisk.SnapshotEndsInCommitOrUndo | src/logstashagent/controller.py:1142-1163 | Over any run with crashes, a readable snapshot disappears only when the new pin is recorded and launched, or when env file, the five configuration files and the two pipeline directories are as at the last moment without a snapshot |
| RuntimeDisk.UnreadableSnapshotIsInert | src/logstashagent/controller.py:1175-1180 | While meta.json is missing or unreadable the recorded pin never changes and, outside env edits, neither does the launched binary, so discarding the snapshot loses nothing |
| RuntimeDisk.RollbackRelaunchesExactlyWhen | src/logstashagent/controller.py:954-958 | After flip and restore the unit launches the recorded binary if and only if the old env file named it, or there was none and the upgrade kept the binary |
| RuntimeDisk.CutRemovalIsHarmlessExactlyWhen | src/logstashagent/controller.py:1159-1161 | A snapshot removal that dies half way is harmless if and only if the pin is recorded, meta.json is gone, or every captured directory left is whole; the next recovery then just drops the rest |
| RuntimeDisk.SettingsSurviveExactlyWhen | src/logstashagent/controller.py:1166-1205 | The settings on disk survive the next recovery if and only if there is nothing to undo or every captured entry is as the snapshot has it |
| RuntimeDisk.SafeExactlyWhen | src/logstashagent/controller.py:531 | A durable moment is safe unless it lies inside an env edit that nothing can undo and that has not written the binary line |
| RuntimeDisk.CutEditLaunchesExactlyWhen | src/logstashagent/controller.py:531 | With the binary named once, at line p, an edit cut after k lines and c characters still launches the recorded binary if and only if that line is complete; under a snapshot to undo every cut is safe |
| RuntimeDisk.DeathInEditIsFinal | src/logstashagent/controller.py:1166-1205 | A death at an unsafe moment is one inside such an edit, and recovery does not repair it |
| RuntimeDisk.PinIsAtomicExactlyWhen | src/logstashagent/controller.py:1112-1119 | A commit cut after k pin writes leaves the old or the new pin if and only if no field is left half way, spelled out per k |
| RuntimeDisk.TornPinGoesUnnoticed | src/logstashagent/controller.py:1112-1119 | A concrete cut commit: old binary under new source and version, and once the download directory agrees the drift test of the check-in reports nothing |
| RuntimeDisk.DriftIsReportedExactlyWhen | src/logstashagent/controller.py:3380-3398 | For a cut commit, the exact cases in which the drift test still reports the difference |
| RuntimeUpgrade.Host.constructor | src/logstashagent/controller.py:1166-1205 | A host without snapshot whose unit launches the recorded binary starts a sound journal |
| RuntimeUpgrade.Host.Crash | src/logstashagent/controller.py:1166-1205 | A process death leaves the disk at one of its durable moments; soundness of the whole history survives |
| RuntimeUpgrade.Host.WriteEnvVar | src/logstashagent/controller.py:508-543 | Only the assignments of that other variable differ afterwards; the file passes through beginnings of its new content only, and the launched binary is the same |
| RuntimeUpgrade.Host.EditEnv | src/logstashagent/controller.py:531 | An in-place rewrite, caught at any of the given cuts, keeps every guarantee of the history |
| RuntimeUpgrade.Host.EnsureJvmOpts | src/logstashagent/controller.py:553-572 | Only LS_JVM_OPTS differs, and it names jvm.options exactly while that file is there; the launched binary stays |
| RuntimeUpgrade.Host.WriteRuntimeSnapshot | src/logstashagent/controller.py:906-930 | An existing snapshot is refused and untouched; it succeeds exactly when every needed copy does, and then holds the captured settings, env and meta; before meta.json is written it is unreadable |
| RuntimeUpgrade.Host.RestoreFiles | src/logstashagent/controller.py:948-949 | Every captured file has its captured content, no other file changed, also after a failure or inside a half-done copy |
| RuntimeUpgrade.Host.RestoreDirs | src/logstashagent/controller.py:950-953 | Every captured directory equals its captured content, no other directory changed, also while one is being removed and copied |
| RuntimeUpgrade.Host.RestoreRuntimeSnapshot | src/logstashagent/controller.py:933-962 | A successful restore equals the complete one; a failing or dying one touched captured entries only and never the snapshot or agent state |
| RuntimeUpgrade.Host.PrepareRuntimeUpgrade | src/logstashagent/controller.py:965-1093 | Exactly when it holds (a version that is missing or still downloading), fails (no binary, a snapshot in the way, a failed copy), has nothing to do (the recorded pin is the requested one) or prepares a change; only the snapshot is written; a changed upgrade has a readable snapshot of this very disk and pin; a failed one cleans up what it created and nothing else |
| RuntimeUpgrade.Host.FlipRuntimeEnv | src/logstashagent/controller.py:1096-1101 | On success, and exactly then, LOGSTASH_BINARY names the desired binary and every other line is as it was; under a snapshot that can undo every half-written state |
| RuntimeUpgrade.Host.RecordPin | src/logstashagent/controller.py:1112-1119 | The pin fields are written in the order source, version, (directories,) binary: no other intermediate pin is ever durable |
| RuntimeUpgrade.Host.CommitRuntimeUpgrade | src/logstashagent/controller.py:1104-1144 | Pin, download directory, binary directory and resolved version as the runtime asks for, nothing else in agent state; the registry entry is stamped if there is one, settings and env stay, the snapshot goes, exactly one commit |
| RuntimeUpgrade.BinDirIs | src/logstashagent/controller.py:1111 | The recorded directory is the one the logstash binary lies in; any other name is recorded as it is |
| RuntimeUpgrade.Host.RollbackRuntimeUpgrade | src/logstashagent/controller.py:1148-1163 | Agent state is untouched; success means the env file, the five configuration files and the two pipeline directories are those of before, everything else is untouched, the unit is consistent and the snapshot is removed; a failed restore or restart keeps the snapshot |
| RuntimeUpgrade.Host.Recover | src/logstashagent/controller.py:1166-1205 | Unreadable or committed snapshots are dropped without touching anything else, any other one is rolled back; with a cooperating system the disk is the one the pure recovery function gives |
| RuntimeUpgrade.Host.FinalizeRuntimeUpgrade | src/logstashagent/controller.py:1222-1232 | Commit if and only if restart and health check succeed, otherwise one rollback; the state afterwards in both cases |
| DeltaMerge.DeltaPlan.MergeSets | src/logstashagent/controller.py:2087-2088 | Later sources override earlier ones name by name |
| DeltaMerge.DeltaPlan.MergeIn | src/logstashagent/controller.py:2079-2105 | The shared plan becomes the right-biased union of sets with the deletes appended once each |
| DeltaMerge.DeltaPlan.DropSuperseded | src/logstashagent/controller.py:2133-2135 | Exactly the deletes whose name is not being set remain, in order |
| DeltaMerge.FilterIsNeutral | src/logstashagent/controller.py:2133-2135 | The filter changes nothing about what the plan does to any map |
| DeltaMerge.MergedByName | src/logstashagent/controller.py:2079-2105 | For any list of deltas: a name is set (deleted) by the plan if and only if some delta sets (deletes) it, and the last setter decides the value |
| DeltaMerge.SequentialByFate | src/logstashagent/controller.py:2079-2105 | What the deltas applied one after another do to one name, on every map |
| DeltaMerge.FateAgainstMerged | src/logstashagent/controller.py:2079-2105 | How the merged plan treats a name, against what the sequence does to it |
| DeltaMerge.NoneResurrected | src/logstashagent/controller.py:2079-2105 | No deleted name comes back if and only if every name an earlier delta sets and a later one deletes is set again at or after that delete |
| DeltaMerge.MergedEqualsSequential | src/logstashagent/controller.py:2133-2135 | On every map, the one merged apply equals applying the deltas one after another if and only if that condition holds |
| MergedApply.WriteConfigFile | src/logstashagent/controller.py:1395-1418 | The sent content on success, any content of that one file after a failed write, nothing else |
| MergedApply.WriteConfigFiles | src/logstashagent/controller.py:2499-2539 | The exact files afterwards, nothing being written after the first failure; success exactly when none failed; LS_JVM_OPTS, and nothing else in the env file, changes with new JVM options |
| MergedApply.ChangeKeystorePassword | src/logstashagent/controller.py:406-503 | The exact keystore file, recorded password, wiped SNMP keys and LOGSTASH_KEYSTORE_PASS for every outcome, also when the env file cannot be edited; pins, snapshot and launched binary untouched |
| MergedApply.GetConfigChanges | src/logstashagent/controller.py:2462-2640 | Outcome of prepare, verdict (also when it aborts), settings files, agent state and contributed deltas as functions of what was sent and could be written; a changed upgrade comes with a snapshot of the disk before the config writes; an exception loses the verdict, not the work |
| MergedApply.ApplyFiles | src/logstashagent/controller.py:2499-2574 | Configuration files and password of one response: the exact settings files and agent state, and when it aborts, fails or counts as update |
| MergedApply.ApplySnmpChanges | src/logstashagent/controller.py:2969-2998 | The SNMP deltas are merged into the same plan, and reported for the hash namespaces |
| MergedApply.WriteDeltas | src/logstashagent/controller.py:2145-2160 | One keystore write and one pipelines write at most, hashes recorded exactly for those that succeed |
| MergedApply.RestartAndFinalize | src/logstashagent/controller.py:2171-2196 | Exact counts of flips, commits and rollbacks; one restart when one is due and a second one only to roll back; exact agent state; after a rollback env and captured settings are the old ones |
| MergedApply.RecordSnmpHashes | src/logstashagent/controller.py:2201-2227 | The SNMP namespaces take over exactly the contributed changes of the parts that were applied |
| MergedApply.FinalizeRevision | src/logstashagent/controller.py:2247-2267 | The revision is recorded exactly when the rollout did not abort and no change of policy files failed |
| MergedApply.ResolvedOnce | src/logstashagent/controller.py:2175-2196 | Every changed upgrade is resolved exactly once; committed if and only if nothing aborted, every write succeeded, flip, restart and health check succeeded |
| MergedApply.RestartedOnce | src/logstashagent/controller.py:2164-2196 | At most one restart, two only when an upgrade rolls back after its flip; without an upgrade, one restart exactly when new key values or config files were cleanly written |
| MergedApply.RevisionIsHeld | src/logstashagent/controller.py:2201-2267 | An abort that reaches the merged apply lets it write and restart nothing; a rolled-back upgrade advances neither revision nor SNMP hashes; exactly when the revision advances |
| MergedApply.Conclude | src/logstashagent/controller.py:2200-2267 | The exact agent state after SNMP hashes and revision; an aborted or rolled-back rollout records no SNMP hash |
| MergedApply.WriteAndRestart | src/logstashagent/controller.py:2143-2196 | Writes and restart phase together: the tally so far, the exact agent state, and what rollback and commit leave |
| MergedApply.HashesSurviveRollbackExactlyWhen | src/logstashagent/controller.py:2176-2196 | After a rolled-back upgrade the recorded keystore and pipeline hashes are the old ones if and only if the rollout aborted or no write succeeded with different ones |
| MergedApply.RolledBackRun | src/logstashagent/controller.py:2145-2196 | Such a run: the keystore file is the old one again, the recorded hashes are the new ones |
| MergedApply.ApplyDeltas | src/logstashagent/controller.py:2137-2267 | The whole apply for given deltas: the tally of actions, the exact agent state, env and captured settings after rollback and commit |
| MergedApply.ApplyMergedPlan | src/logstashagent/controller.py:2108-2267 | The same for the shared plan, after dropping superseded deletes |
| MergedApply.Fetch | src/logstashagent/controller.py:3438-3458 | Both channels contribute to a fresh plan, which is the merge of their deltas; the policy result counts exactly when the check-in flagged it or it changed files and the fetch did not raise |
| MergedApply.CheckIn | src/logstashagent/controller.py:3093-3465 | One recovery, the settings files and agent state the fetch leaves, then one merged apply of the filtered merge of the policy and SNMP deltas, with its exact tally and agent state; a prepared upgrade reaches the apply unless the fetch raised, and is resolved exactly once |
| MergedApply.FetchAndApply | src/logstashagent/controller.py:3406-3465 | The part of a check-in after recovery: verdict, plan, merged apply, one resolution |
| MergedApply.SourcesMerge | src/logstashagent/controller.py:3406-3458 | A fresh plan to which policy and SNMP contributed is the merge of the deltas of both, without the policy if it aborted |
| MergedApply.RolledBackCheckIn | src/logstashagent/controller.py:3406-3465 | A check-in whose upgrade rolls back: the env file, each of the five configuration files and both pipeline directories are those of before the fetch, agent state keeps the new keystore password and the hashes of successful writes and nothing else |
| MergedApply.AbortedFetchWritesNothingExactlyWhen | src/logstashagent/controller.py:3450-3465 | A check-in whose rollout aborted writes no key and no pipeline if and only if the verdict counts (flagged, or files were written before the failure, and no exception) or SNMP brings nothing; otherwise it applies the SNMP changes and restarts for new keys |
| MergedApply.AbortedPlanIsSnmp | src/logstashagent/controller.py:3432-3458 | What an aborted rollout leaves in the plan comes from SNMP alone |
| MergedApply.RevisionIsLost | src/logstashagent/controller.py:3093-3465 | A check-in goes on after a failed recovery: whatever it applies and whatever revision it records, the next recovery puts back every captured file and directory of the old snapshot, while the revision stays |
| MergedApply.StartUp | src/logstashagent/controller.py:3604-3608 | Recovery at start, then the repair of LS_JVM_OPTS: agent state and launched binary are those the recovery left |
| MergedApply.Run | src/logstashagent/controller.py:1166-1205 | Crash atomicity: over any run of starts and check-ins, each possibly cut after any single write, at every durable moment without an upgrade to undo the unit launches the recorded binary if and only if the moment is not inside an env edit before the binary line; a death at such a moment is final |
| MergedApply.RunThenRecover | src/logstashagent/controller.py:1166-1205 | After any run without such a death one undisturbed recovery leaves no snapshot, and unit and agent state agree |
| CheckInOutcome.KeysByName | src/logstashagent/controller.py:2079-2135 | Key by key: set if the policy (unless aborted) or SNMP sets it, to the value of SNMP if both do; deleted if one deletes it and none sets it |
| CheckInOutcome.PipelinesByName | src/logstashagent/controller.py:2079-2135 | The same for pipelines |
| CheckInOutcome.RestartsExactlyWhen | src/logstashagent/controller.py:2164-2186 | Without a runtime change, if nothing fails: one restart if and only if a key is set, or logstash.yml, jvm.options or log4j2.properties was written or a keystore password applied and the fetch did not raise |
| CheckInOutcome.SnmpRestartsExactlyForKeys | src/logstashagent/controller.py:2164-2186 | In a check-in where only SNMP brings something: one restart if and only if it sets a key |
| CheckInOutcome.NothingFetchedNothingDone | src/logstashagent/controller.py:3421-3422 | A check-in that fetches nothing leaves agent state, env file, snapshot and tally as the recovery left them |
| CheckInOutcome.RevisionAdvancesExactlyWhen | src/logstashagent/controller.py:2229-2260 | The revision is recorded if and only if the fetch brought one and did not raise, the runtime is there, no file and no password change failed, the check-in was flagged or something changed, and all that changed worked: writes, the restart it needs, and a runtime change to its end |
| CheckInOutcome.RevisionFollowsRuntime | src/logstashagent/controller.py:2229-2260 | A check-in that records a revision for a response with a runtime ends with exactly the requested source and version, and the resolved binary, recorded |
| CheckInOutcome.MissingRuntimeChangesNothing | src/logstashagent/controller.py:2478-2486 | A version that is not there or still being downloaded, or a binary that cannot be resolved, leaves settings files, env file, pin, password and revision as they were |
| CheckInOutcome.AbortedWritesExactlyWhen | src/logstashagent/controller.py:3450-3465 | The exact key writes, pipeline writes and restarts of a check-in whose rollout aborted: none if the abort is noticed (flagged, or something written before the failure, and no exception), else those for what SNMP sent; no revision in either case |
| CheckInOutcome.ChangeEndsAs | src/logstashagent/controller.py:2171-2196 | A prepared change is kept if and only if nothing failed, the unit got its new binary, and Logstash restarted and answers; exact commits, rollbacks, flips, restarts, recorded pin, launched binary and registry in both cases |
| CheckInOutcome.FetchLeavesFiles | src/logstashagent/controller.py:2499-2539 | File by file: the sent content, what a failed write left, or what was there; nothing is written after the first failure and no other file changes |
| CheckInOutcome.FetchLeavesPassword | src/logstashagent/controller.py:406-503 | Keystore file, recorded password and SNMP keys after each outcome of a password change |
| CheckInOutcome.HashesAreOfWrites | src/logstashagent/controller.py:2143-2160 | The recorded hashes are those of a write that had something to do and succeeded, else the old ones; one write per part with something to do |
| CheckInOutcome.SnmpNamespacesByName | src/logstashagent/controller.py:2200-2227 | Name by name: a pipeline SNMP set has the hash it sent, a key the hash the keystore write recorded, what it only deleted is gone, the rest stays |
| SignalDedup.Dedup | src/logstashagent/log_analyzer.py:892-910 | The loop keeps exactly the representatives of the clusters of the stably sorted signals |
| SignalDedup.ClustersRepresent | src/logstashagent/log_analyzer.py:892-910 | The clusters cut the sorted input into contiguous runs; each keeps a member of minimal priority number; kept signals are more than 10 s apart; members lie at most one window after and two windows before the kept one |
| SignalDedup.SortKeeps | src/logstashagent/log_analyzer.py:895 | Sorting neither loses nor adds a signal |
| SignalDedup.KeptIsSignal | src/logstashagent/log_analyzer.py:892-910 | Every reported signal is one of the inputs |
| SignalDedup.Survivor | src/logstashagent/log_analyzer.py:898-907 | Every input has a reported survivor at most 10 s earlier or 20 s later; an agent log is only ever represented by one, a Logstash message never by a metric |
| SignalDedup.TwoReplacementsReachTwoWindows | src/logstashagent/log_analyzer.py:898-906 | The 20 s bound is reached |
| RestartPairing.TakeNextStartup | src/logstashagent/log_analyzer.py:927-934 | The inner loop takes the first later startup, never going back |
| RestartPairing.PairRestarts | src/logstashagent/log_analyzer.py:920-960 | One event per recent shutdown, reporting the startup that the two-pointer pairing gives it, or none |
| RestartPairing.RecentIs | src/logstashagent/log_analyzer.py:923-925 | Exactly the shutdowns from the given time on are reported, that time included; all of them if none is given |
| RestartPairing.PairingIsSound | src/logstashagent/log_analyzer.py:921-934 | Every paired startup is strictly later than its shutdown; the pairing is injective and order-preserving |
| RestartPairing.SwapPair | src/logstashagent/log_analyzer.py:921-934 | Exchange step: a matching can give up the first pair in favour of the greedy one |
| RestartPairing.PairingIsMaximum | src/logstashagent/log_analyzer.py:921-934 | No injective assignment of later startups whatsoever completes more shutdowns than the scan |
| RestartPairing.IncompleteExactlyWhen | src/logstashagent/log_analyzer.py:923-951 | A shutdown is reported incomplete if and only if every later startup was taken by an earlier shutdown |
| RestartPairing.IncompleteByCount | src/logstashagent/log_analyzer.py:923-951 | On the signals alone: if and only if for some shutdown m up to it there are fewer startups later than m than shutdowns from m to it |
| RestartPairing.DetectRestarts | src/logstashagent/log_analyzer.py:909-960 | Deduplication and pairing together |
| RestartPairing.DetectedIsMaximum | src/logstashagent/log_analyzer.py:892-960 | The maximality for whatever signals are logged |
| RestartPairing.MergedTimesSorted | src/logstashagent/log_analyzer.py:892-910 | Deduplicated timestamps are in order and more than 10 s apart |
| LogWatcher.SplitJoins | src/logstashagent/log_analyzer.py:1225-1227 | Complete lines plus the carried partial line are the whole text |
| LogWatcher.SplitAppend | src/logstashagent/log_analyzer.py:1219-1236 | Carrying the partial line over splits exactly like the whole text |
| LogWatcher.ChunkingIsIrrelevant | src/logstashagent/log_analyzer.py:1205-1236 | Any chunking of a stream through the carry buffer processes the lines of the whole stream, in order |
| LogWatcher.UsableStreamIsChunkedFreely | src/logstashagent/log_analyzer.py:1205-1236 | With the old carry kept when processing raises: if no line of the stream raises, every chunking gives exactly its entries |
| LogWatcher.RaisingStreamIsChunkedDifferently | src/logstashagent/log_analyzer.py:1210-1236 | Once a line of any stream raised, two chunkings of a continuation give different entries |
| LogWatcher.RobustExactlyWhen | src/logstashagent/log_analyzer.py:1210-1236 | For whole lines: every chunking of every usable continuation gives the entries of the stream if and only if no line of it raises or no line whatsoever holds an entry |
| LogWatcher.StripMeans | src/logstashagent/log_analyzer.py:1229-1231 | Of a line only white space at its ends is dropped, all of it |
| LogWatcher.ContainsMeans | src/logstashagent/log_analyzer.py:1252-1257 | A message matches if and only if the text stands somewhere in it |
| LogWatcher.LifecycleIs | src/logstashagent/log_analyzer.py:1251-1302 | The state is that of the last entry that announces one (shut down before API ready before starting), unknown if there is none; the times are those of the last shutdown and the last start |
| LogWatcher.OfLevelKeeps | src/logstashagent/log_analyzer.py:1259-1309 | Every entry of a level is kept, at the place that the number of those before it gives, and nothing else |
| LogWatcher.ReportMeans | src/logstashagent/log_analyzer.py:1133-1155 | A report holds the first 200 warnings, errors and fatals of its interval, each in its place, and the lifecycle of all entries so far |
| LogWatcher.Watcher.UpdateLifecycle | src/logstashagent/log_analyzer.py:1251-1302 | The announced state and the times of the last shutdown and start |
| LogWatcher.Watcher.Collect | src/logstashagent/log_analyzer.py:1259-1309 | Each list takes its level up to 200 entries |
| LogWatcher.Watcher.ProcessEntry | src/logstashagent/log_analyzer.py:1238-1312 | The collected lists stay the capped prefix of the interval, per level, and the state that of all entries |
| LogWatcher.Watcher.ProcessLines | src/logstashagent/log_analyzer.py:1228-1235 | Exactly the entries before the first raising line are processed |
| LogWatcher.Watcher.Feed | src/logstashagent/log_analyzer.py:1204-1236 | Entries and carry buffer after a chunk, also when processing raises |
| LogWatcher.Watcher.FeedChunks | src/logstashagent/log_analyzer.py:1205-1236 | A list of chunks leaves the entries and the carry buffer of the function those lemmas are about |
| LogWatcher.Watcher.Rotate | src/logstashagent/log_analyzer.py:1190-1198 | The old file is drained before the new one starts with an empty buffer |
| LogWatcher.Watcher.Vanish | src/logstashagent/log_analyzer.py:1169-1187 | A missing log file gives up the unfinished line |
| LogWatcher.Watcher.ConsumeForCheckin | src/logstashagent/log_analyzer.py:1133-1155 | The report of the interval, and clearing, in one step |
| LogWatcher.RunWatcher | src/logstashagent/log_analyzer.py:1133-1217 | Over any interleaving of chunks, rotations and check-ins each check-in reports the first 200 of each level of its own interval, and while no line raises the intervals partition the entries of the stream |
| ArtifactDownload.BackoffSchedule | src/logstashagent/logstash_download.py:234-236 | The delays never shrink, lie between 15 s and 300 s, and equal 300 s exactly from the sixth attempt on |
| ArtifactDownload.BackoffDoubles | src/logstashagent/logstash_download.py:234-236 | 15 s at first, then twice the delay before up to 300 s |
| ArtifactDownload.DelayBounds | src/logstashagent/logstash_download.py:207-236 | Every delay, the server's or the own one, lies between 0 and 600 s |
| ArtifactDownload.RetryWaits | src/logstashagent/logstash_download.py:207-236 | A retry waits what the header says, up to 600 s, if it says something that is not negative, else what the own schedule says |
| ArtifactDownload.AppendKeeps | src/logstashagent/logstash_download.py:504-523 | Bytes of the requested range keep the part file clean, or bad only in the bytes that were found |
| ArtifactDownload.ReceivedKeeps | src/logstashagent/logstash_download.py:518-523 | The same after any number of chunks, so at every point where the process may die |
| ArtifactDownload.ResumedFromClean | src/logstashagent/logstash_download.py:489-523 | Resuming a clean part file only ever gives clean ones |
| ArtifactDownload.ResumedTransitive | src/logstashagent/logstash_download.py:489-523 | What one download leaves resumed stays resumed through the next one |
| ArtifactDownload.Downloader.Write | src/logstashagent/logstash_download.py:518-523 | The part file after a body, and at every chunk in between |
| ArtifactDownload.Downloader.Receive | src/logstashagent/logstash_download.py:504-523 | 206 appends, any other success replaces |
| ArtifactDownload.Downloader.Sleep | src/logstashagent/logstash_download.py:547-551 | Never past the deadline |
| ArtifactDownload.Downloader.Request | src/logstashagent/logstash_download.py:499-589 | Each response leads to exactly the documented verdict (416 discard; 429, 502, 503 and cut transfers retry; all else fails) and leaves exactly the received bytes |
| ArtifactDownload.Downloader.TakeTurn | src/logstashagent/logstash_download.py:474-589 | One loop iteration against its specification |
| ArtifactDownload.Downloader.DownloadFile | src/logstashagent/logstash_download.py:425-589 | The loop equals its specification over every sequence of responses; the part file is sound at every durable moment; a completed transfer from a clean start, with bodies that end only when complete, stages exactly the artifact; all waits end by the deadline |
| ArtifactDownload.TurnByKind | src/logstashagent/logstash_download.py:481-589 | What a turn asks for (from the end of the part file, from 0 after a discard) and what each kind of answer leads to: staged, failed, discarded and asked again, or kept and asked again |
| ArtifactDownload.FailsOnlyIfHopeless | src/logstashagent/logstash_download.py:499-589 | A download fails only after an HTTP code other than 416, 429, 502 and 503, an unexpected error, or a file that cannot be staged |
| ArtifactDownload.InterruptionsAreOvercome | src/logstashagent/logstash_download.py:474-589 | From a clean part file, after any number of turns in time that end in a cut body, a connection error, 429, 502 or 503, two undisturbed turns stage exactly the artifact |
| ArtifactDownload.TwoTurnsSuffice | src/logstashagent/logstash_download.py:474-589 | From any part file, on any attempt, two undisturbed turns complete the transfer, and the staged file is the artifact if and only if the part file was a prefix of it or not shorter |
| ArtifactDownload.WholePartIsFetchedAgain | src/logstashagent/logstash_download.py:527-534 | A part file holding the whole artifact is answered with 416, thrown away and transferred again |
| ArtifactDownload.VerifySha512 | src/logstashagent/logstash_download.py:600-674 | The tarball passes exactly when its digest was fetched in time after nothing but retryable errors |
| ArtifactDownload.EnsureVersion | src/logstashagent/logstash_download.py:756-812 | Nothing is extracted unless staged and verified, and with a collision-free digest only the artifact is |
| ArtifactDownload.RunAttempts | src/logstashagent/logstash_download.py:700-825 | Over any run of attempts, each possibly killed anywhere, from any initial part file: only the exact artifact is extracted, and bad bytes survive at most one completed transfer |
| SimulationQueue.StepKeeps | src/logstashagent/main.py:1156 | Every event keeps the bound, the arrival order and the exact accounting; deliveries and drops are final |
| SimulationQueue.RunIsSound | src/logstashagent/main.py:1629-1739 | The same over any interleaving of arrivals, pops, deliveries, re-queues and abandoned requests |
| SimulationQueue.RunSummary | src/logstashagent/main.py:1629-1739 | At most 100 queued; deliveries in strictly increasing arrival order; every arrival in exactly one of delivered, dropped, queued, in flight |
| SimulationQueue.ProcessedKeeps | src/logstashagent/main.py:1668-1732 | The processor's rounds keep all of this |
| SimulationQueue.ArrivalsLeave | src/logstashagent/main.py:1156 | After any number of arrivals the queue holds the newest hundred, in order, and exactly the others are dropped |
| SimulationQueue.RoundLeaves | src/logstashagent/main.py:1668-1732 | The exact queue after one request and the arrivals meanwhile: given up without its slot, delivered if one of three posts was accepted, else first in the queue again, for which a full queue loses its newest |
| SimulationQueue.PassEnds | src/logstashagent/main.py:1668-1732 | A pass serves request after request, and ends only at an empty queue or when all posts of one failed |
| SimulationQueue.Queue.Append | src/logstashagent/main.py:1828-1832 | An arrival at a full queue drops the oldest |
| SimulationQueue.Queue.PopLeft | src/logstashagent/main.py:1670-1674 | The oldest goes into flight |
| SimulationQueue.Queue.AppendLeft | src/logstashagent/main.py:1727-1730 | A failed request goes back to the front and drops the newest of a full queue |
| SimulationQueue.Queue.Post | src/logstashagent/main.py:1705-1725 | Success exactly when one of three posts is accepted |
| SimulationQueue.Queue.ProcessOne | src/logstashagent/main.py:1676-1732 | One request is the run of a pop, the arrivals meanwhile and its fate |
| SimulationQueue.Queue.Process | src/logstashagent/main.py:1668-1732 | The inner loop equals its specification: it stops at an empty queue or after a re-queue |
| RecoveryLimit.PruneIsSuffix | src/logstashagent/simulate_recovery.py:403 | On a list in time order pruning removes exactly the times at least an hour old |
| RecoveryLimit.PruneKeepsTail | src/logstashagent/simulate_recovery.py:402-403 | The pruned list is always the tail of everything recorded |
| RecoveryLimit.AllowedHasRoom | src/logstashagent/simulate_recovery.py:402-412 | The pruned list allows a recovery exactly when everything recorded so far leaves room: 45 s after the last, an hour after the fifth last |
| RecoveryLimit.UndisturbedIsLimited | src/logstashagent/simulate_recovery.py:402-412 | A recovery keeps both distances whenever no other one was recorded between its check and its record, however late that is |
| RecoveryLimit.RecordedIsLimitedExactlyWhen | src/logstashagent/simulate_recovery.py:402-412 | A recovery is recorded within the limit if and only if the check of the code, put again to the list as it is at that moment, would let it pass (or it was forced) |
| RecoveryLimit.LimitedExactlyWhen | src/logstashagent/simulate_recovery.py:402-412 | In any history in time order: a record keeps both distances if and only if it would have passed the check again on everything recorded before it (or it was forced) |
| RecoveryLimit.Limiter.RecoveryAllowed | src/logstashagent/simulate_recovery.py:399-412 | Prunes in place and decides |
| RecoveryLimit.Limiter.Append | src/logstashagent/simulate_recovery.py:507-521 | Recording keeps every guarantee, and is within the limit exactly if the check would pass again |
| RecoveryLimit.Limiter.Recover | src/logstashagent/simulate_recovery.py:463-525 | Recorded exactly when there was room (or it was forced) and nothing failed |
| RecoveryLimit.RunRecoveries | src/logstashagent/simulate_recovery.py:463-525 | Over any sequence under a clock that does not go back, every unforced recovery keeps both distances, forced ones before it included |
| RecoveryLimit.RunInterleaved | src/logstashagent/simulate_recovery.py:399-412 | Over any interleaving of checks and records of any number of recoveries, each unforced one keeps both distances if and only if it would have passed the check again when it was recorded; no record in between is enough for that |
| RecoveryLimit.RecordBoth | src/logstashagent/simulate_recovery.py:399-412 | Two recoveries checked before either is recorded are both recorded if there was room for one; the first is within the limit, the second if and only if it would have passed the check again |
| BusStorm.DetectStorms | src/logstashagent/log_analyzer.py:566-655 | Exactly the destinations with enough warnings in the window, with their counts |
| BusStorm.Watch.CountStorms | src/logstashagent/main.py:942-1005 | Actionable storms count one more, held ones are forgotten |
| BusStorm.Watch.Conclude | src/logstashagent/main.py:1007-1077 | A restart is tried exactly on a simulate instance with a confirmed run; whose counting starts over afterwards |
| BusStorm.Watch.Handle | src/logstashagent/main.py:876-1077 | The same for a whole scan; every counter equals the length of its destination's unbroken run since the last clear |
| BusStorm.RunMeansConsecutive | src/logstashagent/main.py:965-1005 | A counter of n means acted on in each of the last n scans and cleared in none |
| BusStorm.ConsecutiveMeansRun | src/logstashagent/main.py:965-1005 | And conversely |
| BusStorm.CountIsWarnings | src/logstashagent/log_analyzer.py:598-630 | The count is the number of warnings about the destination without a timestamp or with one of the last 30 s |
| BusStorm.ScanActsOnStuck | src/logstashagent/main.py:803-873 | A scan acts on exactly the destinations with a name and at least 15 such warnings that are not being allocated to a booked slot, nor were in the last 90 s |
| BusStorm.RunIsStuck | src/logstashagent/main.py:965-1011 | For a simulate instance: a destination is confirmed if and only if it was stuck in this scan and the two before it, and neither of these two restarted Logstash |
| BusStorm.RunScans | src/logstashagent/main.py:876-1077 | Over any history with default thresholds, a hard restart happens only in a scan of a simulate instance, after some destination was stuck in that scan and the two before it; a simulate instance is restarted exactly then, unless one of these two scans did it |
| Supervisor.LogstashSupervisor.CheckMemoryThresholds | src/logstashagent/logstash_supervisor.py:592-645 | Each verdict exactly when it is due: six unanswered samples; a heap over 95 percent for 60 s since it first was, without a restart or another answer in between; memory over 1.5 times the maximal heap. Health flag and timestamp, and the cached maximum |
| Supervisor.LogstashSupervisor.SilentSample | src/logstashagent/logstash_supervisor.py:600-608 | Six silent samples take health away |
| Supervisor.LogstashSupervisor.ResponsiveSample | src/logstashagent/logstash_supervisor.py:609-645 | Any answer restores health and clears the counter; heap timer before resident memory |
| Supervisor.LogstashSupervisor.HeapTimer | src/logstashagent/logstash_supervisor.py:616-629 | Started by a high sample, stopped by another answer, expired after 60 s |
| Supervisor.LogstashSupervisor.RestartLogstash | src/logstashagent/logstash_supervisor.py:402-440 | Health and heap timer are reset, the unresponsive counter is not |
| Supervisor.LogstashSupervisor.AllocateGate | src/logstashagent/main.py:2332-2357 | Accepted exactly after 15 s of health, hence no restart in the last 15 s; the advertised delay is enough and a second less is not |
| Supervisor.SilenceMeansConsecutive | src/logstashagent/logstash_supervisor.py:600-606 | An unresponsive verdict needs six silent samples in a row, restarts in between not counting |
| Supervisor.SilenceCounts | src/logstashagent/logstash_supervisor.py:600-612 | The counter is the number of unanswered samples since the last answer |
| Supervisor.OverheatedExactlyWhen | src/logstashagent/logstash_supervisor.py:616-629 | The timer has expired if and only if the heap has been over 95 percent for a minute, counted from the first sample of the unbroken run |
| Supervisor.RestartAgainAfterOneSilentSample | src/logstashagent/logstash_supervisor.py:402-440 | The first silent sample after a restart asks for the next one if and only if the counter stood one below the threshold or higher, the restart not having reset it |
| Supervisor.Monitor | src/logstashagent/logstash_supervisor.py:647-717 | Over any run of samples and restarts, healthy exactly while the timestamp is set |
| VersionDownloads.Downloads.Publish | src/logstashagent/controller.py:727-733 | A status is published under the lock, ready only for a tree that is there |
| VersionDownloads.Downloads.WorkerStep | src/logstashagent/controller.py:814-834 | A worker publishes how its download ended before it leaves the table |
| VersionDownloads.Downloads.Leave | src/logstashagent/controller.py:830-834 | A worker removes itself and no other |
| VersionDownloads.Downloads.Interleave | src/logstashagent/controller.py:814-834 | Whatever workers do, none starts another, and only versions with a live worker appear on disk |
| VersionDownloads.Downloads.Stamp | src/logstashagent/controller.py:714-724 | Another version's blob is left alone |
| VersionDownloads.Downloads.Flush | src/logstashagent/controller.py:750-788 | The version of the persisted blob never changes; while the worker lives its own status is copied, and without one the tree on disk decides between ready and failed |
| VersionDownloads.Downloads.FlushForCheckin | src/logstashagent/controller.py:791-802 | The version of the persisted blob never changes; if its download ended, its status says whether the tree is there |
| VersionDownloads.Downloads.Register | src/logstashagent/controller.py:837-858 | At most one registered worker per version |
| VersionDownloads.Downloads.Start | src/logstashagent/controller.py:837-860 | A start, and only a start, replaces the persisted version |
| VersionDownloads.Downloads.PrepareVersion | src/logstashagent/controller.py:1007-1023 | Proceeds exactly when no worker was live and the tree was there; holding means a download was in flight or was started |
| VersionDownloads.ValidMeansOneWorker | src/logstashagent/controller.py:837-860 | At most one live worker per version |
| VersionDownloads.RunController | src/logstashagent/controller.py:714-860 | Over all interleavings, with worker steps of their own at every scheduling point: one live worker per version, and the persisted version is that of the last start, or the initial one |
| DependencyClosure.EnqueueKeeps | scripts/generate_notice.py:530-533 | A name is enqueued once, when it becomes known, and is reachable |
| DependencyClosure.ProcessedKeeps | scripts/generate_notice.py:529-531 | A processed name has only known dependencies |
| DependencyClosure.ProcessNext | scripts/generate_notice.py:527-533 | One round of the worklist keeps the search invariant |
| DependencyClosure.ProductionDependencies | scripts/generate_notice.py:515-536 | Exactly the names reachable from the direct dependencies, each enqueued once; terminates on cyclic graphs |
| DependencyClosure.SearchEnds | scripts/generate_notice.py:527-536 | An exhausted worklist has found everything reachable |
| DependencyClosure.PythonDependencies | scripts/generate_notice.py:551-574 | Exactly the named lock-file packages reachable from the direct dependencies |
| DependencyClosure.GraphIsOfLast | scripts/generate_notice.py:516-521 | Each name is linked to the dependencies of its last package in the lock file |
| DependencyClosure.GraphIsCompleteExactlyWhen | scripts/generate_notice.py:516-521 | The graph has every dependency listed anywhere if and only if the last package of every name lists all that the earlier ones list |
| DependencyClosure.ClosureIsCompleteExactlyWhen | scripts/generate_notice.py:515-536 | The closure found is the one along all listed dependencies if and only if each dependency that any package of a found name lists is found |
| DependencyClosure.DistinctNamesSuffice | scripts/generate_notice.py:515-536 | In particular nothing is missed while no two packages share a lower-case name |
| DependencyClosure.LowerIs | scripts/generate_notice.py:516-521 | Names are compared without regard to case, and to nothing else |
| PipelineNames.SortFiles | src/logstashagent/controller.py:1898 | The files in strict order, each exactly once |
| PipelineNames.LessAtFirstDifference | src/logstashagent/controller.py:1898 | Strictly: at the first difference the smaller character comes first, or the shorter name ends |
| PipelineNames.DecimalStandsFor | src/logstashagent/controller.py:1925 | A revision prints as decimal digits without leading zeros that stand for it |
| PipelineNames.DecimalInjective | src/logstashagent/controller.py:1925 | Different revisions print differently |
| PipelineNames.RevisionedIdsDiffer | src/logstashagent/controller.py:1925 | Ids with revisions determine name and revision |
| PipelineNames.IdsCollideExactlyWhen | src/logstashagent/controller.py:1919-1929 | Two pipelines get one id if and only if one is non-reloadable and the other one, reloadable, is named like that id |
| PipelineReconcile.Pipelines.Delete | src/logstashagent/controller.py:1843-1854 | Exactly the deleted files go |
| PipelineReconcile.Pipelines.Write | src/logstashagent/controller.py:1856-1881 | Received pipelines are written; those without input lose their file |
| PipelineReconcile.Pipelines.Rewrite | src/logstashagent/controller.py:1883-1985 | pipelines.yml has one entry per file in sorted order, the state exactly the records |
| PipelineReconcile.Pipelines.UpdatePipelines | src/logstashagent/controller.py:1801-1990 | Name by name: the file of a received pipeline holds its lscl, or goes if it has no input; each of the six settings in pipelines.yml and in the state is the received value, else the recorded one if nothing was received, else its default; hash, flag, revision and id. A failed update changes neither pipelines.yml nor the state |
| PipelineReconcile.RecordIsLeft | src/logstashagent/controller.py:1901-1956 | The record of one pipeline with a file: received values first, recorded ones otherwise, defaults for the settings not sent, the revision one up for a non-reloadable one |
| PipelineReconcile.StateIsLeft | src/logstashagent/controller.py:1883-1982 | The recorded state: every file, and every received pipeline without input, as it was sent |
| PipelineReconcile.YmlIsLeft | src/logstashagent/controller.py:1931-1961 | pipelines.yml: the files in order with the recorded settings, and the revision in the id if there is one |
| PipelineReconcile.Pipelines.AddNoInput | src/logstashagent/controller.py:1966-1979 | Received pipelines without input are recorded unless a file is still there; earlier ones not in the delta are forgotten |
| PipelineReconcile.ReportFiles | src/logstashagent/controller.py:1762-1780 | One report per file that SNMP does not manage |
| PipelineReconcile.ReportNoInput | src/logstashagent/controller.py:1782-1791 | And one per recorded pipeline without input |
| PipelineReconcile.BuildPipelinesState | src/logstashagent/controller.py:1702-1794 | Exactly which pipelines are reported, with the recorded hash, flags and revision, and the settings that pipelines.yml gives last under the plain name, else the recorded ones; nothing at all when no file is there |
| PipelineReconcile.Reconcile | src/logstashagent/controller.py:1702-1990 | Report, difference and update by the methods above are the round that the lemmas below are about, and leave files, pipelines.yml and state as an update does, name by name |
| PipelineReconcile.NextDelta | src/logstashagent/controller.py:1883-1985 | After a round with anything to do, a diffing server asks for no delete and sends again exactly the pipelines that had no file and were not in the delta (all, if no file is left); pipelines with a file are settled |
| PipelineReconcile.SettledExactlyWhen | src/logstashagent/controller.py:1883-1985 | After one round the server has nothing more to send, now or later, if and only if it had nothing before or its delta covered every pipeline without a file; if the round leaves no file, if and only if there is no pipeline |
| PipelineReconcile.RoundEmptiesExactlyWhen | src/logstashagent/controller.py:1843-1886 | When a round leaves no file, told from files, state and server beforehand |
| PipelineReconcile.DueAlternates | src/logstashagent/controller.py:1967-1979 | When only some pipelines without a file are due, the next delta is exactly the others |
| PipelineReconcile.NoInputPipelinesNeverSettle | src/logstashagent/controller.py:1967-1979 | And so on for ever: the delta never becomes empty |
| PipelineReconcile.OneChangeStartsIt | src/logstashagent/controller.py:1967-1979 | Such a state arises from a settled one by changing one of two pipelines without input |
| PipelineReconcile.SettlesEventuallyExactlyWhen | src/logstashagent/controller.py:1967-1985 | Some number of rounds settles everything if and only if nothing is to be sent, or, where the first round leaves no file, there is no pipeline or one with input, or else no due pipeline without input faces another one that neither is due nor has a file |
| PipelineReconcile.NothingDisplacedSettles | src/logstashagent/controller.py:1967-1985 | Then three rounds are enough |
| PipelineReconcile.DisplacedNeverSettles | src/logstashagent/controller.py:1967-1985 | Otherwise the two groups displace each other for ever |
| PipelineReconcile.RevisionAfter | src/logstashagent/controller.py:1919-1929 | While present and non-reloadable, every update raises the revision by exactly one |
| PipelineReconcile.IdsNeverRecur | src/logstashagent/controller.py:1919-1929 | So no id recurs and Logstash always recreates the pipeline |
| PipelineReconcile.RevisionIs | src/logstashagent/controller.py:1919-1929 | Closed form of the revision: updates since the last interruption, on top of the first revision if there was none |
| PipelineReconcile.IdsRecurExactlyWhen | src/logstashagent/controller.py:1919-1929 | Two updates of a run leave a pipeline under one id if and only if it is reloadable after both, or non-reloadable after both with equal counts |
| PipelineReconcile.InterruptionBringsBackFirstId | src/logstashagent/controller.py:1919-1929 | A removal or a while as a reloadable pipeline brings back an id that was in use before |

## Left out

- Run modes other than managed and simulate, and an agent without settings path, env path or
  root path: every upgrade operation returns early there.
- `apply_logstash_runtime`, the direct mode of `get_config_changes` and `apply_snmp_changes`
  without a shared plan: superseded by the merged apply.
- MergedApply.WriteDeltas: the keystore file and the recorded hashes after a write are an answer
  of the environment; the PKCS#12 contents and the decryption of values are not modelled.
- MergedApply.CheckIn: the server's response is a parameter, and an exception in the fetch is one at
  its end; a restart requested by the server, the per-source apply records and the log lines are
  not modelled, and SNMP data stand for their hashes.
- RuntimeUpgrade.Host.CommitRuntimeUpgrade: paths are taken as normalized; the list of downloaded
  versions in the install registry, to which prepare adds, is not modelled.
- RuntimeUpgrade.Host.RemoveSnapshot: one step in the runs; `CutRemovalIsHarmlessExactlyWhen` says
  what a removal cut half way does.
- RuntimeUpgrade.Host.WriteEnvVar: an edit that fails with an I/O error after it has begun, while
  the process lives on, is not modelled; the file is then in one of the states in which an edit can
  die. An edit that cannot begin is.
- MergedApply.ChangeKeystorePassword: the recorded hash of the password follows the password and is
  not a field of its own; what a failing operation left of the keystore file is an answer.
- EnvFile.OtherLinesVerbatim: lines are what `splitlines` gives; line terminators other than a
  newline are not modelled.
- RuntimeUpgrade.Host.WriteSettings: the settings directory has plain files and one level of
  directories; file modes, owners and links are not modelled, nor is a policy file caught half
  written by a crash (a failed write may leave anything).
- A restart's effect on running processes, systemd unit files and the rest of the self-heal at
  start.
- PipelineReconcile.NextDelta: the server that compares reported hashes is an assumption about
  the peer, it is not part of this repository; after a failed removal of a file without input the
  statement is about `UpdatePipelines` only.
- PipelineReconcile.Pipelines.UpdatePipelines: conf.d holds `.conf` files only, and a file caught
  half written by a crash is not modelled.
- VersionDownloads.Downloads.Flush: the download directory, the error text and the start time of
  a blob are not modelled, nor is a tree that disappears.
- ArtifactDownload.Downloader.DownloadFile: failures to unlink the part file, and the single-shot
  download from elastic.co with its optional checksum.
- ArtifactDownload.EnsureVersion: which stale partials the sweep removes is an answer; extraction
  and ownership are not modelled, and the file lock is why attempts of one version do not overlap.
- ArtifactDownload.VerifySha512: its waits, which follow the same schedule, and an empty sidecar.
- RestartPairing.DetectRestarts: collecting signals from logs and metrics, the classification of a
  restart as crash or graceful, and cause hints.
- SignalDedup.Dedup: sources outside the three known ones.
- LogWatcher.Watcher.Feed: ASCII input only; a UTF-8 character split across chunks is dropped by
  the decoder. The early wake-up of the check-in loop is not modelled.
- SimulationQueue.Queue.Process: the health checks and the warm-up wait before it, and the
  cancellation of the processor, which leaves a request in flight for good.
- RecoveryLimit.RunInterleaved: a check, which prunes and replaces the list, is one step, so a record
  lost between the two is not modelled; nor is what sanitizing does to pipelines. Times are whole
  milliseconds.
- BusStorm.Watch.Handle: the order of the storm list, the pattern that finds a destination in a
  message, the clock-skew anchor, and what a hard restart does.
- Supervisor.LogstashSupervisor.RestartLogstash: one step; concurrent restarts from API threads,
  slot eviction and the disabled pipeline-mismatch check are left out.
- Supervisor.LogstashSupervisor.AllocateGate: the health timestamp of a systemd-managed simulate
  instance, slots and single-flight allocation.
- DependencyClosure.PythonDependencies: parsing of project and lock file, the fallback without a
  lock file, and license texts.
- `installer`, `install_registry`, `enrollment`, `tls_server`, `encryption`, `api_auth` and the
  HTTP routes: host plumbing and library calls, which would add easy members only.
