/**
The check-in cycle around a runtime upgrade: recovery, the fetched configuration changes, the
single merged apply of the policy and SNMP deltas, and whole runs of cycles cut by crashes.
*/
module MergedApply {
  import opened Options
  import opened RuntimeDisk
  import opened RuntimeUpgrade
  import opened DeltaMerge
  import EnvFile

  /** One configuration file in a policy response; a failing write may leave any content. */
  datatype FileChange = NotSent | Written(content: Content) | WriteFailed(left: Option<Content>)

  /** What a keystore operation left of the keystore file. */
  datatype KeystoreLeft = AsItWas | Gone | Holding(content: Content)

  /** Outcome of `apply_keystore_password_change`; `wiped` tells that the
  secrets were lost, `envOk` whether the env file could be edited, which is success either way. */
  datatype PasswordChange =
    | NoPasswordChange
    | PasswordApplied(left: KeystoreLeft, pass: Option<string>, wiped: bool, envOk: bool)
    | PasswordFailed(left: KeystoreLeft)
    | DecryptFailed(left: KeystoreLeft)

  datatype SnmpChanges = SnmpChanges(keystore: Delta<string>, pipelines: Delta<string>)

  /** The response of the configuration fetch; `raises` stands for an exception after
  the config writes, `envCuts` for what the env file passes through when it is edited. */
  datatype Changes = Changes(
    runtime: Option<Runtime>,
    yml: FileChange,
    jvm: FileChange,
    jvmPath: string,
    jvmEnvOk: bool,
    log4j: FileChange,
    password: PasswordChange,
    keystore: Option<Delta<string>>,
    pipelines: Option<Delta<string>>,
    revision: Option<int>,
    raises: bool,
    envCuts: seq<(nat, nat)>)

  /** What `get_config_changes(plan=...)` returns in merge mode. */
  datatype PolicyRes = PolicyRes(
    filesUpdated: bool, requiresRestart: bool, failed: bool, aborted: bool, revision: Option<int>, prep: Prep)

  /** What `apply_snmp_changes(plan=...)` returns. */
  datatype SnmpRes = SnmpRes(
    pipelineSet: map<string, string>, pipelineDeletes: seq<string>,
    keystoreSetNames: set<string>, keystoreDeletes: seq<string>)

  /** Answers of the environment during the merged apply. */
  datatype ApplyAnswers = ApplyAnswers(
    keystoreOk: bool, keystoreSettings: Settings, keystoreHashes: map<string, string>,
    pipelinesOk: bool, pipelinesSettings: Settings, pipelineHashes: map<string, string>,
    flipOk: bool, flipThrough: seq<Option<seq<string>>>,
    restartOk: bool, healthy: bool, stampOk: bool, undo: UndoAnswers)

  /** Everything the environment decides in one check-in. */
  datatype Cycle = Cycle(
    recover: UndoAnswers,
    fetch: Option<Changes>,
    policyDirty: bool,
    runtimeDirty: bool,
    snmp: Option<SnmpChanges>,
    prepare: PrepareAnswers,
    apply: ApplyAnswers)

  /** The settings files after one change; a failed write may leave any content of that file. */
  function FileAfter(files: map<FileName, Content>, name: FileName, change: FileChange): map<FileName, Content> {
    match change
    case NotSent => files
    case Written(content) => files[name := content]
    case WriteFailed(left) => if left.Some? then files[name := left.value] else files
  }

  /** All three configuration files: nothing is written after the first failure. */
  function FilesAfter(files: map<FileName, Content>, ch: Changes): map<FileName, Content> {
    var yml := FileAfter(files, LogstashYml, ch.yml);
    var jvm := FileAfter(yml, JvmOptions, ch.jvm);
    if ch.yml.WriteFailed? then yml
    else if ch.jvm.WriteFailed? then jvm
    else FileAfter(jvm, Log4j2Properties, ch.log4j)
  }

  predicate FilesFail(ch: Changes) {
    ch.yml.WriteFailed? || ch.jvm.WriteFailed? || ch.log4j.WriteFailed?
  }

  /** Some configuration file was written, before the first failure if there is one. */
  predicate FilesWritten(ch: Changes) {
    || ch.yml.Written?
    || (!ch.yml.WriteFailed? && (ch.jvm.Written? || (!ch.jvm.WriteFailed? && ch.log4j.Written?)))
  }

  predicate HasWork<V(==)>(d: Delta<V>) {
    d.sets != map[] || d.deletes != []
  }

  method WriteConfigFile(h: Host, name: FileName, change: FileChange) returns (ok: bool)
    requires h.Valid()
    modifies h`disk, h`base, h`journal
    ensures h.Valid() && old(h.journal) <= h.journal && h.base == old(h.base)
    ensures h.disk == old(h.disk).(settings := old(h.disk).settings.(files := FileAfter(old(h.disk).settings.files, name, change)))
    ensures ok <==> !change.WriteFailed?
  {
    var s := h.disk.settings;
    match change
    case NotSent =>
      return true;
    case Written(content) =>
      h.WriteSettings(s.(files := s.files[name := content]));
      return true;
    case WriteFailed(left) =>
      if left.Some? {
        h.WriteSettings(s.(files := s.files[name := left.value]));
      }
      return false;
  }

  /** The configuration files, fail-fast in the order logstash.yml, jvm.options, log4j2.properties. */
  method WriteConfigFiles(h: Host, ch: Changes) returns (ok: bool, updated: bool)
    requires h.Valid()
    modifies h`disk, h`base, h`journal
    ensures h.Valid() && old(h.journal) <= h.journal && h.base == old(h.base)
    ensures h.disk == old(h.disk).(
              settings := old(h.disk).settings.(files := FilesAfter(old(h.disk).settings.files, ch)), env := h.disk.env)
    ensures BinaryOf(h.disk.env) == BinaryOf(old(h.disk).env)
    ensures ok <==> !FilesFail(ch)
    ensures updated <==> FilesWritten(ch)
    // new JVM options are launched with, if the env file can be edited
    ensures ok && ch.jvm.Written? && ch.jvmEnvOk ==>
      EnvFile.Edited(LinesOf(old(h.disk).env), LinesOf(h.disk.env), "LS_JVM_OPTS", Some(ch.jvmPath))
    ensures !ch.jvm.Written? || !ch.jvmEnvOk ==> h.disk.env == old(h.disk).env
  {
    ok := WriteConfigFile(h, LogstashYml, ch.yml);
    updated := ch.yml.Written?;
    if !ok {
      return;
    }
    ok := WriteConfigFile(h, JvmOptions, ch.jvm);
    updated := updated || ch.jvm.Written?;
    if ch.jvm.Written? && ch.jvmEnvOk {
      h.EnsureJvmOpts(ch.jvmPath, ch.envCuts);
    }
    if !ok {
      return;
    }
    ok := WriteConfigFile(h, Log4j2Properties, ch.log4j);
    updated := updated || ch.log4j.Written?;
  }

  function KeystoreAfter(files: map<FileName, Content>, left: KeystoreLeft): map<FileName, Content> {
    match left
    case AsItWas => files
    case Gone => files - {KeystoreFile}
    case Holding(content) => files[KeystoreFile := content]
  }

  /** Agent state after a password change: the new password, and no SNMP keys if the secrets were wiped. */
  function PasswordState(st: AgentState, p: PasswordChange): AgentState {
    if p.PasswordApplied? then st.(password := p.pass, snmpKeystore := if p.wiped then map[] else st.snmpKeystore) else st
  }

  /** What the change leaves of the keystore file. */
  function LeftBy(p: PasswordChange): KeystoreLeft {
    if p.NoPasswordChange? then AsItWas else p.left
  }

  /** Keystore file first, agent state next, the env file of the unit last. */
  method ChangeKeystorePassword(h: Host, p: PasswordChange, cuts: seq<(nat, nat)>)
    requires h.Valid()
    modifies h`disk, h`base, h`journal
    ensures h.Valid() && old(h.journal) <= h.journal && h.base == old(h.base)
    ensures h.disk == old(h.disk).(
              settings := old(h.disk).settings.(files := KeystoreAfter(old(h.disk).settings.files, LeftBy(p))),
              state := PasswordState(old(h.disk).state, p),
              env := h.disk.env)
    ensures BinaryOf(h.disk.env) == BinaryOf(old(h.disk).env)
    ensures !p.PasswordApplied? || !p.envOk ==> h.disk.env == old(h.disk).env
    ensures p.PasswordApplied? && p.envOk ==>
      EnvFile.Edited(LinesOf(old(h.disk).env), LinesOf(h.disk.env), "LOGSTASH_KEYSTORE_PASS", p.pass)
  {
    var s := h.disk.settings;
    if !LeftBy(p).AsItWas? {
      h.WriteSettings(s.(files := KeystoreAfter(s.files, LeftBy(p))));
    }
    if p.PasswordApplied? {
      h.UpdateState(h.disk.state.(password := p.pass));
      if p.wiped {
        h.UpdateState(h.disk.state.(snmpKeystore := map[]));
      }
      if p.envOk {
        h.WriteEnvVar(EnvFile.KEYSTORE_PASS_KEY, p.pass, true, cuts);
      }
    }
  }

  /** The plan after a source that may have a delta; an aborted rollout contributes nothing. */
  function Contributed(plan: Delta<string>, delta: Option<Delta<string>>, aborted: bool): Delta<string> {
    if delta.Some? && !aborted then Merge(plan, delta.value) else plan
  }

  /** The keystore password is looked at once the configuration files are written. */
  predicate ReachesPassword(prep: Prep, ch: Changes) {
    !prep.Held? && !prep.Failed? && !FilesFail(ch)
  }

  function FetchedState(st: AgentState, prep: Prep, ch: Changes): AgentState {
    if ReachesPassword(prep, ch) then PasswordState(st, ch.password) else st
  }

  /** The settings files after a fetch: configuration files, and the keystore file if it gets that far. */
  function FetchedFiles(files: map<FileName, Content>, ch: Changes): map<FileName, Content> {
    var written := FilesAfter(files, ch);
    if FilesFail(ch) then written else KeystoreAfter(written, LeftBy(ch.password))
  }

  function FetchedSettings(s: Settings, prep: Prep, ch: Changes): Settings {
    if prep.Held? || prep.Failed? then s else s.(files := FetchedFiles(s.files, ch))
  }

  /** A fetch wrote something that Logstash reads at start-up. */
  predicate WroteFiles(prep: Prep, ch: Changes) {
    || prep.Changed?
    || (!prep.Held? && !prep.Failed? && (FilesWritten(ch) || (!FilesFail(ch) && ch.password.PasswordApplied?)))
  }

  /** The verdict on a policy response, from what was sent and what could be written. */
  ghost predicate Judged(res: PolicyRes, ch: Changes) {
    && res.revision == ch.revision
    && (res.aborted <==> !ReachesPassword(res.prep, ch) || ch.password.PasswordFailed?)
    && (res.failed <==>
          || res.prep.Failed?
          || (!res.prep.Held? && (FilesFail(ch) || ch.password.PasswordFailed? || ch.password.DecryptFailed?)))
    && (res.requiresRestart <==> WroteFiles(res.prep, ch))
    && (res.filesUpdated <==>
          WroteFiles(res.prep, ch) || (!res.aborted && (ch.keystore.Some? || ch.pipelines.Some?)))
  }

  /** Configuration files and keystore password of a response whose runtime was prepared. */
  method ApplyFiles(h: Host, ch: Changes) returns (aborted: bool, failed: bool, updated: bool)
    requires h.Valid()
    modifies h`disk, h`base, h`journal
    ensures h.Valid() && old(h.journal) <= h.journal && h.base == old(h.base)
    ensures h.disk == old(h.disk).(
              settings := old(h.disk).settings.(files := FetchedFiles(old(h.disk).settings.files, ch)),
              state := if FilesFail(ch) then old(h.disk).state else PasswordState(old(h.disk).state, ch.password),
              env := h.disk.env)
    ensures BinaryOf(h.disk.env) == BinaryOf(old(h.disk).env)
    ensures aborted <==> FilesFail(ch) || ch.password.PasswordFailed?
    ensures failed <==> aborted || ch.password.DecryptFailed?
    ensures updated <==> FilesWritten(ch) || (!FilesFail(ch) && ch.password.PasswordApplied?)
  {
    var ok;
    ok, updated := WriteConfigFiles(h, ch);
    if !ok {
      return true, true, updated;
    }
    ChangeKeystorePassword(h, ch.password, ch.envCuts);
    match ch.password {
      case PasswordApplied(_, _, _, _) =>
        return false, false, true;
      case PasswordFailed(_) =>
        return true, true, updated;
      case DecryptFailed(_) =>
        return false, true, updated;
      case NoPasswordChange =>
        return false, false, updated;
    }
  }

  /**
  `get_config_changes` in merge mode: prepare the runtime first, write the configuration
  files, change the keystore password, and defer the key and pipeline deltas to the plan. An
  exception after that loses the verdict, not the work; `judged` is the verdict there was.
  */
  method GetConfigChanges(h: Host, ch: Changes, a: PrepareAnswers,
                          keystore: DeltaPlan<string>, pipelines: DeltaPlan<string>)
    returns (res: Option<PolicyRes>, ghost judged: PolicyRes)
    requires h.Valid() && keystore != pipelines
    modifies h`disk, h`base, h`journal, keystore, pipelines
    ensures h.Valid() && old(h.journal) <= h.journal
    ensures Judged(judged, ch) && res == (if ch.raises then None else Some(judged))
    ensures h.Pending(judged.prep) && judged.prep == Outcome(ch.runtime, a, old(h.disk))
    ensures Fetched(old(h.disk), h.disk, h.base, judged.prep, ch)
    // the deltas reach the plan unless the rollout aborted
    ensures keystore.Value() == Contributed(old(keystore.Value()), ch.keystore, judged.aborted)
    ensures pipelines.Value() == Contributed(old(pipelines.Value()), ch.pipelines, judged.aborted)
  {
    var filesUpdated, requiresRestart, failed, aborted := false, false, false, false;
    var prep := h.PrepareRuntimeUpgrade(ch.runtime, a);
    match prep {
      case Failed =>
        failed, aborted := true, true;
      case Held =>
        aborted := true;
      case Changed(_, _, _) =>
        filesUpdated, requiresRestart := true, true;
      case Unchanged =>
    }
    if !aborted {
      var updated;
      aborted, failed, updated := ApplyFiles(h, ch);
      filesUpdated, requiresRestart := filesUpdated || updated, requiresRestart || updated;
    }
    if !aborted {
      Defer(ch, keystore, pipelines);
      filesUpdated := filesUpdated || ch.keystore.Some? || ch.pipelines.Some?;
    }
    judged := PolicyRes(filesUpdated, requiresRestart, failed, aborted, ch.revision, prep);
    if ch.raises {
      return None, judged;
    }
    return Some(PolicyRes(filesUpdated, requiresRestart, failed, aborted, ch.revision, prep)), judged;
  }

  /**
  What a fetch does to the disk, from `d` to `e`: settings files and keystore password as sent,
  and a snapshot of `d` if the runtime changes. A snapshot that was there stays as it is.
  */
  ghost predicate Fetched(d: Disk, e: Disk, b: Base, prep: Prep, ch: Changes) {
    && e.settings == FetchedSettings(d.settings, prep, ch)
    && e.state == FetchedState(d.state, prep, ch)
    && e.registry == d.registry
    && BinaryOf(e.env) == BinaryOf(d.env)
    && (prep.Held? || prep.Failed? ==> e.env == d.env)
    && (prep.Changed? ==> d.snap.None? && b == Base(d.settings, d.env))
    && (d.snap.Some? ==> e.snap == d.snap)
  }

  /** The deltas of the policy response go into the shared plan. */
  method Defer(ch: Changes, keystore: DeltaPlan<string>, pipelines: DeltaPlan<string>)
    requires keystore != pipelines
    modifies keystore, pipelines
    ensures keystore.Value() == Contributed(old(keystore.Value()), ch.keystore, false)
    ensures pipelines.Value() == Contributed(old(pipelines.Value()), ch.pipelines, false)
  {
    if ch.keystore.Some? {
      keystore.MergeIn(ch.keystore.value);
    }
    if ch.pipelines.Some? {
      pipelines.MergeIn(ch.pipelines.value);
    }
  }

  /** `apply_snmp_changes` in merge mode. */
  method ApplySnmpChanges(ch: SnmpChanges, keystore: DeltaPlan<string>, pipelines: DeltaPlan<string>)
    returns (res: SnmpRes)
    requires keystore != pipelines
    modifies keystore, pipelines
    ensures keystore.Value() == Merge(old(keystore.Value()), ch.keystore)
    ensures pipelines.Value() == Merge(old(pipelines.Value()), ch.pipelines)
    ensures res == SnmpRes(ch.pipelines.sets, ch.pipelines.deletes, ch.keystore.sets.Keys, ch.keystore.deletes)
  {
    res := SnmpRes(ch.pipelines.sets, ch.pipelines.deletes, {}, []);
    if HasWork(ch.keystore) {
      keystore.MergeIn(ch.keystore);
      res := res.(keystoreSetNames := ch.keystore.sets.Keys, keystoreDeletes := ch.keystore.deletes);
    }
    if HasWork(ch.pipelines) {
      pipelines.MergeIn(ch.pipelines);
    }
  }

  /** The keystore and pipeline writes of the merged apply, keystore first. */
  method WriteDeltas(h: Host, ks: Delta<string>, pl: Delta<string>, a: ApplyAnswers)
    requires h.Valid()
    modifies h`disk, h`base, h`journal, h`tally
    ensures h.Valid() && old(h.journal) <= h.journal
    ensures h.base == old(h.base) && h.disk.snap == old(h.disk).snap && h.disk.env == old(h.disk).env
    ensures h.disk.registry == old(h.disk).registry
    ensures h.disk.state == WrittenState(old(h.disk).state, ks, pl, false, a)
    ensures h.tally == old(h.tally).(
              keystoreWrites := old(h.tally).keystoreWrites + if HasWork(ks) then 1 else 0,
              pipelineWrites := old(h.tally).pipelineWrites + if HasWork(pl) then 1 else 0)
  {
    if HasWork(ks) {
      WriteKeystore(h, a);
    }
    if HasWork(pl) {
      WritePipelines(h, a);
    }
  }

  /** `update_keystore`, as far as the disk shows it. */
  method WriteKeystore(h: Host, a: ApplyAnswers)
    requires h.Valid()
    modifies h`disk, h`base, h`journal, h`tally
    ensures h.Valid() && old(h.journal) <= h.journal && h.base == old(h.base)
    ensures h.disk == old(h.disk).(settings := a.keystoreSettings, state := old(h.disk).state.(
              keystore := if a.keystoreOk then a.keystoreHashes else old(h.disk).state.keystore))
    ensures h.tally == old(h.tally).(keystoreWrites := old(h.tally).keystoreWrites + 1)
  {
    h.WriteSettings(a.keystoreSettings);
    if a.keystoreOk {
      h.UpdateState(h.disk.state.(keystore := a.keystoreHashes));
    }
    h.tally := h.tally.(keystoreWrites := h.tally.keystoreWrites + 1);
  }

  /** `update_pipelines`, as far as the disk shows it. */
  method WritePipelines(h: Host, a: ApplyAnswers)
    requires h.Valid()
    modifies h`disk, h`base, h`journal, h`tally
    ensures h.Valid() && old(h.journal) <= h.journal && h.base == old(h.base)
    ensures h.disk == old(h.disk).(settings := a.pipelinesSettings, state := old(h.disk).state.(
              pipelines := if a.pipelinesOk then a.pipelineHashes else old(h.disk).state.pipelines))
    ensures h.tally == old(h.tally).(pipelineWrites := old(h.tally).pipelineWrites + 1)
  {
    h.WriteSettings(a.pipelinesSettings);
    if a.pipelinesOk {
      h.UpdateState(h.disk.state.(pipelines := a.pipelineHashes));
    }
    h.tally := h.tally.(pipelineWrites := h.tally.pipelineWrites + 1);
  }

  /** A restart is attempted: every write succeeded and a changed upgrade got its env flip. */
  predicate Attempts(prep: Prep, needed: bool, writesOk: bool, aborted: bool, a: ApplyAnswers) {
    needed && writesOk && !aborted && (prep.Changed? ==> prep.desired.binary != "" && a.flipOk)
  }

  /** A changed upgrade is kept: the restart was attempted, it succeeded and Logstash answers. */
  predicate Keeps(prep: Prep, needed: bool, writesOk: bool, aborted: bool, a: ApplyAnswers) {
    prep.Changed? && Attempts(prep, needed, writesOk, aborted, a) && a.restartOk && a.healthy
  }

  /** How the restart phase of the merged apply ended. */
  datatype RestartPhase = RestartPhase(restartFailed: bool, rolledBack: bool)

  /**
  The restart phase: roll back without a restart when a write failed or the rollout aborted,
  otherwise flip, restart once and finalize.
  */
  method RestartAndFinalize(h: Host, prep: Prep, needed: bool, writesOk: bool, aborted: bool, a: ApplyAnswers)
    returns (r: RestartPhase)
    requires h.Valid() && h.Pending(prep)
    requires prep.Changed? ==> needed
    modifies h`disk, h`base, h`journal, h`tally
    ensures h.Valid() && old(h.journal) <= h.journal
    // a changed upgrade is resolved exactly once
    ensures var attempts, keeps := Attempts(prep, needed, writesOk, aborted, a), Keeps(prep, needed, writesOk, aborted, a);
      && h.tally == old(h.tally).(
           flips := old(h.tally).flips + (if prep.Changed? && attempts then 1 else 0),
           commits := old(h.tally).commits + (if keeps then 1 else 0),
           rollbacks := old(h.tally).rollbacks + (if prep.Changed? && !keeps then 1 else 0),
           restarts := h.tally.restarts)
      && r == RestartPhase(attempts && !a.restartOk, prep.Changed? && !keeps)
      // one restart when one is due, and a second one only to roll back after it
      && (if attempts then
            old(h.tally).restarts < h.tally.restarts <=
              old(h.tally).restarts + if prep.Changed? && !keeps then 2 else 1
          else h.tally.restarts == old(h.tally).restarts)
    ensures !prep.Changed? ==> h.disk == old(h.disk) && h.base == old(h.base)
    ensures h.disk.state ==
      if Keeps(prep, needed, writesOk, aborted, a) then CommittedState(old(h.disk).state, prep) else old(h.disk).state
    ensures h.disk.registry == if Keeps(prep, needed, writesOk, aborted, a) && a.stampOk && old(h.disk).registry.Some?
      then Some(prep.desired) else old(h.disk).registry
    ensures prep.Changed? && !r.rolledBack ==> Consistent(h.disk)
    ensures r.rolledBack && Cooperates(a.undo) ==> h.disk.snap.None?
    ensures r.rolledBack && h.disk.snap.None? ==>
      h.disk.env == old(h.base).env && Restored(h.disk.settings, Capture(old(h.base).settings)) == h.disk.settings
  {
    r := RestartPhase(false, false);
    if prep.Changed? && (!writesOk || aborted) {
      var _ := h.RollbackRuntimeUpgrade(false, a.undo);
      r := r.(rolledBack := true);
    } else if needed && writesOk && !aborted {
      if prep.Changed? {
        var flipped := h.FlipRuntimeEnv(prep, a.flipOk, a.flipThrough);
        if !flipped {
          var _ := h.RollbackRuntimeUpgrade(false, a.undo);
          return RestartPhase(false, true);
        }
      }
      var restarted := h.RestartLogstash(a.restartOk);
      r := r.(restartFailed := !restarted);
      if prep.Changed? {
        var kept := h.FinalizeRuntimeUpgrade(prep, restarted, a.healthy, a.stampOk, a.undo);
        r := r.(rolledBack := !kept);
      }
    }
  }

  /**
  The SNMP namespaces take over the contributed changes of every part that was applied; key
  hashes are those the keystore write recorded.
  */
  function SnmpAfter(st: AgentState, snmp: SnmpRes, keystoreOk: bool, pipelinesOk: bool): AgentState {
    st.(snmpPipelines :=
          if pipelinesOk then Apply(st.snmpPipelines, Delta(snmp.pipelineSet, snmp.pipelineDeletes)) else st.snmpPipelines,
        snmpKeystore :=
          if keystoreOk then Apply(st.snmpKeystore, Delta(Known(st.keystore, snmp.keystoreSetNames), snmp.keystoreDeletes))
          else st.snmpKeystore)
  }

  /** The entries of `m` for the given names. */
  function Known(m: map<string, string>, names: set<string>): map<string, string> {
    map n | n in names && n in m :: m[n]
  }

  /** The SNMP hash namespaces, for the parts that were applied. */
  method RecordSnmpHashes(h: Host, snmp: SnmpRes, keystoreOk: bool, pipelinesOk: bool)
    requires h.Valid()
    modifies h`disk, h`base, h`journal, h`tally
    ensures h.Valid() && old(h.journal) <= h.journal
    ensures h.base == old(h.base)
    ensures h.disk == old(h.disk).(state := SnmpAfter(old(h.disk).state, snmp, keystoreOk, pipelinesOk))
    ensures h.tally == old(h.tally).(snmpWrites := h.tally.snmpWrites)
  {
    if pipelinesOk {
      RecordSnmpPipelines(h, Delta(snmp.pipelineSet, snmp.pipelineDeletes));
    }
    if keystoreOk {
      RecordSnmpKeys(h, Delta(Known(h.disk.state.keystore, snmp.keystoreSetNames), snmp.keystoreDeletes));
    }
  }

  method RecordSnmpPipelines(h: Host, d: Delta<string>)
    requires h.Valid()
    modifies h`disk, h`base, h`journal, h`tally
    ensures h.Valid() && old(h.journal) <= h.journal && h.base == old(h.base)
    ensures h.disk == old(h.disk).(state := old(h.disk).state.(snmpPipelines := Apply(old(h.disk).state.snmpPipelines, d)))
    ensures h.tally == old(h.tally).(snmpWrites := h.tally.snmpWrites)
  {
    if HasWork(d) {
      h.UpdateState(h.disk.state.(snmpPipelines := Apply(h.disk.state.snmpPipelines, d)));
      h.tally := h.tally.(snmpWrites := h.tally.snmpWrites + 1);
    }
  }

  method RecordSnmpKeys(h: Host, d: Delta<string>)
    requires h.Valid()
    modifies h`disk, h`base, h`journal, h`tally
    ensures h.Valid() && old(h.journal) <= h.journal && h.base == old(h.base)
    ensures h.disk == old(h.disk).(state := old(h.disk).state.(snmpKeystore := Apply(old(h.disk).state.snmpKeystore, d)))
    ensures h.tally == old(h.tally).(snmpWrites := h.tally.snmpWrites)
  {
    if HasWork(d) {
      h.UpdateState(h.disk.state.(snmpKeystore := Apply(h.disk.state.snmpKeystore, d)));
      h.tally := h.tally.(snmpWrites := h.tally.snmpWrites + 1);
    }
  }

  /** The revision, unless the rollout aborted or a change of policy files failed. */
  method FinalizeRevision(h: Host, policy: PolicyRes, failed: bool)
    requires h.Valid()
    modifies h`disk, h`base, h`journal, h`tally
    ensures h.Valid() && old(h.journal) <= h.journal && h.base == old(h.base)
    ensures var advance := !policy.aborted && !(policy.filesUpdated && failed) && policy.revision.Some?;
      && h.disk == (if advance then old(h.disk).(state := old(h.disk).state.(revision := policy.revision.value))
                    else old(h.disk))
      && h.tally == old(h.tally).(revisionWrites := old(h.tally).revisionWrites + if advance then 1 else 0)
  {
    if !policy.aborted && !(policy.filesUpdated && failed) && policy.revision.Some? {
      h.UpdateState(h.disk.state.(revision := policy.revision.value));
      h.tally := h.tally.(revisionWrites := h.tally.revisionWrites + 1);
    }
  }

  predicate Aborted(policy: Option<PolicyRes>) {
    policy.Some? && policy.value.aborted
  }

  /** Every write that has something to do succeeds. */
  predicate Clean(ks: Delta<string>, pl: Delta<string>, a: ApplyAnswers) {
    (HasWork(ks) ==> a.keystoreOk) && (HasWork(pl) ==> a.pipelinesOk)
  }

  /** Logstash reads new key values and changed configuration files at start-up only. */
  predicate Demands(ks: Delta<string>, policy: Option<PolicyRes>) {
    ks.sets != map[] || (policy.Some? && (policy.value.requiresRestart || policy.value.prep.Changed?))
  }

  function PrepOf(policy: Option<PolicyRes>): Prep {
    if policy.Some? then policy.value.prep else Unchanged
  }

  /** Something the policy asked for did not work out. */
  predicate Fails(ks: Delta<string>, pl: Delta<string>, policy: PolicyRes, a: ApplyAnswers) {
    var prep, needed := policy.prep, Demands(ks, Some(policy));
    || policy.failed
    || !Clean(ks, pl, a)
    || (Attempts(prep, needed, true, false, a) && !a.restartOk)
    || (prep.Changed? && !Keeps(prep, needed, true, false, a))
  }

  /** The revision is recorded. */
  predicate Advances(ks: Delta<string>, pl: Delta<string>, policy: Option<PolicyRes>, a: ApplyAnswers) {
    && policy.Some? && !policy.value.aborted && policy.value.revision.Some?
    && !(policy.value.filesUpdated && Fails(ks, pl, policy.value, a))
  }

  /** How often each action was taken in one merged apply of `ks` and `pl`, between tallies `t` and `u`. */
  ghost predicate MergedTally(t: Tally, u: Tally, ks: Delta<string>, pl: Delta<string>,
                              policy: Option<PolicyRes>, a: ApplyAnswers)
  {
    var prep, aborted := PrepOf(policy), Aborted(policy);
    var attempts := Attempts(prep, Demands(ks, policy), Clean(ks, pl, a), aborted, a);
    var keeps := Keeps(prep, Demands(ks, policy), Clean(ks, pl, a), aborted, a);
    && u.keystoreWrites == t.keystoreWrites + (if !aborted && HasWork(ks) then 1 else 0)
    && u.pipelineWrites == t.pipelineWrites + (if !aborted && HasWork(pl) then 1 else 0)
    && u.flips == t.flips + (if prep.Changed? && attempts then 1 else 0)
    && u.commits == t.commits + (if keeps then 1 else 0)
    && u.rollbacks == t.rollbacks + (if prep.Changed? && !keeps then 1 else 0)
    && u.revisionWrites == t.revisionWrites + (if Advances(ks, pl, policy, a) then 1 else 0)
    && (if attempts then t.restarts < u.restarts <= t.restarts + if prep.Changed? && !keeps then 2 else 1
        else u.restarts == t.restarts)
    && (aborted || u.rollbacks > t.rollbacks ==> u.snmpWrites == t.snmpWrites)
  }

  /** Every changed upgrade is resolved exactly once, by a commit or by a rollback. */
  lemma ResolvedOnce(t: Tally, u: Tally, ks: Delta<string>, pl: Delta<string>, policy: Option<PolicyRes>, a: ApplyAnswers)
    requires MergedTally(t, u, ks, pl, policy, a)
    ensures u.commits + u.rollbacks == t.commits + t.rollbacks + if PrepOf(policy).Changed? then 1 else 0
    ensures u.commits > t.commits <==>
      && PrepOf(policy).Changed? && !Aborted(policy) && Clean(ks, pl, a)
      && PrepOf(policy).desired.binary != "" && a.flipOk && a.restartOk && a.healthy
  {
  }

  /**
  Logstash is restarted at most once, and twice only when an upgrade rolls back after its flip;
  a clean apply of new key values or changed configuration files does restart it.
  */
  lemma RestartedOnce(t: Tally, u: Tally, ks: Delta<string>, pl: Delta<string>, policy: Option<PolicyRes>, a: ApplyAnswers)
    requires MergedTally(t, u, ks, pl, policy, a)
    ensures u.restarts <= t.restarts + 1 ||
      (u.restarts == t.restarts + 2 && u.rollbacks > t.rollbacks && u.flips > t.flips)
    ensures !PrepOf(policy).Changed? ==>
      (u.restarts == t.restarts + 1 <==> !Aborted(policy) && Clean(ks, pl, a) && Demands(ks, policy))
  {
  }

  /**
  An aborted rollout writes nothing and restarts nothing; the revision never advances past a
  rolled-back upgrade, a failed write or a failed restart, if policy files had changed.
  */
  lemma RevisionIsHeld(t: Tally, u: Tally, ks: Delta<string>, pl: Delta<string>, policy: Option<PolicyRes>, a: ApplyAnswers)
    requires MergedTally(t, u, ks, pl, policy, a)
    requires PrepOf(policy).Changed? ==> policy.value.filesUpdated
    ensures Aborted(policy) ==> u == t.(rollbacks := u.rollbacks)
    ensures u.rollbacks > t.rollbacks ==> u.revisionWrites == t.revisionWrites && u.snmpWrites == t.snmpWrites
    ensures u.revisionWrites > t.revisionWrites <==>
      && policy.Some? && policy.value.revision.Some? && !policy.value.aborted
      && (policy.value.filesUpdated ==>
            && !policy.value.failed && Clean(ks, pl, a)
            && u.rollbacks == t.rollbacks && (u.restarts > t.restarts ==> a.restartOk))
  {
  }

  /** Agent state after the keystore and pipeline writes: hashes of those that had work and succeeded. */
  function WrittenState(st: AgentState, ks: Delta<string>, pl: Delta<string>, aborted: bool, a: ApplyAnswers): AgentState {
    if aborted then st
    else st.(keystore := if HasWork(ks) && a.keystoreOk then a.keystoreHashes else st.keystore,
             pipelines := if HasWork(pl) && a.pipelinesOk then a.pipelineHashes else st.pipelines)
  }

  /** Agent state after the bookkeeping: SNMP hashes unless aborted or rolled back, and the revision. */
  function ConcludedState(st: AgentState, ks: Delta<string>, pl: Delta<string>, policy: Option<PolicyRes>,
                          snmp: Option<SnmpRes>, rolledBack: bool, a: ApplyAnswers): AgentState
  {
    var noted := if snmp.Some? && !rolledBack && !Aborted(policy)
      then SnmpAfter(st, snmp.value, HasWork(ks) ==> a.keystoreOk, HasWork(pl) ==> a.pipelinesOk) else st;
    if Advances(ks, pl, policy, a) then noted.(revision := policy.value.revision.value) else noted
  }

  /** The changed upgrade is kept. */
  predicate Kept(ks: Delta<string>, pl: Delta<string>, policy: Option<PolicyRes>, a: ApplyAnswers) {
    Keeps(PrepOf(policy), Demands(ks, policy), Clean(ks, pl, a), Aborted(policy), a)
  }

  predicate RolledBack(ks: Delta<string>, pl: Delta<string>, policy: Option<PolicyRes>, a: ApplyAnswers) {
    PrepOf(policy).Changed? && !Kept(ks, pl, policy, a)
  }

  /**
  What one merged apply of `ks` and `pl` does to agent state, settings and env file, between
  disks `d` and `e`; `b` is the base of the snapshot of its upgrade.
  */
  ghost predicate MergedState(d: Disk, e: Disk, b: Base, ks: Delta<string>, pl: Delta<string>,
                              policy: Option<PolicyRes>, snmp: Option<SnmpRes>, a: ApplyAnswers)
  {
    && e.state == ConcludedState(ResolvedState(d.state, ks, pl, policy, a), ks, pl, policy, snmp, RolledBack(ks, pl, policy, a), a)
    && FilesResolved(e, b, ks, pl, policy, a)
    && (!PrepOf(policy).Changed? ==> e.snap == d.snap && e.env == d.env)
    && e.registry == RegistryAfter(d.registry, ks, pl, policy, a)
  }

  /** The install registry after a merged apply: a kept upgrade is stamped on a listed instance. */
  function RegistryAfter(r: Option<Pin>, ks: Delta<string>, pl: Delta<string>, policy: Option<PolicyRes>,
                         a: ApplyAnswers): Option<Pin>
  {
    if Kept(ks, pl, policy, a) && a.stampOk && r.Some? then Some(PrepOf(policy).desired) else r
  }

  /** Agent state after the writes and the restart phase. */
  function ResolvedState(st: AgentState, ks: Delta<string>, pl: Delta<string>, policy: Option<PolicyRes>,
                         a: ApplyAnswers): AgentState
  {
    var written := WrittenState(st, ks, pl, Aborted(policy), a);
    if Kept(ks, pl, policy, a) then CommittedState(written, PrepOf(policy)) else written
  }

  /** After a rollback the files are those of the base, and after a commit the unit launches the new binary. */
  ghost predicate FilesResolved(e: Disk, b: Base, ks: Delta<string>, pl: Delta<string>, policy: Option<PolicyRes>, a: ApplyAnswers) {
    && (RolledBack(ks, pl, policy, a) && Cooperates(a.undo) ==> e.snap.None?)
    && (RolledBack(ks, pl, policy, a) && e.snap.None? ==>
          e.env == b.env && Restored(e.settings, Capture(b.settings)) == e.settings)
    && (Kept(ks, pl, policy, a) ==> Consistent(e))
  }

  /**
  A rollback restores files, not what agent state records about them. After a rolled-back
  upgrade the recorded keystore and pipeline hashes are those of before if and only if no write
  of the merged plan succeeded with different ones.
  */
  lemma HashesSurviveRollbackExactlyWhen(d: Disk, e: Disk, b: Base, ks: Delta<string>, pl: Delta<string>,
                                         policy: Option<PolicyRes>, snmp: Option<SnmpRes>, a: ApplyAnswers)
    requires MergedState(d, e, b, ks, pl, policy, snmp, a) && RolledBack(ks, pl, policy, a)
    requires policy.value.filesUpdated
    ensures e.state == WrittenState(d.state, ks, pl, Aborted(policy), a)
    ensures e.state.keystore == d.state.keystore && e.state.pipelines == d.state.pipelines <==>
      || Aborted(policy)
      || (&& (HasWork(ks) && a.keystoreOk ==> a.keystoreHashes == d.state.keystore)
          && (HasWork(pl) && a.pipelinesOk ==> a.pipelineHashes == d.state.pipelines))
  {
  }

  /**
  Such a run: an upgrade is prepared, the keystore is written with a new key, and the restart
  fails. The keystore file is the old one again, the recorded hashes are not.
  */
  method RolledBackRun() returns (h: Host)
    ensures h.Valid() && h.tally.rollbacks == 1 && h.disk.snap.None?
    ensures KeystoreFile in h.disk.settings.files && h.disk.settings.files[KeystoreFile] == "old keys"
    ensures h.disk.state.keystore == map["key" := "hash"]
  {
    var pin := Pin("SYSTEM", "", "/usr/bin/logstash");
    var env := EnvFile.SetVar([], EnvFile.BINARY_KEY, Some(pin.binary));
    EnvFile.SetThenLookup([], EnvFile.BINARY_KEY, Some(pin.binary));
    var state := AgentState(pin, "", "", "", 1, None, map[], map[], map[], map[]);
    var settings := Settings(map[KeystoreFile := "old keys"], map[]);
    var disk := Disk(settings, Some(env), state, None, None);
    OneFileIsCaptured(disk, "old keys");
    h := new Host(disk);
    var runtime := Some(Runtime("VERSION", "9.5.0", ""));
    var prep := h.PrepareRuntimeUpgrade(runtime, PrepareAnswers(true, false, Some("/opt/bin/logstash"), 10, [], true));
    var ks: Delta<string> := Delta(map["key" := "value"], []);
    var undo := UndoAnswers(RESTORE_STEPS, Torn([], [], []), true, true);
    var a := ApplyAnswers(true, Settings(map[KeystoreFile := "new keys"], map[]), map["key" := "hash"],
                          true, settings, map[], true, [], false, false, true, undo);
    var policy := Some(PolicyRes(true, true, false, false, Some(2), prep));
    ApplyDeltas(h, ks, Delta(map[], []), policy, None, a);
  }

  lemma OneFileIsCaptured(d: Disk, content: Content)
    requires d.settings == Settings(map[KeystoreFile := content], map[])
    ensures CaptureSteps(d) <= 10
    ensures KeystoreFile in Capture(d.settings).files && Capture(d.settings).files[KeystoreFile] == content
  {
    PresentBound(d.settings.files.Keys, SETTING_FILES);
    PresentBound(d.settings.dirs.Keys, SETTING_DIRS);
  }

  /** The bookkeeping after the restart phase. */
  method Conclude(h: Host, ks: Delta<string>, pl: Delta<string>, policy: Option<PolicyRes>, snmp: Option<SnmpRes>,
                  a: ApplyAnswers, r: RestartPhase)
    requires h.Valid()
    requires !Aborted(policy) ==>
      r == RestartPhase(Attempts(PrepOf(policy), Demands(ks, policy), Clean(ks, pl, a), false, a) && !a.restartOk,
                        RolledBack(ks, pl, policy, a))
    modifies h`disk, h`base, h`journal, h`tally
    ensures h.Valid() && old(h.journal) <= h.journal && h.base == old(h.base)
    ensures h.disk == old(h.disk).(state := ConcludedState(old(h.disk).state, ks, pl, policy, snmp, r.rolledBack, a))
    ensures h.tally == old(h.tally).(
              snmpWrites := h.tally.snmpWrites,
              revisionWrites := old(h.tally).revisionWrites + if Advances(ks, pl, policy, a) then 1 else 0)
    ensures Aborted(policy) || r.rolledBack ==> h.tally.snmpWrites == old(h.tally).snmpWrites
  {
    var keystoreOk, pipelinesOk := HasWork(ks) ==> a.keystoreOk, HasWork(pl) ==> a.pipelinesOk;
    if snmp.Some? && !r.rolledBack && !Aborted(policy) {
      RecordSnmpHashes(h, snmp.value, keystoreOk, pipelinesOk);
    }
    if policy.Some? {
      var failed := policy.value.failed || !keystoreOk || !pipelinesOk || r.restartFailed || r.rolledBack;
      FinalizeRevision(h, policy.value, failed);
    }
  }

  /** Writes and restart phase for the final deltas. */
  method WriteAndRestart(h: Host, ks: Delta<string>, pl: Delta<string>, policy: Option<PolicyRes>, a: ApplyAnswers)
    returns (r: RestartPhase)
    requires h.Valid() && h.Pending(PrepOf(policy))
    modifies h`disk, h`base, h`journal, h`tally
    ensures h.Valid() && old(h.journal) <= h.journal
    ensures r == RestartPhase(
                   Attempts(PrepOf(policy), Demands(ks, policy), Clean(ks, pl, a), Aborted(policy), a) && !a.restartOk,
                   RolledBack(ks, pl, policy, a))
    ensures MergedTally(old(h.tally), h.tally.(revisionWrites := Noted(old(h.tally), ks, pl, policy, a)), ks, pl, policy, a)
    ensures h.tally.revisionWrites == old(h.tally).revisionWrites && h.tally.snmpWrites == old(h.tally).snmpWrites
    ensures h.disk.state == ResolvedState(old(h.disk).state, ks, pl, policy, a)
    ensures FilesResolved(h.disk, old(h.base), ks, pl, policy, a)
    ensures !PrepOf(policy).Changed? ==> h.disk.snap == old(h.disk).snap && h.disk.env == old(h.disk).env
    ensures h.disk.registry == RegistryAfter(old(h.disk).registry, ks, pl, policy, a)
  {
    var aborted := Aborted(policy);
    if !aborted {
      WriteDeltas(h, ks, pl, a);
    }
    r := RestartAndFinalize(h, PrepOf(policy), Demands(ks, policy), Clean(ks, pl, a), aborted, a);
  }

  /** The number of revisions recorded once the apply is concluded. */
  function Noted(t: Tally, ks: Delta<string>, pl: Delta<string>, policy: Option<PolicyRes>, a: ApplyAnswers): nat {
    t.revisionWrites + if Advances(ks, pl, policy, a) then 1 else 0
  }

  /** Writes, restart phase and bookkeeping for the final deltas. */
  method ApplyDeltas(h: Host, ks: Delta<string>, pl: Delta<string>,
                     policy: Option<PolicyRes>, snmp: Option<SnmpRes>, a: ApplyAnswers)
    requires h.Valid() && h.Pending(PrepOf(policy))
    requires PrepOf(policy).Changed? ==> policy.value.filesUpdated
    modifies h`disk, h`base, h`journal, h`tally
    ensures h.Valid() && old(h.journal) <= h.journal
    ensures MergedTally(old(h.tally), h.tally, ks, pl, policy, a)
    ensures MergedState(old(h.disk), h.disk, old(h.base), ks, pl, policy, snmp, a)
  {
    var r := WriteAndRestart(h, ks, pl, policy, a);
    Conclude(h, ks, pl, policy, snmp, a, r);
  }

  /** `_apply_merged_plan`. */
  method ApplyMergedPlan(h: Host, keystore: DeltaPlan<string>, pipelines: DeltaPlan<string>,
                         policy: Option<PolicyRes>, snmp: Option<SnmpRes>, a: ApplyAnswers)
    requires h.Valid() && keystore != pipelines
    requires h.Pending(PrepOf(policy))
    requires PrepOf(policy).Changed? ==> policy.value.filesUpdated
    modifies h`disk, h`base, h`journal, h`tally, keystore, pipelines
    ensures h.Valid() && old(h.journal) <= h.journal
    // names being set are not deleted
    ensures keystore.Value() == Filtered(old(keystore.Value())) && pipelines.Value() == Filtered(old(pipelines.Value()))
    ensures MergedTally(old(h.tally), h.tally, keystore.Value(), pipelines.Value(), policy, a)
    ensures MergedState(old(h.disk), h.disk, old(h.base), keystore.Value(), pipelines.Value(), policy, snmp, a)
  {
    keystore.DropSuperseded();
    pipelines.DropSuperseded();
    ApplyDeltas(h, keystore.Value(), pipelines.Value(), policy, snmp, a);
  }

  // ----- one check-in -----

  /** What the two channels contribute, in order: the policy unless its rollout aborted, SNMP unless the fetch raised. */
  function Sources(policy: Option<Delta<string>>, snmp: Option<Delta<string>>, aborted: bool, raised: bool): seq<Delta<string>> {
    (if policy.Some? && !aborted then [policy.value] else []) + (if snmp.Some? && !raised then [snmp.value] else [])
  }

  function KeySources(c: Cycle, aborted: bool): seq<Delta<string>> {
    if c.fetch.None? then []
    else Sources(c.fetch.value.keystore, SnmpKeys(c), aborted, c.fetch.value.raises)
  }

  function PipelineSources(c: Cycle, aborted: bool): seq<Delta<string>> {
    if c.fetch.None? then []
    else Sources(c.fetch.value.pipelines, SnmpPipelines(c), aborted, c.fetch.value.raises)
  }

  /** The plan after the SNMP channel. */
  function Planned(plan: Delta<string>, snmp: Option<Delta<string>>, raised: bool): Delta<string> {
    if snmp.Some? && !raised then Merge(plan, snmp.value) else plan
  }

  function SnmpKeys(c: Cycle): Option<Delta<string>> {
    if c.snmp.Some? then Some(c.snmp.value.keystore) else None
  }

  function SnmpPipelines(c: Cycle): Option<Delta<string>> {
    if c.snmp.Some? then Some(c.snmp.value.pipelines) else None
  }

  /** A fresh plan to which both channels contributed is the merge of their deltas. */
  lemma {:induction false} SourcesMerge(policy: Option<Delta<string>>, snmp: Option<Delta<string>>, aborted: bool, raised: bool)
    ensures Planned(Contributed(Delta(map[], []), policy, aborted), snmp, raised) == Merged(Sources(policy, snmp, aborted, raised))
  {
    var empty: Delta<string> := Delta(map[], []);
    assert Merged<string>([]) == empty;
    if policy.Some? && !aborted {
      MergedOne(policy.value);
      if snmp.Some? && !raised {
        var ds := [policy.value] + [snmp.value];
        assert ds[..|ds| - 1] == [policy.value];
      }
    } else if snmp.Some? && !raised {
      MergedOne(snmp.value);
      assert [] + [snmp.value] == [snmp.value];
    }
  }

  lemma MergedOne(d: Delta<string>)
    ensures Merged([d]) == Merge(Delta(map[], []), d)
  {
    assert [d][..0] == [];
  }

  /** The policy result counts if the check-in flagged it or it changed files, unless the fetch raised. */
  function Counting(judged: Option<PolicyRes>, c: Cycle): Option<PolicyRes> {
    if judged.Some? && c.fetch.Some? && !c.fetch.value.raises && (c.policyDirty || judged.value.filesUpdated || c.runtimeDirty)
    then judged else None
  }

  function SnmpOf(c: Cycle): Option<SnmpRes> {
    if c.fetch.Some? && !c.fetch.value.raises && c.snmp.Some? then
      var ch := c.snmp.value;
      Some(SnmpRes(ch.pipelines.sets, ch.pipelines.deletes, ch.keystore.sets.Keys, ch.keystore.deletes))
    else None
  }

  /** The fetch of a check-in: both channels contribute to a fresh plan. */
  method Fetch(h: Host, c: Cycle, keystore: DeltaPlan<string>, pipelines: DeltaPlan<string>)
    returns (policy: Option<PolicyRes>, snmp: Option<SnmpRes>, ghost judged: Option<PolicyRes>)
    requires h.Valid() && keystore != pipelines
    requires keystore.Value() == Delta(map[], []) && pipelines.Value() == Delta(map[], [])
    modifies h`disk, h`base, h`journal, keystore, pipelines
    ensures h.Valid() && old(h.journal) <= h.journal
    ensures judged.Some? <==> c.fetch.Some?
    ensures judged.Some? ==>
      && Judged(judged.value, c.fetch.value)
      && judged.value.prep == Outcome(c.fetch.value.runtime, c.prepare, old(h.disk))
      && Fetched(old(h.disk), h.disk, h.base, judged.value.prep, c.fetch.value)
    ensures judged.None? ==> h.disk == old(h.disk)
    ensures policy == Counting(judged, c) && snmp == SnmpOf(c)
    ensures h.Pending(PrepOf(policy))
    ensures keystore.Value() == Merged(KeySources(c, Aborted(judged)))
    ensures pipelines.Value() == Merged(PipelineSources(c, Aborted(judged)))
  {
    policy, snmp, judged := None, None, None;
    if c.fetch.Some? {
      ghost var verdict;
      policy, snmp, verdict := Gather(h, c, c.fetch.value, keystore, pipelines);
      judged := Some(verdict);
      SourcesMerge(c.fetch.value.keystore, SnmpKeys(c), verdict.aborted, c.fetch.value.raises);
      SourcesMerge(c.fetch.value.pipelines, SnmpPipelines(c), verdict.aborted, c.fetch.value.raises);
    }
  }

  /** The fetched response: the policy first, then the SNMP part that rides along. */
  method Gather(h: Host, c: Cycle, ch: Changes, keystore: DeltaPlan<string>, pipelines: DeltaPlan<string>)
    returns (policy: Option<PolicyRes>, snmp: Option<SnmpRes>, ghost verdict: PolicyRes)
    requires h.Valid() && keystore != pipelines && c.fetch == Some(ch)
    modifies h`disk, h`base, h`journal, keystore, pipelines
    ensures h.Valid() && old(h.journal) <= h.journal
    ensures Judged(verdict, ch) && verdict.prep == Outcome(ch.runtime, c.prepare, old(h.disk))
    ensures Fetched(old(h.disk), h.disk, h.base, verdict.prep, ch)
    ensures policy == Counting(Some(verdict), c) && snmp == SnmpOf(c)
    ensures h.Pending(verdict.prep)
    ensures keystore.Value() ==
      Planned(Contributed(old(keystore.Value()), ch.keystore, verdict.aborted), SnmpKeys(c), ch.raises)
    ensures pipelines.Value() ==
      Planned(Contributed(old(pipelines.Value()), ch.pipelines, verdict.aborted), SnmpPipelines(c), ch.raises)
  {
    policy, snmp := None, None;
    var fetched, judged := GetConfigChanges(h, ch, c.prepare, keystore, pipelines);
    verdict := judged;
    if fetched.Some? && (c.policyDirty || fetched.value.filesUpdated || c.runtimeDirty) {
      policy := fetched;
    }
    if fetched.Some? && c.snmp.Some? {
      var res := ApplySnmpChanges(c.snmp.value, keystore, pipelines);
      snmp := Some(res);
    }
  }

  /**
  How far a check-in has come: tally and disk after its recovery, disk and snapshot base after
  its fetch, and the verdict on the policy.
  */
  datatype Progress = Progress(recovered: Tally, disk: Disk, fetched: Disk, base: Base, judged: Option<PolicyRes>)

  /** The deltas that a check-in applies: those of both channels, merged, without deletes of names being set. */
  function KeystorePlan(c: Cycle, judged: Option<PolicyRes>): Delta<string> {
    Filtered(Merged(KeySources(c, Aborted(judged))))
  }

  function PipelinePlan(c: Cycle, judged: Option<PolicyRes>): Delta<string> {
    Filtered(Merged(PipelineSources(c, Aborted(judged))))
  }

  /** A prepared change that the merged apply gets to see. */
  predicate Arrives(c: Cycle, judged: Option<PolicyRes>) {
    PrepOf(judged).Changed? && c.fetch.Some? && !c.fetch.value.raises
  }

  /**
  One check-in: recover first, then fetch, then apply the merged plan once. A prepared upgrade
  reaches the apply unless the fetch raised, and is resolved there exactly once.
  */
  method CheckIn(h: Host, c: Cycle) returns (ghost p: Progress)
    requires h.Valid()
    modifies h`disk, h`base, h`journal, h`tally
    ensures h.Valid() && old(h.journal) <= h.journal
    ensures p.recovered == old(h.tally).(rollbacks := p.recovered.rollbacks, restarts := p.recovered.restarts)
    ensures old(h.tally).rollbacks <= p.recovered.rollbacks <= old(h.tally).rollbacks + 1
    ensures p.disk.state == old(h.disk).state
    ensures p.disk.snap == None || p.disk.snap == old(h.disk).snap
    ensures Undoable(old(h.disk)) && !c.recover.restartOk ==> p.disk.snap == old(h.disk).snap
    ensures Applied(c, p, h.disk, h.tally)
  {
    var _ := h.Recover(c.recover);
    p := FetchAndApply(h, c);
  }

  /** What a check-in achieves from `p` on: the verdict, the one merged apply, and one resolution of what was prepared. */
  ghost predicate Applied(c: Cycle, p: Progress, d: Disk, t: Tally) {
    && (p.judged.Some? <==> c.fetch.Some?)
    && (p.judged.Some? ==>
          && Judged(p.judged.value, c.fetch.value)
          && p.judged.value.prep == Outcome(c.fetch.value.runtime, c.prepare, p.disk)
          && Fetched(p.disk, p.fetched, p.base, p.judged.value.prep, c.fetch.value))
    && (p.judged.None? ==> p.fetched == p.disk)
    && var ks, pl, policy := KeystorePlan(c, p.judged), PipelinePlan(c, p.judged), Counting(p.judged, c);
    && MergedTally(p.recovered, t, ks, pl, policy, c.apply)
    && MergedState(p.fetched, d, p.base, ks, pl, policy, SnmpOf(c), c.apply)
    && t.commits + t.rollbacks == p.recovered.commits + p.recovered.rollbacks + if Arrives(c, p.judged) then 1 else 0
  }

  /**
  A check-in whose upgrade is rolled back: once the snapshot is gone, env file and captured
  settings are those of before the fetch. Agent state is not: it keeps the new keystore password
  and the hashes of the writes that succeeded, and nothing else that is new.
  */
  lemma RolledBackCheckIn(c: Cycle, p: Progress, d: Disk, t: Tally)
    requires Applied(c, p, d, t) && Arrives(c, p.judged)
    requires RolledBack(KeystorePlan(c, p.judged), PipelinePlan(c, p.judged), p.judged, c.apply)
    ensures d.state == WrittenState(FetchedState(p.disk.state, p.judged.value.prep, c.fetch.value),
                                    KeystorePlan(c, p.judged), PipelinePlan(c, p.judged), p.judged.value.aborted, c.apply)
    ensures Cooperates(c.apply.undo) ==> d.snap.None?
    ensures d.snap.None? ==> d.env == p.disk.env
    ensures d.snap.None? ==> BackAsBefore(d.settings, p.disk.settings)
  {
    assert Counting(p.judged, c) == p.judged;
    RestoreBringsBack(d.settings, p.disk.settings);
  }

  method FetchAndApply(h: Host, c: Cycle) returns (ghost p: Progress)
    requires h.Valid()
    modifies h`disk, h`base, h`journal, h`tally
    ensures h.Valid() && old(h.journal) <= h.journal
    ensures p.recovered == old(h.tally) && p.disk == old(h.disk)
    ensures Applied(c, p, h.disk, h.tally)
  {
    var keystore := new DeltaPlan<string>();
    var pipelines := new DeltaPlan<string>();
    var policy, snmp, judged := Fetch(h, c, keystore, pipelines);
    p := Progress(old(h.tally), old(h.disk), h.disk, h.base, judged);
    assert Arrives(c, judged) <==> PrepOf(policy).Changed?;
    ApplyMergedPlan(h, keystore, pipelines, policy, snmp, c.apply);
    ResolvedOnce(p.recovered, h.tally, keystore.Value(), pipelines.Value(), policy, c.apply);
  }

  /**
  An abort that does not reach the merged apply: the verdict counts only if the check-in flagged
  the policy or its runtime, or if files were written before the failure. So an aborted rollout
  writes no key and no pipeline if and only if its verdict counts or SNMP brings nothing; else
  the SNMP changes are applied, recorded and perhaps restarted for.
  */
  lemma AbortedFetchWritesNothingExactlyWhen(c: Cycle, p: Progress, d: Disk, t: Tally)
    requires Applied(c, p, d, t) && Aborted(p.judged)
    ensures var ch, prep := c.fetch.value, p.judged.value.prep;
      var counts := !ch.raises && (c.policyDirty || c.runtimeDirty || WroteFiles(prep, ch));
      && (t.keystoreWrites == p.recovered.keystoreWrites && t.pipelineWrites == p.recovered.pipelineWrites <==>
            counts || (!HasWork(KeystorePlan(c, p.judged)) && !HasWork(PipelinePlan(c, p.judged))))
      && (counts ==> t == p.recovered.(rollbacks := t.rollbacks) && d.state == p.fetched.state)
      && (!counts && KeystorePlan(c, p.judged).sets != map[] && c.apply.keystoreOk && c.apply.pipelinesOk ==>
            t.restarts == p.recovered.restarts + 1)
  {
  }

  /** All that an aborted rollout leaves in the plan comes from SNMP. */
  lemma AbortedPlanIsSnmp(c: Cycle, judged: Option<PolicyRes>)
    requires Aborted(judged) && c.fetch.Some?
    ensures KeySources(c, true) == if c.snmp.Some? && !c.fetch.value.raises then [c.snmp.value.keystore] else []
    ensures PipelineSources(c, true) == if c.snmp.Some? && !c.fetch.value.raises then [c.snmp.value.pipelines] else []
  {
  }

  /**
  A check-in goes on after a recovery that failed, here for want of a restart. Whatever it then
  applies, and whatever revision it records, the next recovery puts back every captured file and
  directory of the old snapshot; the revision stays.
  */
  method RevisionIsLost(h: Host, c: Cycle) returns (ghost p: Progress)
    requires h.Valid() && Undoable(h.disk) && !c.recover.restartOk
    modifies h`disk, h`base, h`journal, h`tally
    ensures h.Valid() && h.disk.snap == None
    ensures h.disk.state.revision ==
      if Advances(KeystorePlan(c, p.judged), PipelinePlan(c, p.judged), Counting(p.judged, c), c.apply)
      then Counting(p.judged, c).value.revision.value else old(h.disk).state.revision
    ensures BackAsBefore(h.disk.settings, old(h.disk).snap.value.settings)
  {
    p := CheckIn(h, c);
    StaleSnapshotStays(c, p, h.disk, h.tally);
    RestoreBringsBack(h.disk.settings, h.base.settings);
    var _ := h.Recover(UndoAnswers(RESTORE_STEPS, Torn([], [], []), true, true));
  }

  lemma StaleSnapshotStays(c: Cycle, p: Progress, d: Disk, t: Tally)
    requires Applied(c, p, d, t) && p.disk.snap.Some?
    ensures d.snap == p.disk.snap && d.state.pin == p.disk.state.pin
    ensures d.state.revision ==
      if Advances(KeystorePlan(c, p.judged), PipelinePlan(c, p.judged), Counting(p.judged, c), c.apply)
      then Counting(p.judged, c).value.revision.value else p.disk.state.revision
  {
    var ks, pl, policy := KeystorePlan(c, p.judged), PipelinePlan(c, p.judged), Counting(p.judged, c);
    assert !PrepOf(policy).Changed?;
    UnchangedKeepsPin(p.fetched, d, p.base, ks, pl, policy, SnmpOf(c), c.apply);
  }

  /** Without a changed upgrade the merged apply leaves snapshot and pin alone. */
  lemma UnchangedKeepsPin(d: Disk, e: Disk, b: Base, ks: Delta<string>, pl: Delta<string>,
                          policy: Option<PolicyRes>, snmp: Option<SnmpRes>, a: ApplyAnswers)
    requires MergedState(d, e, b, ks, pl, policy, snmp, a) && !PrepOf(policy).Changed?
    ensures e.snap == d.snap && e.state.pin == d.state.pin
    ensures e.state.revision == if Advances(ks, pl, policy, a) then policy.value.revision.value else d.state.revision
  {
  }

  // ----- whole runs -----

  /** The start of the agent: recover, then perhaps repair LS_JVM_OPTS of an older installation. */
  method StartUp(h: Host, recover: UndoAnswers, repair: bool, jvmPath: string, cuts: seq<(nat, nat)>)
    returns (ghost recovered: Disk)
    requires h.Valid()
    modifies h`disk, h`base, h`journal, h`tally
    ensures h.Valid() && old(h.journal) <= h.journal
    ensures h.disk == recovered.(env := h.disk.env) && h.disk.state == old(h.disk).state
    ensures BinaryOf(h.disk.env) == BinaryOf(recovered.env)
    ensures repair ==>
      EnvFile.Edited(LinesOf(recovered.env), LinesOf(h.disk.env), "LS_JVM_OPTS",
                     if JvmOptions in h.disk.settings.files then Some(jvmPath) else None)
  {
    var _ := h.Recover(recover);
    recovered := h.disk;
    if repair {
      h.EnsureJvmOpts(jvmPath, cuts);
    }
  }

  /** What the agent process does next. */
  datatype Work = Start(recover: UndoAnswers, repair: bool, jvmPath: string, cuts: seq<(nat, nat)>) | Poll(cycle: Cycle)

  /** Work that completes, or dies `crash` writes after it began. */
  datatype Turn = Turn(work: Work, crash: Option<nat>)

  /** `m` is a death inside an edit that had not written the binary, and that no recovery undoes. */
  ghost predicate Fatal(m: Moment) {
    && m.edit.Some? && !KeepsBinary(m.edit.value)
    && !Undoable(m.disk) && !Consistent(Recovered(m.disk))
  }

  method DoWork(h: Host, work: Work)
    requires h.Valid()
    modifies h`disk, h`base, h`journal, h`tally
    ensures h.Valid() && old(h.journal) <= h.journal
  {
    match work {
      case Start(recover, repair, jvmPath, cuts) =>
        ghost var _ := StartUp(h, recover, repair, jvmPath, cuts);
      case Poll(cycle) =>
        ghost var _ := CheckIn(h, cycle);
    }
  }

  /** The process dies at moment `k`. The host goes on from there, if the moment is a safe one. */
  method Die(h: Host, k: nat) returns (died: Option<Moment>)
    requires h.Valid() && k < |h.journal|
    modifies h`disk, h`base, h`journal
    ensures h.Valid() && (died.None? ==> h.journal == old(h.journal)[..k + 1])
    ensures died.Some? ==> h.journal == old(h.journal) && died.value == h.journal[k] && Fatal(died.value)
  {
    var m := h.journal[k];
    if !Safe(m.disk, m.base) {
      SafeExactlyWhen(m);
      DeathInEditIsFinal(m);
      return Some(m);
    }
    h.Crash(k);
    return None;
  }

  /**
  Any run of starts and check-ins, each possibly cut by a crash after any single write. At every
  durable moment without an upgrade to undo, the unit launches the recorded binary, unless the
  moment lies inside an in-place edit of the env file that has not written the binary yet; then
  it does not. The run is followed until a death at such a moment.
  */
  method Run(h: Host, turns: seq<Turn>) returns (died: Option<Moment>)
    requires h.Valid()
    modifies h`disk, h`base, h`journal, h`tally
    ensures h.Valid() && old(h.journal) <= h.journal
    ensures forall i | 0 <= i < |h.journal| && !Undoable(h.journal[i].disk) ::
      Consistent(h.journal[i].disk) <==> (h.journal[i].edit.Some? ==> KeepsBinary(h.journal[i].edit.value))
    ensures died.Some? ==> died.value in h.journal && Fatal(died.value)
    ensures !Undoable(h.disk) ==> Consistent(h.disk)
  {
    died := None;
    for i := 0 to |turns|
      invariant h.Valid() && old(h.journal) <= h.journal && died == None
    {
      var begun := |h.journal|;
      DoWork(h, turns[i].work);
      if turns[i].crash.Some? && begun - 1 + turns[i].crash.value < |h.journal| {
        died := Die(h, begun - 1 + turns[i].crash.value);
        if died.Some? {
          break;
        }
      }
    }
    AllExactlyWhen(h.journal);
  }

  lemma AllExactlyWhen(j: seq<Moment>)
    requires SoundJournal(j)
    ensures forall i | 0 <= i < |j| && !Undoable(j[i].disk) ::
      Consistent(j[i].disk) <==> (j[i].edit.Some? ==> KeepsBinary(j[i].edit.value))
  {
    forall i | 0 <= i < |j| && !Undoable(j[i].disk)
      ensures Consistent(j[i].disk) <==> (j[i].edit.Some? ==> KeepsBinary(j[i].edit.value))
    {
      SafeExactlyWhen(j[i]);
    }
  }

  /** After any run that did not die in such an edit, one undisturbed recovery makes unit and agent agree again. */
  method RunThenRecover(h: Host, turns: seq<Turn>) returns (died: Option<Moment>)
    requires h.Valid()
    modifies h`disk, h`base, h`journal, h`tally
    ensures h.Valid()
    ensures died.None? ==> h.disk.snap.None? && Consistent(h.disk)
  {
    died := Run(h, turns);
    if died.None? {
      var _ := h.Recover(UndoAnswers(RESTORE_STEPS, Torn([], [], []), true, true));
    }
  }
}
