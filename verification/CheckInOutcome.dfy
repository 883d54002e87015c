/**
What a check-in means to whoever changes a policy: which of the things that were sent make
Logstash restart, when the revision is recorded, and what files, keys and hashes are left.
*/
module CheckInOutcome {
  import opened Options
  import opened RuntimeDisk
  import opened RuntimeUpgrade
  import opened DeltaMerge
  import opened MergedApply
  import EnvFile

  // ----- what was sent -----

  /** No configuration file failed to be written, and no password change failed. */
  ghost predicate NothingFails(ch: Changes) {
    !ch.yml.WriteFailed? && !ch.jvm.WriteFailed? && !ch.log4j.WriteFailed? && !ch.password.PasswordFailed?
  }

  /** A configuration file was written, or a keystore password applied. */
  ghost predicate FileOrPassword(ch: Changes) {
    ch.yml.Written? || ch.jvm.Written? || ch.log4j.Written? || ch.password.PasswordApplied?
  }

  /** The policy or SNMP sets the key, or deletes it; the policy only if its rollout did not abort. */
  ghost predicate SetsKey(c: Cycle, aborted: bool, n: string) {
    && c.fetch.Some?
    && (|| (!aborted && c.fetch.value.keystore.Some? && n in c.fetch.value.keystore.value.sets)
        || (!c.fetch.value.raises && c.snmp.Some? && n in c.snmp.value.keystore.sets))
  }

  ghost predicate DeletesKey(c: Cycle, aborted: bool, n: string) {
    && c.fetch.Some?
    && (|| (!aborted && c.fetch.value.keystore.Some? && n in c.fetch.value.keystore.value.deletes)
        || (!c.fetch.value.raises && c.snmp.Some? && n in c.snmp.value.keystore.deletes))
  }

  ghost predicate SetsPipeline(c: Cycle, aborted: bool, n: string) {
    && c.fetch.Some?
    && (|| (!aborted && c.fetch.value.pipelines.Some? && n in c.fetch.value.pipelines.value.sets)
        || (!c.fetch.value.raises && c.snmp.Some? && n in c.snmp.value.pipelines.sets))
  }

  ghost predicate DeletesPipeline(c: Cycle, aborted: bool, n: string) {
    && c.fetch.Some?
    && (|| (!aborted && c.fetch.value.pipelines.Some? && n in c.fetch.value.pipelines.value.deletes)
        || (!c.fetch.value.raises && c.snmp.Some? && n in c.snmp.value.pipelines.deletes))
  }

  ghost predicate KeysTouched(c: Cycle, aborted: bool) {
    exists n :: SetsKey(c, aborted, n) || DeletesKey(c, aborted, n)
  }

  ghost predicate PipelinesTouched(c: Cycle, aborted: bool) {
    exists n :: SetsPipeline(c, aborted, n) || DeletesPipeline(c, aborted, n)
  }

  /** Every write that has something to do succeeds. */
  ghost predicate WritesSucceed(c: Cycle) {
    (KeysTouched(c, false) ==> c.apply.keystoreOk) && (PipelinesTouched(c, false) ==> c.apply.pipelinesOk)
  }

  // ----- the plan -----

  /** The value that a name is set to: SNMP wins over the policy. */
  ghost predicate SetTo(v: string, n: string, policy: Option<Delta<string>>, fromSnmp: bool, snmp: Option<Delta<string>>) {
    if fromSnmp && snmp.Some? && n in snmp.value.sets then v == snmp.value.sets[n]
    else policy.Some? && n in policy.value.sets && v == policy.value.sets[n]
  }

  lemma SourcesByName(policy: Option<Delta<string>>, snmp: Option<Delta<string>>, aborted: bool, raised: bool, n: string)
    ensures var m := Merged(Sources(policy, snmp, aborted, raised));
      && (n in m.sets <==> (!aborted && policy.Some? && n in policy.value.sets) || (!raised && snmp.Some? && n in snmp.value.sets))
      && (n in m.sets ==> SetTo(m.sets[n], n, policy, !raised, snmp))
      && (n in m.deletes <==>
            (!aborted && policy.Some? && n in policy.value.deletes) || (!raised && snmp.Some? && n in snmp.value.deletes))
  {
    var ds := Sources(policy, snmp, aborted, raised);
    MergedByName(ds, n);
    if policy.Some? && !aborted {
      assert ds[0] == policy.value;
    }
    if snmp.Some? && !raised {
      assert ds[|ds| - 1] == snmp.value;
    }
  }

  lemma PlanByName(policy: Option<Delta<string>>, snmp: Option<Delta<string>>, aborted: bool, raised: bool, n: string)
    ensures var f := Filtered(Merged(Sources(policy, snmp, aborted, raised)));
      && (n in f.sets <==> (!aborted && policy.Some? && n in policy.value.sets) || (!raised && snmp.Some? && n in snmp.value.sets))
      && (n in f.sets ==> SetTo(f.sets[n], n, policy, !raised, snmp))
      && (n in f.deletes <==>
            (&& n !in f.sets
             && ((!aborted && policy.Some? && n in policy.value.deletes) || (!raised && snmp.Some? && n in snmp.value.deletes))))
  {
    var m := Merged(Sources(policy, snmp, aborted, raised));
    SourcesByName(policy, snmp, aborted, raised, n);
    WithoutMembers(m.deletes, m.sets);
  }

  /** Which keys a check-in sets, to what, and which it deletes: SNMP wins over the policy, setting over deleting. */
  lemma KeysByName(c: Cycle, judged: Option<PolicyRes>, n: string)
    requires judged.Some? <==> c.fetch.Some?
    ensures var ks, aborted := KeystorePlan(c, judged), judged.Some? && judged.value.aborted;
      && (n in ks.sets <==> SetsKey(c, aborted, n))
      && (n in ks.deletes <==> DeletesKey(c, aborted, n) && !SetsKey(c, aborted, n))
      && (n in ks.sets ==> SetTo(ks.sets[n], n, c.fetch.value.keystore, !c.fetch.value.raises, SnmpKeys(c)))
  {
    if c.fetch.Some? {
      PlanByName(c.fetch.value.keystore, SnmpKeys(c), judged.value.aborted, c.fetch.value.raises, n);
    } else {
      EmptyPlan(n);
    }
  }

  lemma PipelinesByName(c: Cycle, judged: Option<PolicyRes>, n: string)
    requires judged.Some? <==> c.fetch.Some?
    ensures var pl, aborted := PipelinePlan(c, judged), judged.Some? && judged.value.aborted;
      && (n in pl.sets <==> SetsPipeline(c, aborted, n))
      && (n in pl.deletes <==> DeletesPipeline(c, aborted, n) && !SetsPipeline(c, aborted, n))
      && (n in pl.sets ==> SetTo(pl.sets[n], n, c.fetch.value.pipelines, !c.fetch.value.raises, SnmpPipelines(c)))
  {
    if c.fetch.Some? {
      PlanByName(c.fetch.value.pipelines, SnmpPipelines(c), judged.value.aborted, c.fetch.value.raises, n);
    } else {
      EmptyPlan(n);
    }
  }

  lemma EmptyPlan(n: string)
    ensures n !in Filtered(Merged<string>([])).sets && n !in Filtered(Merged<string>([])).deletes
  {
    assert Merged<string>([]) == Delta(map[], []);
  }

  /** There is a write for the keystore exactly if some key is set or deleted. */
  lemma KeyWorkExactlyWhen(c: Cycle, judged: Option<PolicyRes>)
    requires judged.Some? <==> c.fetch.Some?
    ensures var aborted := judged.Some? && judged.value.aborted;
      && (KeystorePlan(c, judged).sets != map[] <==> exists n :: SetsKey(c, aborted, n))
      && (HasWork(KeystorePlan(c, judged)) <==> KeysTouched(c, aborted))
  {
    var ks, aborted := KeystorePlan(c, judged), judged.Some? && judged.value.aborted;
    if n :| n in ks.sets {
      KeysByName(c, judged, n);
    }
    if n :| SetsKey(c, aborted, n) {
      KeysByName(c, judged, n);
    }
    if ks.deletes != [] {
      KeysByName(c, judged, ks.deletes[0]);
    }
    if n :| SetsKey(c, aborted, n) || DeletesKey(c, aborted, n) {
      KeysByName(c, judged, n);
      assert n in ks.sets || n in ks.deletes;
    }
  }

  lemma PipelineWorkExactlyWhen(c: Cycle, judged: Option<PolicyRes>)
    requires judged.Some? <==> c.fetch.Some?
    ensures HasWork(PipelinePlan(c, judged)) <==> PipelinesTouched(c, judged.Some? && judged.value.aborted)
  {
    var pl, aborted := PipelinePlan(c, judged), judged.Some? && judged.value.aborted;
    if n :| n in pl.sets {
      PipelinesByName(c, judged, n);
    }
    if pl.deletes != [] {
      PipelinesByName(c, judged, pl.deletes[0]);
    }
    if n :| SetsPipeline(c, aborted, n) || DeletesPipeline(c, aborted, n) {
      PipelinesByName(c, judged, n);
      assert n in pl.sets || n in pl.deletes;
    }
  }

  // ----- restarts -----

  /**
  Without a runtime change, and if nothing fails, Logstash is restarted exactly once if a key is
  set, a configuration file was written or a keystore password applied, and not at all
  otherwise: not for pipelines, and not for deleted keys. An exception in the fetch loses the
  restart for files and password, not the one for keys.
  */
  lemma RestartsExactlyWhen(c: Cycle, p: Progress, d: Disk, t: Tally)
    requires Applied(c, p, d, t) && c.fetch.Some? && p.judged.value.prep.Unchanged?
    requires NothingFails(c.fetch.value) && WritesSucceed(c)
    ensures t.restarts == p.recovered.restarts +
      if (exists n :: SetsKey(c, false, n)) || (!c.fetch.value.raises && FileOrPassword(c.fetch.value)) then 1 else 0
  {
    KeyWorkExactlyWhen(c, p.judged);
    PipelineWorkExactlyWhen(c, p.judged);
  }

  /** In particular for a check-in in which only SNMP brings something. */
  lemma SnmpRestartsExactlyForKeys(c: Cycle, p: Progress, d: Disk, t: Tally)
    requires Applied(c, p, d, t) && c.fetch.Some? && p.judged.value.prep.Unchanged?
    requires NothingFails(c.fetch.value) && !FileOrPassword(c.fetch.value) && c.fetch.value.keystore.None?
    requires !c.fetch.value.raises && c.snmp.Some? && WritesSucceed(c)
    ensures t.restarts == p.recovered.restarts + if c.snmp.value.keystore.sets != map[] then 1 else 0
  {
    RestartsExactlyWhen(c, p, d, t);
    if n :| n in c.snmp.value.keystore.sets {
      assert SetsKey(c, false, n);
    }
    if n :| SetsKey(c, false, n) {
      assert n in c.snmp.value.keystore.sets;
    }
  }

  /** A check-in that fetches nothing does nothing after its recovery. */
  lemma NothingFetchedNothingDone(c: Cycle, p: Progress, d: Disk, t: Tally)
    requires Applied(c, p, d, t) && c.fetch.None?
    ensures t == p.recovered.(snmpWrites := t.snmpWrites) && d.state == p.disk.state && d.snap == p.disk.snap && d.env == p.disk.env
  {
    KeyWorkExactlyWhen(c, p.judged);
    PipelineWorkExactlyWhen(c, p.judged);
  }

  // ----- the revision -----

  /** The response changed something, or tried to. */
  ghost predicate Updates(prep: Prep, ch: Changes) {
    prep.Changed? || FileOrPassword(ch) || ch.keystore.Some? || ch.pipelines.Some?
  }

  /** And all of it worked: writes, the restart it needs, and a runtime change to its end. */
  ghost predicate AllWorked(c: Cycle, prep: Prep) {
    && c.fetch.Some? && !c.fetch.value.password.DecryptFailed?
    && WritesSucceed(c)
    && (prep.Changed? ==> prep.desired.binary != "" && c.apply.flipOk && c.apply.restartOk && c.apply.healthy)
    && (FileOrPassword(c.fetch.value) || (exists n :: SetsKey(c, false, n)) ==> c.apply.restartOk)
  }

  /** The revision is recorded: the policy counts, did not abort, and nothing failed if it did something. */
  ghost predicate Recording(c: Cycle, prep: Prep) {
    && c.fetch.Some? && !c.fetch.value.raises && c.fetch.value.revision.Some?
    && (prep.Unchanged? || prep.Changed?) && NothingFails(c.fetch.value)
    && (c.policyDirty || c.runtimeDirty || Updates(prep, c.fetch.value))
    && (Updates(prep, c.fetch.value) ==> AllWorked(c, prep))
  }

  /** What makes a policy fail, part by part. */
  lemma FailsExactlyWhen(ks: Delta<string>, pl: Delta<string>, policy: PolicyRes, a: ApplyAnswers)
    ensures Fails(ks, pl, policy, a) <==>
      (|| policy.failed
       || ((ks.sets != map[] || ks.deletes != []) && !a.keystoreOk)
       || ((pl.sets != map[] || pl.deletes != []) && !a.pipelinesOk)
       || ((ks.sets != map[] || policy.requiresRestart) && !a.restartOk)
       || (policy.prep.Changed? && !(policy.prep.desired.binary != "" && a.flipOk && a.restartOk && a.healthy)))
  {
  }

  /** The verdict on a response, and what it tells if the rollout did not abort. */
  lemma VerdictOf(res: PolicyRes, ch: Changes)
    requires Judged(res, ch)
    ensures res.aborted <==> !((res.prep.Unchanged? || res.prep.Changed?) && NothingFails(ch))
    ensures !res.aborted ==>
      && (res.requiresRestart <==> res.prep.Changed? || FileOrPassword(ch))
      && (res.filesUpdated <==> Updates(res.prep, ch))
      && (res.failed <==> ch.password.DecryptFailed?)
  {
  }

  lemma AdvancesOnVerdict(c: Cycle, judged: Option<PolicyRes>)
    requires judged.Some? && c.fetch.Some? && Judged(judged.value, c.fetch.value)
    ensures var ks, pl, res := KeystorePlan(c, judged), PipelinePlan(c, judged), judged.value;
      Advances(ks, pl, Counting(judged, c), c.apply) <==>
        (&& !c.fetch.value.raises && c.fetch.value.revision.Some? && !res.aborted
         && (c.policyDirty || c.runtimeDirty || res.filesUpdated)
         && (res.filesUpdated ==> !Fails(ks, pl, res, c.apply)))
  {
  }

  lemma WorkedExactlyWhen(c: Cycle, judged: Option<PolicyRes>)
    requires judged.Some? && c.fetch.Some? && Judged(judged.value, c.fetch.value) && !judged.value.aborted
    ensures !Fails(KeystorePlan(c, judged), PipelinePlan(c, judged), judged.value, c.apply) <==> AllWorked(c, judged.value.prep)
  {
    VerdictOf(judged.value, c.fetch.value);
    KeyWorkExactlyWhen(c, judged);
    PipelineWorkExactlyWhen(c, judged);
    FailsExactlyWhen(KeystorePlan(c, judged), PipelinePlan(c, judged), judged.value, c.apply);
  }

  lemma RecordingExactlyWhen(c: Cycle, judged: Option<PolicyRes>)
    requires judged.Some? && c.fetch.Some? && Judged(judged.value, c.fetch.value)
    ensures Advances(KeystorePlan(c, judged), PipelinePlan(c, judged), Counting(judged, c), c.apply) <==>
      Recording(c, judged.value.prep)
  {
    VerdictOf(judged.value, c.fetch.value);
    AdvancesOnVerdict(c, judged);
    if !judged.value.aborted {
      WorkedExactlyWhen(c, judged);
    }
  }

  /** Revision, pin and password after a check-in. */
  lemma RevisionIs(c: Cycle, p: Progress, d: Disk, t: Tally)
    requires Applied(c, p, d, t)
    ensures var ks, pl, policy := KeystorePlan(c, p.judged), PipelinePlan(c, p.judged), Counting(p.judged, c);
      && t.revisionWrites == p.recovered.revisionWrites + (if Advances(ks, pl, policy, c.apply) then 1 else 0)
      && d.state.revision == (if Advances(ks, pl, policy, c.apply) then policy.value.revision.value else p.fetched.state.revision)
      && d.state.pin == (if Kept(ks, pl, policy, c.apply) then PrepOf(policy).desired else p.fetched.state.pin)
      && d.state.password == p.fetched.state.password
  {
  }

  /**
  Exactly when the server's revision is recorded: the fetch brought one and did not raise, the
  runtime is there, no file and no password change failed, the policy was flagged or did
  something, and all that it did worked. A password that cannot be decrypted holds the revision
  back only if something else changed.
  */
  lemma RevisionAdvancesExactlyWhen(c: Cycle, p: Progress, d: Disk, t: Tally)
    requires Applied(c, p, d, t) && c.fetch.Some?
    ensures var recording := Recording(c, p.judged.value.prep);
      && t.revisionWrites == p.recovered.revisionWrites + (if recording then 1 else 0)
      && d.state.revision == (if recording then c.fetch.value.revision.value else p.disk.state.revision)
  {
    RecordingExactlyWhen(c, p.judged);
    RevisionIs(c, p, d, t);
  }

  /** What a prepare of a response with a runtime ends in. */
  lemma PrepareEndsIn(runtime: Runtime, a: PrepareAnswers, d: Disk)
    ensures var prep := Outcome(Some(runtime), a, d);
      && (prep.Unchanged? ==> a.resolved.Some? && d.state.pin == Pin(runtime.source, runtime.version, a.resolved.value))
      && (prep.Changed? ==> a.resolved.Some? && prep.desired == Pin(runtime.source, runtime.version, a.resolved.value))
      && (a.resolved == None ==> prep.Held? || prep.Failed?)
      && (runtime.source == "VERSION" && runtime.version != "" && (a.inflight || !a.treePresent) ==> prep.Held?)
  {
  }

  /** An upgrade that was prepared and whose revision is recorded is kept. */
  lemma RecordedIsKept(c: Cycle, judged: Option<PolicyRes>)
    requires judged.Some? && c.fetch.Some? && Judged(judged.value, c.fetch.value) && judged.value.prep.Changed?
    requires Advances(KeystorePlan(c, judged), PipelinePlan(c, judged), Counting(judged, c), c.apply)
    ensures Kept(KeystorePlan(c, judged), PipelinePlan(c, judged), Counting(judged, c), c.apply)
  {
  }

  /** A revision that asks for a runtime is recorded only once that runtime is. */
  lemma RevisionFollowsRuntime(c: Cycle, p: Progress, d: Disk, t: Tally)
    requires Applied(c, p, d, t) && c.fetch.Some? && c.fetch.value.runtime.Some?
    requires t.revisionWrites > p.recovered.revisionWrites
    ensures c.prepare.resolved.Some?
    ensures d.state.pin == Pin(c.fetch.value.runtime.value.source, c.fetch.value.runtime.value.version, c.prepare.resolved.value)
    ensures Some(d.state.revision) == c.fetch.value.revision
  {
    RevisionIs(c, p, d, t);
    RecordingExactlyWhen(c, p.judged);
    PrepareEndsIn(c.fetch.value.runtime.value, c.prepare, p.disk);
    if p.judged.value.prep.Changed? {
      RecordedIsKept(c, p.judged);
    }
  }

  /**
  A runtime that is not there leaves files, pin, password and revision as they were: a version
  that is not on disk yet or still being downloaded, or a binary that cannot be resolved.
  */
  lemma MissingRuntimeChangesNothing(c: Cycle, p: Progress, d: Disk, t: Tally)
    requires Applied(c, p, d, t) && c.fetch.Some? && c.fetch.value.runtime.Some?
    requires
      || c.prepare.resolved == None
      || (&& c.fetch.value.runtime.value.source == "VERSION" && c.fetch.value.runtime.value.version != ""
          && (c.prepare.inflight || !c.prepare.treePresent))
    ensures p.fetched.settings == p.disk.settings && p.fetched.env == p.disk.env
    ensures d.state.pin == p.disk.state.pin && d.state.revision == p.disk.state.revision
    ensures d.state.password == p.disk.state.password
    ensures t.commits == p.recovered.commits && t.flips == p.recovered.flips
  {
    RevisionIs(c, p, d, t);
    RecordingExactlyWhen(c, p.judged);
    PrepareEndsIn(c.fetch.value.runtime.value, c.prepare, p.disk);
  }

  // ----- aborted rollouts -----

  /** A configuration file was written before the first failure. */
  ghost predicate FileBeforeFailure(ch: Changes) {
    || ch.yml.Written?
    || (ch.yml.NotSent? && ch.jvm.Written?)
    || (ch.yml.NotSent? && ch.jvm.NotSent? && ch.log4j.Written?)
  }

  /** An abort is noticed by the merged apply: the check-in was flagged, or something was changed before. */
  ghost predicate IsNoticed(c: Cycle, prep: Prep) {
    && c.fetch.Some? && !c.fetch.value.raises
    && (c.policyDirty || c.runtimeDirty || prep.Changed? || (prep.Unchanged? && FileBeforeFailure(c.fetch.value)))
  }

  lemma NoticedExactlyWhen(c: Cycle, judged: Option<PolicyRes>)
    requires judged.Some? && c.fetch.Some? && Judged(judged.value, c.fetch.value) && judged.value.aborted
    ensures Counting(judged, c) == if IsNoticed(c, judged.value.prep) then judged else None
  {
  }

  /** What an apply that notices the abort leaves of the tally, and what one does that has only the deltas. */
  lemma AbortIsCounted(c: Cycle, p: Progress, d: Disk, t: Tally)
    requires Applied(c, p, d, t) && Aborted(p.judged)
    ensures Counting(p.judged, c).Some? ==> t == p.recovered.(rollbacks := t.rollbacks) && d.state == p.fetched.state
    ensures Counting(p.judged, c).None? ==>
      var ks, pl := KeystorePlan(c, p.judged), PipelinePlan(c, p.judged);
      && t.keystoreWrites == p.recovered.keystoreWrites + (if HasWork(ks) then 1 else 0)
      && t.pipelineWrites == p.recovered.pipelineWrites + (if HasWork(pl) then 1 else 0)
      && t.restarts == p.recovered.restarts + (if ks.sets != map[] && Clean(ks, pl, c.apply) then 1 else 0)
      && t.revisionWrites == p.recovered.revisionWrites && t.rollbacks == p.recovered.rollbacks
  {
  }

  /**
  An aborted rollout: the runtime is missing, or a file or the password failed. If the abort is
  noticed, nothing is written and nothing restarted. If it is not, the keys and pipelines that
  SNMP sent are written all the same, and restarted for; the revision is recorded in neither case.
  */
  lemma AbortedWritesExactlyWhen(c: Cycle, p: Progress, d: Disk, t: Tally)
    requires Applied(c, p, d, t) && c.fetch.Some?
    requires !(p.judged.value.prep.Unchanged? || p.judged.value.prep.Changed?) || !NothingFails(c.fetch.value)
    ensures var goesOn := !IsNoticed(c, p.judged.value.prep);
      && t.keystoreWrites == p.recovered.keystoreWrites + (if goesOn && KeysTouched(c, true) then 1 else 0)
      && t.pipelineWrites == p.recovered.pipelineWrites + (if goesOn && PipelinesTouched(c, true) then 1 else 0)
      && t.restarts == p.recovered.restarts +
           (if goesOn && (exists n :: SetsKey(c, true, n)) && c.apply.keystoreOk
               && (PipelinesTouched(c, true) ==> c.apply.pipelinesOk) then 1 else 0)
      && t.revisionWrites == p.recovered.revisionWrites
  {
    VerdictOf(p.judged.value, c.fetch.value);
    NoticedExactlyWhen(c, p.judged);
    AbortIsCounted(c, p, d, t);
    KeyWorkExactlyWhen(c, p.judged);
    PipelineWorkExactlyWhen(c, p.judged);
  }

  // ----- the runtime change -----

  /** The change gets as far as its restart: nothing failed before, and the unit was pointed at a new binary. */
  ghost predicate ReachesRestart(c: Cycle, prep: Prep) {
    && prep.Changed? && c.fetch.Some? && !c.fetch.value.raises
    && NothingFails(c.fetch.value) && WritesSucceed(c)
    && prep.desired.binary != "" && c.apply.flipOk
  }

  lemma KeptExactlyWhen(c: Cycle, judged: Option<PolicyRes>)
    requires judged.Some? && c.fetch.Some? && Judged(judged.value, c.fetch.value)
    ensures var ks, pl, policy := KeystorePlan(c, judged), PipelinePlan(c, judged), Counting(judged, c);
      var prep := judged.value.prep;
      && (Kept(ks, pl, policy, c.apply) <==> ReachesRestart(c, prep) && c.apply.restartOk && c.apply.healthy)
      && (RolledBack(ks, pl, policy, c.apply) <==>
            prep.Changed? && !c.fetch.value.raises && !(ReachesRestart(c, prep) && c.apply.restartOk && c.apply.healthy))
      && (PrepOf(policy).Changed? && Attempts(PrepOf(policy), Demands(ks, policy), Clean(ks, pl, c.apply), Aborted(policy), c.apply)
          <==> ReachesRestart(c, prep))
  {
    VerdictOf(judged.value, c.fetch.value);
    if !judged.value.aborted {
      KeyWorkExactlyWhen(c, judged);
      PipelineWorkExactlyWhen(c, judged);
    }
  }

  /** Tally and recorded runtime after a check-in, in terms of what became of the change. */
  lemma ChangeIsCounted(c: Cycle, p: Progress, d: Disk, t: Tally)
    requires Applied(c, p, d, t)
    ensures var ks, pl, policy := KeystorePlan(c, p.judged), PipelinePlan(c, p.judged), Counting(p.judged, c);
      var kept, attempts := Kept(ks, pl, policy, c.apply),
        Attempts(PrepOf(policy), Demands(ks, policy), Clean(ks, pl, c.apply), Aborted(policy), c.apply);
      && t.commits == p.recovered.commits + (if kept then 1 else 0)
      && t.rollbacks == p.recovered.rollbacks + (if RolledBack(ks, pl, policy, c.apply) then 1 else 0)
      && t.flips == p.recovered.flips + (if PrepOf(policy).Changed? && attempts then 1 else 0)
      && (attempts && kept ==> t.restarts == p.recovered.restarts + 1)
      && (!attempts ==> t.restarts == p.recovered.restarts)
      && d.registry == (if kept && c.apply.stampOk && p.fetched.registry.Some? then Some(PrepOf(policy).desired) else p.fetched.registry)
      && (kept ==> Consistent(d))
  {
  }

  /**
  What becomes of a prepared change. It is kept exactly if nothing failed, the unit got its new
  binary, and Logstash restarted and answers; else it is rolled back, without a restart if it
  did not get that far. Kept, it is recorded and launched, and stamped on a listed instance.
  */
  lemma ChangeEndsAs(c: Cycle, p: Progress, d: Disk, t: Tally)
    requires Applied(c, p, d, t) && c.fetch.Some? && p.judged.value.prep.Changed? && !c.fetch.value.raises
    ensures var prep := p.judged.value.prep;
      var kept := ReachesRestart(c, prep) && c.apply.restartOk && c.apply.healthy;
      && t.commits == p.recovered.commits + (if kept then 1 else 0)
      && t.rollbacks == p.recovered.rollbacks + (if kept then 0 else 1)
      && t.flips == p.recovered.flips + (if ReachesRestart(c, prep) then 1 else 0)
      && (kept ==>
            && t.restarts == p.recovered.restarts + 1
            && EnvFile.Lookup(LinesOf(d.env), "LOGSTASH_BINARY") == Some(prep.desired.binary))
      && (!ReachesRestart(c, prep) ==> t.restarts == p.recovered.restarts)
      && d.state.pin == (if kept then prep.desired else p.disk.state.pin)
      && d.registry == if kept && c.apply.stampOk && p.disk.registry.Some? then Some(prep.desired) else p.disk.registry
  {
    KeptExactlyWhen(c, p.judged);
    ChangeIsCounted(c, p, d, t);
    RevisionIs(c, p, d, t);
    assert PrepOf(Counting(p.judged, c)) == p.judged.value.prep by {
      VerdictOf(p.judged.value, c.fetch.value);
    }
  }

  // ----- files, password and hashes -----

  /** What becomes of one configuration file: the sent content, what a failed write left, or what was there. */
  ghost predicate FileIs(now: map<FileName, Content>, was: map<FileName, Content>, f: FileName, change: FileChange) {
    && (change.Written? ==> f in now && now[f] == change.content)
    && (change.WriteFailed? && change.left.Some? ==> f in now && now[f] == change.left.value)
    && (change.NotSent? || (change.WriteFailed? && change.left.None?) ==> SameFile(now, was, f))
  }

  ghost predicate SameFile(now: map<FileName, Content>, was: map<FileName, Content>, f: FileName) {
    (f in now <==> f in was) && (f in now ==> now[f] == was[f])
  }

  /**
  The settings a fetch leaves, file by file: nothing is written after the first failure, the
  keystore changes only with the password, and everything else stays.
  */
  lemma FetchLeavesFiles(d: Disk, e: Disk, b: Base, prep: Prep, ch: Changes, f: FileName)
    requires Fetched(d, e, b, prep, ch)
    ensures e.settings.dirs == d.settings.dirs
    ensures prep.Held? || prep.Failed? || f !in {LogstashYml, JvmOptions, Log4j2Properties, KeystoreFile} ==>
      SameFile(e.settings.files, d.settings.files, f)
    ensures prep.Unchanged? || prep.Changed? ==>
      var now, was := e.settings.files, d.settings.files;
      && FileIs(now, was, LogstashYml, ch.yml)
      && (if ch.yml.WriteFailed? then SameFile(now, was, JvmOptions) else FileIs(now, was, JvmOptions, ch.jvm))
      && (if ch.yml.WriteFailed? || ch.jvm.WriteFailed? then SameFile(now, was, Log4j2Properties)
          else FileIs(now, was, Log4j2Properties, ch.log4j))
  {
    var was := d.settings.files;
    var written := FilesAfter(was, ch);
    FilesAre(was, ch, f);
    if prep.Unchanged? || prep.Changed? {
      assert e.settings.files == FetchedFiles(was, ch);
      assert forall g | g != KeystoreFile :: SameFile(e.settings.files, written, g);
    }
  }

  lemma FilesAre(was: map<FileName, Content>, ch: Changes, f: FileName)
    ensures var now := FilesAfter(was, ch);
      && (f !in {LogstashYml, JvmOptions, Log4j2Properties} ==> SameFile(now, was, f))
      && FileIs(now, was, LogstashYml, ch.yml)
      && (if ch.yml.WriteFailed? then SameFile(now, was, JvmOptions) else FileIs(now, was, JvmOptions, ch.jvm))
      && (if ch.yml.WriteFailed? || ch.jvm.WriteFailed? then SameFile(now, was, Log4j2Properties)
          else FileIs(now, was, Log4j2Properties, ch.log4j))
  {
    var yml := FileAfter(was, LogstashYml, ch.yml);
    var jvm := FileAfter(yml, JvmOptions, ch.jvm);
    OneFileIs(was, LogstashYml, ch.yml);
    OneFileIs(yml, JvmOptions, ch.jvm);
    OneFileIs(jvm, Log4j2Properties, ch.log4j);
  }

  lemma OneFileIs(was: map<FileName, Content>, f: FileName, change: FileChange)
    ensures var now := FileAfter(was, f, change); FileIs(now, was, f, change) && forall g | g != f :: SameFile(now, was, g)
  {
  }

  /** Keystore file and recorded password after a fetch that got as far as the password. */
  lemma FetchLeavesPassword(d: Disk, e: Disk, b: Base, prep: Prep, ch: Changes)
    requires Fetched(d, e, b, prep, ch) && (prep.Unchanged? || prep.Changed?)
    requires !ch.yml.WriteFailed? && !ch.jvm.WriteFailed? && !ch.log4j.WriteFailed?
    ensures ch.password.PasswordApplied? ==>
      && e.state == d.state.(password := ch.password.pass, snmpKeystore := e.state.snmpKeystore)
      && e.state.snmpKeystore == if ch.password.wiped then map[] else d.state.snmpKeystore
    ensures !ch.password.PasswordApplied? ==> e.state == d.state
    ensures ch.password.NoPasswordChange? ==> SameFile(e.settings.files, d.settings.files, KeystoreFile)
    ensures !ch.password.NoPasswordChange? ==>
      match ch.password.left
      case AsItWas => SameFile(e.settings.files, d.settings.files, KeystoreFile)
      case Gone => KeystoreFile !in e.settings.files
      case Holding(content) => KeystoreFile in e.settings.files && e.settings.files[KeystoreFile] == content
  {
  }

  /** The write hashes of the merged apply survive everything after the writes. */
  lemma HashesOfApply(d: Disk, e: Disk, b: Base, ks: Delta<string>, pl: Delta<string>,
                      policy: Option<PolicyRes>, snmp: Option<SnmpRes>, a: ApplyAnswers)
    requires MergedState(d, e, b, ks, pl, policy, snmp, a) && !Aborted(policy)
    ensures e.state.keystore == if HasWork(ks) && a.keystoreOk then a.keystoreHashes else d.state.keystore
    ensures e.state.pipelines == if HasWork(pl) && a.pipelinesOk then a.pipelineHashes else d.state.pipelines
  {
    var st, rolledBack := ResolvedState(d.state, ks, pl, policy, a), RolledBack(ks, pl, policy, a);
    HashesStay(st, ks, pl, policy, snmp, rolledBack, a);
  }

  lemma HashesStay(st: AgentState, ks: Delta<string>, pl: Delta<string>, policy: Option<PolicyRes>, snmp: Option<SnmpRes>,
                   rolledBack: bool, a: ApplyAnswers)
    ensures var later := ConcludedState(st, ks, pl, policy, snmp, rolledBack, a);
      later.keystore == st.keystore && later.pipelines == st.pipelines
  {
  }

  /** The recorded hashes: those of a write that had something to do and succeeded, else the old ones. */
  lemma HashesAreOfWrites(c: Cycle, p: Progress, d: Disk, t: Tally)
    requires Applied(c, p, d, t) && c.fetch.Some? && NothingFails(c.fetch.value)
    requires p.judged.value.prep.Unchanged? || p.judged.value.prep.Changed?
    ensures d.state.keystore ==
      if KeysTouched(c, false) && c.apply.keystoreOk then c.apply.keystoreHashes else p.disk.state.keystore
    ensures d.state.pipelines ==
      if PipelinesTouched(c, false) && c.apply.pipelinesOk then c.apply.pipelineHashes else p.disk.state.pipelines
    ensures t.keystoreWrites == p.recovered.keystoreWrites + if KeysTouched(c, false) then 1 else 0
    ensures t.pipelineWrites == p.recovered.pipelineWrites + if PipelinesTouched(c, false) then 1 else 0
  {
    VerdictOf(p.judged.value, c.fetch.value);
    KeyWorkExactlyWhen(c, p.judged);
    PipelineWorkExactlyWhen(c, p.judged);
    HashesOfApply(p.fetched, d, p.base, KeystorePlan(c, p.judged), PipelinePlan(c, p.judged),
                  Counting(p.judged, c), SnmpOf(c), c.apply);
  }

  /** What becomes of a namespace entry: the sent value, nothing if it was only deleted, else what was there. */
  ghost predicate EntryIs(now: map<string, string>, was: map<string, string>, n: string, sent: Option<string>, deleted: bool) {
    if sent.Some? then n in now && now[n] == sent.value
    else if deleted then n !in now
    else (n in now <==> n in was) && (n in now ==> now[n] == was[n])
  }

  function ValueOf(m: map<string, string>, n: string): Option<string> {
    if n in m then Some(m[n]) else None
  }

  lemma NamespacesOf(st: AgentState, snmp: SnmpRes, n: string)
    ensures var later := SnmpAfter(st, snmp, true, true);
      && EntryIs(later.snmpPipelines, st.snmpPipelines, n, ValueOf(snmp.pipelineSet, n), n in snmp.pipelineDeletes)
      && EntryIs(later.snmpKeystore, st.snmpKeystore, n,
                 if n in snmp.keystoreSetNames then ValueOf(st.keystore, n) else None, n in snmp.keystoreDeletes)
  {
  }

  /** With writes that succeed and no runtime change, the SNMP namespaces take over what the writes recorded. */
  lemma NamespacesAfterApply(d: Disk, e: Disk, b: Base, ks: Delta<string>, pl: Delta<string>,
                             policy: Option<PolicyRes>, snmp: SnmpRes, a: ApplyAnswers)
    requires MergedState(d, e, b, ks, pl, policy, Some(snmp), a) && !Aborted(policy) && !PrepOf(policy).Changed?
    requires (HasWork(ks) ==> a.keystoreOk) && (HasWork(pl) ==> a.pipelinesOk)
    ensures var later := SnmpAfter(d.state.(keystore := e.state.keystore), snmp, true, true);
      e.state.snmpPipelines == later.snmpPipelines && e.state.snmpKeystore == later.snmpKeystore
  {
    HashesOfApply(d, e, b, ks, pl, policy, Some(snmp), a);
  }

  /**
  The SNMP namespaces after a check-in without a runtime change in which the writes succeed: a
  pipeline that SNMP set has the hash it sent, a key the hash that the keystore write recorded;
  what it deleted and did not set is gone; the rest stays.
  */
  lemma SnmpNamespacesByName(c: Cycle, p: Progress, d: Disk, t: Tally, n: string)
    requires Applied(c, p, d, t) && c.fetch.Some? && NothingFails(c.fetch.value) && p.judged.value.prep.Unchanged?
    requires !c.fetch.value.raises && c.snmp.Some? && WritesSucceed(c)
    ensures var sent := c.snmp.value.pipelines;
      EntryIs(d.state.snmpPipelines, p.disk.state.snmpPipelines, n, ValueOf(sent.sets, n), n in sent.deletes)
    ensures var sent := c.snmp.value.keystore;
      EntryIs(d.state.snmpKeystore, p.fetched.state.snmpKeystore, n,
              if n in sent.sets then ValueOf(d.state.keystore, n) else None, n in sent.deletes)
  {
    VerdictOf(p.judged.value, c.fetch.value);
    KeyWorkExactlyWhen(c, p.judged);
    PipelineWorkExactlyWhen(c, p.judged);
    NamespacesAfterApply(p.fetched, d, p.base, KeystorePlan(c, p.judged), PipelinePlan(c, p.judged),
                         Counting(p.judged, c), SnmpOf(c).value, c.apply);
    NamespacesOf(p.fetched.state.(keystore := d.state.keystore), SnmpOf(c).value, n);
  }
}
