/**
Pipeline reconciliation: applying a set/delete delta to conf.d, pipelines.yml and the recorded
pipeline state, the report built from them, and how repeated deltas of a diffing server behave.

`conf.d` is modelled by its `.conf` files, keyed by pipeline name.
*/
module PipelineReconcile {
  import opened Options
  import opened PipelineNames

  type Knobs = map<string, string>

  const DEFAULTS: Knobs := map[
    "pipeline_workers" := "1",
    "pipeline_batch_size" := "128",
    "pipeline_batch_delay" := "50",
    "queue_type" := "memory",
    "queue_max_bytes" := "1gb",
    "queue_checkpoint_writes" := "1024"]

  /** The six known settings, defaults where the server sent none. */
  function Normalized(k: Knobs): Knobs {
    map n | n in DEFAULTS :: if n in k then k[n] else DEFAULTS[n]
  }

  /** What the server sends for a pipeline. */
  datatype Data = Data(lscl: string, hash: string, settings: Knobs, noInput: bool, nonReloadable: bool)

  /** What the agent records about a pipeline. */
  datatype Stored = Stored(hash: string, settings: Knobs, noInput: bool, nonReloadable: bool, revision: Option<nat>)

  datatype YmlEntry = YmlEntry(id: string, name: string, settings: Knobs)

  type Files = map<string, string>
  type State = map<string, Stored>

  /** conf.d after the deletes. */
  function AfterDeletes(conf: Files, deletes: seq<string>): Files {
    conf - AsSet(deletes)
  }

  function AsSet(names: seq<string>): set<string> {
    set n | n in names
  }

  /** conf.d after one received pipeline: written, or removed when it has no input. */
  function AfterOne(conf: Files, name: string, d: Data, removeOk: bool): Files {
    if !d.noInput then conf[name := d.lscl]
    else if removeOk then conf - {name}
    else conf
  }

  /** conf.d after all received pipelines. */
  function AfterSets(conf: Files, sets: map<string, Data>, removeOk: bool): Files {
    map n | n in conf.Keys + sets.Keys && (n in sets && sets[n].noInput ==> n in conf && !removeOk) ::
      if n in sets && !sets[n].noInput then sets[n].lscl else conf[n]
  }

  /** The record of a pipeline that has a file: received values first, recorded ones otherwise. */
  function Record(name: string, sets: map<string, Data>, prev: State): Stored {
    var received := name in sets;
    var known := name in prev;
    var nonReloadable := if received then sets[name].nonReloadable else known && prev[name].nonReloadable;
    var current := if known && prev[name].revision.Some? then prev[name].revision.value else 0;
    Stored(
      if received then sets[name].hash else if known then prev[name].hash else "",
      Normalized(if received then sets[name].settings else if known then prev[name].settings else map[]),
      false,
      nonReloadable,
      if nonReloadable then Some(current + 1) else None)
  }

  function EntryFor(name: string, r: Stored): YmlEntry {
    YmlEntry(IdOf(name, r.revision), name, r.settings)
  }

  function NoInputRecord(d: Data): Stored {
    Stored(d.hash, d.settings, true, false, None)
  }

  /** The recorded state after an update: pipelines with a file, then received ones without input. */
  function StateAfter(files: set<string>, sets: map<string, Data>, prev: State): State {
    map n | n in files + sets.Keys && (n in files || sets[n].noInput) ::
      if n in files then Record(n, sets, prev)
      else NoInputRecord(sets[n])
  }

  /** conf.d after those received pipelines that are in `todo`. */
  function AfterSome(conf: Files, sets: map<string, Data>, todo: set<string>, removeOk: bool): Files
    requires todo <= sets.Keys
  {
    map n | n in conf.Keys + todo && (n in todo && sets[n].noInput ==> n in conf && !removeOk) ::
      if n in todo && !sets[n].noInput then sets[n].lscl else conf[n]
  }

  lemma AfterSomeStep(conf: Files, sets: map<string, Data>, todo: set<string>, name: string, removeOk: bool)
    requires name in todo && todo <= sets.Keys
    ensures AfterSome(AfterOne(conf, name, sets[name], removeOk), sets, todo - {name}, removeOk) ==
            AfterSome(conf, sets, todo, removeOk)
  {
  }

  lemma AfterSomeEnds(conf: Files, sets: map<string, Data>, removeOk: bool)
    ensures AfterSome(conf, sets, {}, removeOk) == conf
    ensures AfterSome(conf, sets, sets.Keys, removeOk) == AfterSets(conf, sets, removeOk)
  {
  }

  /** The records of pipelines that have a file. */
  function RecordsOf(files: set<string>, sets: map<string, Data>, prev: State): State {
    map n | n in files :: Record(n, sets, prev)
  }

  /** The records, and those received pipelines in `todo` that have neither input nor record. */
  function WithNoInput(records: State, sets: map<string, Data>, todo: set<string>): State
    requires todo <= sets.Keys
  {
    map n | n in records.Keys + todo && (n in records || sets[n].noInput) ::
      if n in records then records[n] else NoInputRecord(sets[n])
  }

  lemma WithNoInputStep(records: State, sets: map<string, Data>, todo: set<string>, name: string)
    requires name in todo && todo <= sets.Keys
    ensures WithNoInput(if sets[name].noInput && name !in records then records[name := NoInputRecord(sets[name])] else records,
                        sets, todo - {name}) == WithNoInput(records, sets, todo)
  {
  }

  lemma WithNoInputEnds(files: set<string>, sets: map<string, Data>, prev: State, records: State)
    ensures WithNoInput(records, sets, {}) == records
    ensures WithNoInput(RecordsOf(files, sets, prev), sets, sets.Keys) == StateAfter(files, sets, prev)
  {
  }

  function EntriesOf(files: seq<string>, sets: map<string, Data>, prev: State): seq<YmlEntry> {
    if files == [] then []
    else
      var name := files[|files| - 1];
      EntriesOf(files[..|files| - 1], sets, prev) + [EntryFor(name, Record(name, sets, prev))]
  }

  function RecordsInOrder(files: seq<string>, sets: map<string, Data>, prev: State): State {
    if files == [] then map[]
    else
      var name := files[|files| - 1];
      RecordsInOrder(files[..|files| - 1], sets, prev)[name := Record(name, sets, prev)]
  }

  lemma {:induction false} RecordsInOrderAre(files: seq<string>, s: set<string>, sets: map<string, Data>, prev: State)
    requires forall n :: n in files <==> n in s
    ensures RecordsInOrder(files, sets, prev) == RecordsOf(s, sets, prev)
    decreases |files|
  {
    if files == [] {
      assert s == {};
    } else {
      var init, name := files[..|files| - 1], files[|files| - 1];
      var t := set n | n in init;
      RecordsInOrderAre(init, t, sets, prev);
      RecordsStep(t, name, sets, prev);
      assert files == init + [name];
      assert s == t + {name};
    }
  }

  lemma RecordsStep(files: set<string>, name: string, sets: map<string, Data>, prev: State)
    ensures RecordsOf(files + {name}, sets, prev) == RecordsOf(files, sets, prev)[name := Record(name, sets, prev)]
  {
  }

  /** pipelines.yml lists the files in order, each with the entry of its record. */
  lemma {:induction false} EntriesAre(files: seq<string>, sets: map<string, Data>, prev: State)
    ensures NamesOf(EntriesOf(files, sets, prev)) == files
    ensures forall e | e in EntriesOf(files, sets, prev) :: e == EntryFor(e.name, Record(e.name, sets, prev))
  {
    if files != [] {
      EntriesAre(files[..|files| - 1], sets, prev);
      var es, init := EntriesOf(files, sets, prev), EntriesOf(files[..|files| - 1], sets, prev);
      assert forall i | 0 <= i < |init| :: NamesOf(es)[i] == NamesOf(init)[i];
    }
  }

  // ----- what an update leaves -----

  /** A setting has the value that was sent, or else its default. */
  ghost predicate SettingIs(now: Knobs, sent: Knobs, n: string, default: string) {
    n in now && now[n] == if n in sent then sent[n] else default
  }

  /** The six settings, and no other. */
  ghost predicate SettingsAre(now: Knobs, sent: Knobs) {
    && SettingIs(now, sent, "pipeline_workers", "1")
    && SettingIs(now, sent, "pipeline_batch_size", "128")
    && SettingIs(now, sent, "pipeline_batch_delay", "50")
    && SettingIs(now, sent, "queue_type", "memory")
    && SettingIs(now, sent, "queue_max_bytes", "1gb")
    && SettingIs(now, sent, "queue_checkpoint_writes", "1024")
    && |now| == 6
  }

  /** A received pipeline with input holds what was received; without, its file goes if it can be removed; deleted ones go. */
  ghost predicate FileLeft(now: Files, was: Files, n: string, sets: map<string, Data>, deletes: set<string>, removeOk: bool) {
    if n in sets && !sets[n].noInput then n in now && now[n] == sets[n].lscl
    else if n in deletes || (n in sets && removeOk) then n !in now
    else (n in now <==> n in was) && (n in now ==> now[n] == was[n])
  }

  /** The record of a pipeline with a file: as received, else as recorded, else empty. */
  ghost predicate RecordLeft(now: Stored, n: string, sets: map<string, Data>, was: State) {
    && (n in sets ==>
          && now.hash == sets[n].hash && now.nonReloadable == sets[n].nonReloadable
          && SettingsAre(now.settings, sets[n].settings))
    && (n !in sets && n in was ==>
          && now.hash == was[n].hash && now.nonReloadable == was[n].nonReloadable
          && SettingsAre(now.settings, was[n].settings))
    && (n !in sets && n !in was ==> now.hash == "" && !now.nonReloadable && SettingsAre(now.settings, map[]))
    && !now.noInput
    && (!now.nonReloadable ==> now.revision == None)
    && (now.nonReloadable ==>
          now.revision == Some(if n in was && was[n].revision.Some? then was[n].revision.value + 1 else 1))
  }

  /** The recorded state: every file, and every received pipeline without input, as it was sent. */
  ghost predicate StateLeft(now: State, conf: Files, sets: map<string, Data>, was: State) {
    && (forall n :: n in now <==> n in conf || (n in sets && sets[n].noInput))
    && (forall n | n in conf :: RecordLeft(now[n], n, sets, was))
    && (forall n | n in now && n !in conf :: now[n] == Stored(sets[n].hash, sets[n].settings, true, false, None))
  }

  /** pipelines.yml: the files in order, with the settings recorded for them, and a revision in the id if there is one. */
  ghost predicate YmlLeft(yml: seq<YmlEntry>, conf: Files, state: State) {
    && FileListing(NamesOf(yml), conf.Keys)
    && forall e | e in yml ::
         && e.name in state && e.settings == state[e.name].settings
         && e.id == match state[e.name].revision { case None => e.name case Some(r) => e.name + "-" + Decimal(r) }
  }

  lemma SettingsAreNormalized(sent: Knobs)
    ensures SettingsAre(Normalized(sent), sent)
  {
    var now := Normalized(sent);
    var names := {"pipeline_workers", "pipeline_batch_size", "pipeline_batch_delay",
                  "queue_type", "queue_max_bytes", "queue_checkpoint_writes"};
    assert now.Keys == names && |names| == 6;
    assert |now| == |now.Keys|;
  }

  lemma FilesLeft(was: Files, sets: map<string, Data>, deletes: set<string>, removeOk: bool)
    ensures forall n :: FileLeft(AfterSets(was - deletes, sets, removeOk), was, n, sets, deletes, removeOk)
  {
  }

  lemma RecordIsLeft(n: string, sets: map<string, Data>, was: State)
    ensures RecordLeft(Record(n, sets, was), n, sets, was)
  {
    SettingsAreNormalized(if n in sets then sets[n].settings else if n in was then was[n].settings else map[]);
  }

  lemma StateIsLeft(conf: Files, sets: map<string, Data>, was: State)
    ensures StateLeft(StateAfter(conf.Keys, sets, was), conf, sets, was)
  {
    forall n | n in conf
      ensures RecordLeft(StateAfter(conf.Keys, sets, was)[n], n, sets, was)
    {
      RecordIsLeft(n, sets, was);
    }
  }

  lemma YmlIsLeft(yml: seq<YmlEntry>, conf: Files, sets: map<string, Data>, was: State)
    requires FileListing(NamesOf(yml), conf.Keys) && yml == EntriesOf(NamesOf(yml), sets, was)
    ensures YmlLeft(yml, conf, StateAfter(conf.Keys, sets, was))
  {
    EntriesAre(NamesOf(yml), sets, was);
    forall e | e in yml
      ensures e.name in conf
    {
      var i :| 0 <= i < |yml| && yml[i] == e;
      assert NamesOf(yml)[i] == e.name;
    }
  }

  class Pipelines {
    var conf: Files
    var yml: seq<YmlEntry>
    var state: State

    constructor (conf: Files, yml: seq<YmlEntry>, state: State)
      ensures this.conf == conf && this.yml == yml && this.state == state
    {
      this.conf, this.yml, this.state := conf, yml, state;
    }

    /** The deletes of an update; `left` removals succeed. */
    method Delete(deletes: seq<string>, budget: nat) returns (ok: bool, left: nat)
      modifies this`conf
      ensures ok ==> conf == AfterDeletes(old(conf), deletes)
      ensures budget >= |deletes| ==> ok && left >= budget - |deletes|
    {
      left := budget;
      assert AfterDeletes(conf, deletes[..0]) == conf;
      for i := 0 to |deletes|
        invariant conf == AfterDeletes(old(conf), deletes[..i])
        invariant left + i >= budget
      {
        assert deletes[..i + 1] == deletes[..i] + [deletes[i]];
        if deletes[i] in conf {
          if left == 0 {
            return false, left;
          }
          left := left - 1;
          conf := conf - {deletes[i]};
        }
        assert conf == AfterDeletes(old(conf), deletes[..i + 1]);
      }
      assert deletes[..|deletes|] == deletes;
      return true, left;
    }

    /** The received pipelines; `left` writes succeed, and removals of `no_input` files succeed or not. */
    method Write(sets: map<string, Data>, budget: nat, removeOk: bool) returns (ok: bool, left: nat)
      modifies this`conf
      ensures ok ==> conf == AfterSets(old(conf), sets, removeOk)
      ensures budget >= |sets| ==> ok && left >= budget - |sets|
    {
      left := budget;
      var todo := sets.Keys;
      AfterSomeEnds(conf, sets, removeOk);
      while todo != {}
        invariant todo <= sets.Keys && left + |sets| >= budget + |todo|
        invariant AfterSome(conf, sets, todo, removeOk) == AfterSets(old(conf), sets, removeOk)
        decreases |todo|
      {
        var name :| name in todo;
        AfterSomeStep(conf, sets, todo, name, removeOk);
        if !sets[name].noInput {
          if left == 0 {
            return false, left;
          }
          left := left - 1;
        }
        conf := AfterOne(conf, name, sets[name], removeOk);
        todo := todo - {name};
      }
      AfterSomeEnds(conf, sets, removeOk);
      return true, left;
    }

    /**
    `update_pipelines`. `budget` disk operations succeed before one fails; the agent state is
    written last.
    */
    method UpdatePipelines(sets: map<string, Data>, deletes: seq<string>, budget: nat, removeOk: bool)
      returns (ok: bool)
      modifies this
      ensures sets == map[] && deletes == [] ==> !ok && conf == old(conf)
      ensures !ok ==> yml == old(yml) && state == old(state)
      ensures ok ==>
        && conf == AfterSets(AfterDeletes(old(conf), deletes), sets, removeOk)
        && state == StateAfter(conf.Keys, sets, old(state))
        && FileListing(NamesOf(yml), conf.Keys)
        && yml == EntriesOf(NamesOf(yml), sets, old(state))
      // told name by name
      ensures ok ==>
        && (forall n :: FileLeft(conf, old(conf), n, sets, AsSet(deletes), removeOk))
        && StateLeft(state, conf, sets, old(state))
        && YmlLeft(yml, conf, state)
      ensures (sets != map[] || deletes != []) && budget > |deletes| + |sets| ==> ok
    {
      if sets == map[] && deletes == [] {
        return false;
      }
      var left: nat;
      ok, left := Delete(deletes, budget);
      if !ok {
        return false;
      }
      ok, left := Write(sets, left, removeOk);
      if !ok {
        return false;
      }
      ok := Rewrite(sets, left > 0);
      if ok {
        FilesLeft(old(conf), sets, AsSet(deletes), removeOk);
        StateIsLeft(conf, sets, old(state));
        YmlIsLeft(yml, conf, sets, old(state));
      }
    }

    /** pipelines.yml and the recorded state, rewritten from the files that are there now. */
    method Rewrite(sets: map<string, Data>, writeOk: bool) returns (ok: bool)
      modifies this`yml, this`state
      ensures ok <==> writeOk
      ensures !ok ==> yml == old(yml) && state == old(state)
      ensures ok ==>
        && state == StateAfter(conf.Keys, sets, old(state))
        && FileListing(NamesOf(yml), conf.Keys)
        && yml == EntriesOf(NamesOf(yml), sets, old(state))
    {
      var files := SortFiles(conf.Keys);
      var entries, next := BuildEntries(files, sets);
      EntriesAre(files, sets, state);
      RecordsInOrderAre(files, conf.Keys, sets, state);
      if !writeOk {
        return false;
      }
      yml := entries;
      next := AddNoInput(sets, next);
      WithNoInputEnds(conf.Keys, sets, state, next);
      state := next;
      return true;
    }

    /** The entries of pipelines.yml and the records of the pipelines that have a file. */
    method BuildEntries(files: seq<string>, sets: map<string, Data>) returns (entries: seq<YmlEntry>, next: State)
      ensures entries == EntriesOf(files, sets, state)
      ensures next == RecordsInOrder(files, sets, state)
    {
      entries, next := [], map[];
      for i := 0 to |files|
        invariant entries == EntriesOf(files[..i], sets, state)
        invariant next == RecordsInOrder(files[..i], sets, state)
      {
        assert files[..i + 1][..i] == files[..i];
        var record := Record(files[i], sets, state);
        entries := entries + [EntryFor(files[i], record)];
        next := next[files[i] := record];
      }
      assert files[..|files|] == files;
    }

    /** Received pipelines without input are recorded too, unless a file of theirs is still there. */
    method AddNoInput(sets: map<string, Data>, records: State) returns (next: State)
      ensures next == WithNoInput(records, sets, sets.Keys)
    {
      next := records;
      var todo := sets.Keys;
      while todo != {}
        invariant todo <= sets.Keys
        invariant WithNoInput(next, sets, todo) == WithNoInput(records, sets, sets.Keys)
        decreases |todo|
      {
        var name :| name in todo;
        WithNoInputStep(next, sets, todo, name);
        if sets[name].noInput && name !in next {
          next := next[name := NoInputRecord(sets[name])];
        }
        todo := todo - {name};
      }
      WithNoInputEnds({}, sets, map[], next);
    }
  }

  function NamesOf(yml: seq<YmlEntry>): seq<string> {
    seq(|yml|, i requires 0 <= i < |yml| => yml[i].name)
  }

  // ----- what the agent reports -----

  /** A pipeline in the report of `build_pipelines_state`. */
  datatype Report = Report(hash: string, settings: Knobs, noInput: bool, nonReloadable: bool, revision: Option<nat>)

  /** The hash of every reported pipeline: those with a file, and recorded ones without input; none without any file. */
  function Hashes(conf: Files, state: State, snmp: set<string>): map<string, string> {
    if conf == map[] then map[]
    else map n | n in conf.Keys + state.Keys && n !in snmp && (n in conf || state[n].noInput) ::
           if n in state then state[n].hash else ""
  }

  /** The settings pipelines.yml gives under an id; a later entry overrides an earlier one. */
  function SettingsIn(yml: seq<YmlEntry>, id: string): Option<Knobs> {
    if yml == [] then None
    else if yml[|yml| - 1].id == id then Some(yml[|yml| - 1].settings)
    else SettingsIn(yml[..|yml| - 1], id)
  }

  /** The last entry of pipelines.yml under an id. */
  ghost predicate LastUnder(yml: seq<YmlEntry>, i: int, id: string) {
    0 <= i < |yml| && yml[i].id == id && forall j | i < j < |yml| :: yml[j].id != id
  }

  lemma {:induction false} SettingsInIs(yml: seq<YmlEntry>, id: string)
    ensures forall i | LastUnder(yml, i, id) :: SettingsIn(yml, id) == Some(yml[i].settings)
    ensures (forall i | 0 <= i < |yml| :: yml[i].id != id) ==> SettingsIn(yml, id) == None
  {
    if yml != [] && yml[|yml| - 1].id != id {
      var init := yml[..|yml| - 1];
      SettingsInIs(init, id);
      forall i | LastUnder(yml, i, id)
        ensures SettingsIn(yml, id) == Some(yml[i].settings)
      {
        assert forall j | i < j < |init| :: init[j] == yml[j];
        assert LastUnder(init, i, id);
      }
    }
  }

  function FileReport(name: string, yml: seq<YmlEntry>, state: State): Report {
    var stored := if name in state then state[name] else Stored("", map[], false, false, None);
    var inYml := if name == "" then None else SettingsIn(yml, name);
    Report(stored.hash, if inYml.Some? then inYml.value else stored.settings, false, stored.nonReloadable, stored.revision)
  }

  function NoInputReport(stored: Stored): Report {
    Report(stored.hash, stored.settings, true, false, None)
  }

  /** A report holds what is recorded, if anything; a file has no revision and no flag but those. */
  ghost predicate RecordedIn(r: Report, n: string, conf: Files, state: State) {
    if n in state then
      && r.hash == state[n].hash && r.noInput == (n !in conf)
      && r.nonReloadable == (n in conf && state[n].nonReloadable)
      && r.revision == if n in conf then state[n].revision else None
    else r == Report("", r.settings, false, false, None)
  }

  /** Its settings are those that pipelines.yml gives last under the plain name, else those recorded. */
  ghost predicate ReportIs(r: Report, n: string, conf: Files, yml: seq<YmlEntry>, state: State) {
    && RecordedIn(r, n, conf, state)
    && (n in conf && n != "" ==> forall i | LastUnder(yml, i, n) :: r.settings == yml[i].settings)
    && (n !in conf || n == "" || (forall i | 0 <= i < |yml| :: yml[i].id != n) ==>
          r.settings == if n in state then state[n].settings else map[])
  }

  lemma FileReportIs(n: string, conf: Files, yml: seq<YmlEntry>, state: State)
    requires n in conf
    ensures ReportIs(FileReport(n, yml, state), n, conf, yml, state)
  {
    SettingsInIs(yml, n);
  }

  /** First loop of `build_pipelines_state`: every file that SNMP does not manage. */
  method ReportFiles(conf: Files, yml: seq<YmlEntry>, state: State, snmp: set<string>)
    returns (reported: map<string, Report>)
    ensures reported.Keys == conf.Keys - snmp
    ensures forall n | n in reported :: reported[n] == FileReport(n, yml, state)
  {
    reported := map[];
    var todo := conf.Keys;
    while todo != {}
      invariant todo <= conf.Keys && reported.Keys == conf.Keys - todo - snmp
      invariant forall n | n in reported :: reported[n] == FileReport(n, yml, state)
      decreases |todo|
    {
      var name :| name in todo;
      if name !in snmp {
        reported := reported[name := FileReport(name, yml, state)];
      }
      todo := todo - {name};
    }
  }

  /** Second loop: recorded pipelines without input that are not reported yet. */
  method ReportNoInput(files: map<string, Report>, state: State, snmp: set<string>) returns (reported: map<string, Report>)
    ensures forall n :: n in reported <==> n in files || (n in state && n !in snmp && state[n].noInput)
    ensures forall n | n in reported :: reported[n] == if n in files then files[n] else NoInputReport(state[n])
  {
    reported := files;
    var todo := state.Keys;
    while todo != {}
      invariant todo <= state.Keys
      invariant forall n :: n in reported <==> n in files || (n in state && n !in todo && n !in snmp && state[n].noInput)
      invariant forall n | n in reported :: reported[n] == if n in files then files[n] else NoInputReport(state[n])
      decreases |todo|
    {
      var name :| name in todo;
      if name !in snmp && state[name].noInput && name !in reported {
        reported := reported[name := NoInputReport(state[name])];
      }
      todo := todo - {name};
    }
  }

  /** `build_pipelines_state`: the server's hash for every pipeline, as recorded at the last update. */
  method BuildPipelinesState(conf: Files, yml: seq<YmlEntry>, state: State, snmp: set<string>)
    returns (reported: map<string, Report>)
    ensures (map n | n in reported :: reported[n].hash) == Hashes(conf, state, snmp)
    ensures forall n ::
      n in reported <==> conf != map[] && n !in snmp && (n in conf || (n in state && state[n].noInput))
    ensures forall n | n in reported :: ReportIs(reported[n], n, conf, yml, state)
  {
    if conf == map[] {
      return map[];
    }
    var files := ReportFiles(conf, yml, state, snmp);
    reported := ReportNoInput(files, state, snmp);
    forall n | n in reported
      ensures ReportIs(reported[n], n, conf, yml, state)
    {
      if n in conf {
        FileReportIs(n, conf, yml, state);
      }
    }
  }

  // ----- rounds with a server that sends the difference -----

  /** The pipelines a diffing server sends: those whose reported hash is missing or different. */
  function ToSet(server: map<string, Data>, reported: map<string, string>): map<string, Data> {
    map n | n in server && (n !in reported || reported[n] != server[n].hash) :: server[n]
  }

  function ToDelete(server: map<string, Data>, reported: map<string, string>): set<string> {
    reported.Keys - server.Keys
  }

  datatype Agent = Agent(conf: Files, state: State)

  function Reported(a: Agent, snmp: set<string>): map<string, string> {
    Hashes(a.conf, a.state, snmp)
  }

  /** What a successful `update_pipelines` makes of the agent. */
  function Updated(a: Agent, sets: map<string, Data>, deletes: set<string>): Agent {
    var conf := AfterSets(a.conf - deletes, sets, true);
    Agent(conf, StateAfter(conf.Keys, sets, a.state))
  }

  /** The server has nothing to send. */
  predicate UpToDate(a: Agent, server: map<string, Data>, snmp: set<string>) {
    ToSet(server, Reported(a, snmp)) == map[] && ToDelete(server, Reported(a, snmp)) == {}
  }

  /** Report, difference and, if there is a difference, update. */
  function Round(a: Agent, server: map<string, Data>, snmp: set<string>): Agent {
    if UpToDate(a, server, snmp) then a
    else Updated(a, ToSet(server, Reported(a, snmp)), ToDelete(server, Reported(a, snmp)))
  }

  /** One undisturbed round against a server that sends the difference. */
  method Reconcile(p: Pipelines, server: map<string, Data>, snmp: set<string>)
    modifies p
    ensures Agent(p.conf, p.state) == Round(Agent(old(p.conf), old(p.state)), server, snmp)
    ensures UpToDate(Agent(old(p.conf), old(p.state)), server, snmp) ==> p.yml == old(p.yml)
    ensures !UpToDate(Agent(old(p.conf), old(p.state)), server, snmp) ==>
      var reported := Hashes(old(p.conf), old(p.state), snmp);
      && (forall n :: FileLeft(p.conf, old(p.conf), n, ToSet(server, reported), ToDelete(server, reported), true))
      && StateLeft(p.state, p.conf, ToSet(server, reported), old(p.state))
      && YmlLeft(p.yml, p.conf, p.state)
  {
    var reports := BuildPipelinesState(p.conf, p.yml, p.state, snmp);
    var reported := map n | n in reports :: reports[n].hash;
    var sets := ToSet(server, reported);
    var deletes := SortFiles(ToDelete(server, reported));
    ListsDeletes(deletes, ToDelete(server, reported));
    if sets != map[] || deletes != [] {
      var _ := p.UpdatePipelines(sets, deletes, |deletes| + |sets| + 1, true);
    }
  }

  lemma ListsDeletes(xs: seq<string>, s: set<string>)
    requires FileListing(xs, s)
    ensures AsSet(xs) == s && (xs == [] <==> s == {})
  {
    if xs != [] {
      assert xs[0] in s;
    }
  }

  /** One pipeline after one update. */
  lemma {:induction false} NextDeltaAt(a: Agent, server: map<string, Data>, snmp: set<string>, sets: map<string, Data>,
                                       deletes: set<string>, b: Agent, n: string)
    requires server.Keys !! snmp
    requires sets == ToSet(server, Reported(a, snmp)) && deletes == ToDelete(server, Reported(a, snmp))
    requires b == Updated(a, sets, deletes) && b.conf != map[]
    ensures n in Reported(b, snmp) ==> n in server
    ensures n in server ==> (n in ToSet(server, Reported(b, snmp)) <==> n !in sets && n !in a.conf)
  {
    var r := Reported(b, snmp);
    if n in sets {
      assert n in b.state && b.state[n].hash == server[n].hash;
      assert n in r && r[n] == server[n].hash;
    } else if n in a.conf && n !in snmp {
      assert a.conf != map[];
      assert n in Reported(a, snmp);
      if n in server {
        assert n !in deletes && n in b.conf;
        assert b.state[n] == Record(n, sets, a.state);
        assert r[n] == Reported(a, snmp)[n];
      } else {
        assert n in deletes && n !in b.conf && n !in b.state;
      }
    } else if n !in a.conf {
      assert n !in b.conf && n !in b.state;
    }
  }

  /**
  After a round that had something to do the server asks for no delete, and it sends again
  exactly the pipelines that have no file and were not part of the delta (all of them, if no
  file is left). Pipelines with a file are settled.
  */
  lemma {:induction false} NextDelta(a: Agent, server: map<string, Data>, snmp: set<string>)
    requires server.Keys !! snmp && !UpToDate(a, server, snmp)
    ensures
      var sets, b := ToSet(server, Reported(a, snmp)), Round(a, server, snmp);
      && ToDelete(server, Reported(b, snmp)) == {}
      && ToSet(server, Reported(b, snmp)).Keys ==
           if b.conf == map[] then server.Keys
           else set n | n in server && n !in sets && n !in a.conf
  {
    var sets, deletes := ToSet(server, Reported(a, snmp)), ToDelete(server, Reported(a, snmp));
    var b := Updated(a, sets, deletes);
    if b.conf == map[] {
      assert Reported(b, snmp) == map[];
    } else {
      forall n
        ensures n in Reported(b, snmp) ==> n in server
        ensures n in server ==> (n in ToSet(server, Reported(b, snmp)) <==> n !in sets && n !in a.conf)
      {
        NextDeltaAt(a, server, snmp, sets, deletes, b, n);
      }
    }
  }

  /**
  The round leaves no file: SNMP has none, every pipeline that is due comes without input, and
  every other one the server knows has no file.
  */
  predicate Empties(a: Agent, server: map<string, Data>, snmp: set<string>) {
    && a.conf.Keys !! snmp
    && forall n | n in server :: if n in ToSet(server, Reported(a, snmp)) then server[n].noInput else n !in a.conf
  }

  lemma {:induction false} RoundEmptiesExactlyWhen(a: Agent, server: map<string, Data>, snmp: set<string>)
    requires server.Keys !! snmp && !UpToDate(a, server, snmp)
    ensures Round(a, server, snmp).conf == map[] <==> Empties(a, server, snmp)
  {
    var sets, deletes := ToSet(server, Reported(a, snmp)), ToDelete(server, Reported(a, snmp));
    var conf := AfterSets(a.conf - deletes, sets, true);
    assert forall n :: n in conf <==> (n in a.conf && n !in deletes && n !in sets) || (n in sets && !sets[n].noInput);
    assert forall n | n in a.conf && n !in snmp :: n in Reported(a, snmp);
    if conf == map[] {
      forall n | n in a.conf
        ensures n !in snmp
      {
        assert n !in conf;
      }
      assert forall n | n in server :: n !in conf;
    }
    if Empties(a, server, snmp) {
      assert forall n :: n !in conf;
      assert conf.Keys == {};
    }
  }

  /**
  After one round the server has nothing more to send, and never will, exactly when it had
  nothing to send before or its delta covered every pipeline without a file; if the round
  leaves no file at all, exactly when there is no pipeline.
  */
  lemma {:induction false} SettledExactlyWhen(a: Agent, server: map<string, Data>, snmp: set<string>)
    requires server.Keys !! snmp
    ensures UpToDate(Round(a, server, snmp), server, snmp) <==>
      || UpToDate(a, server, snmp)
      || (if Empties(a, server, snmp) then server == map[]
          else forall n | n in server && n !in a.conf :: n in ToSet(server, Reported(a, snmp)))
    ensures UpToDate(Round(a, server, snmp), server, snmp) ==>
      Round(Round(a, server, snmp), server, snmp) == Round(a, server, snmp)
  {
    if !UpToDate(a, server, snmp) {
      NextDelta(a, server, snmp);
      RoundEmptiesExactlyWhen(a, server, snmp);
      var next := ToSet(server, Reported(Round(a, server, snmp), snmp));
      assert next == map[] <==> next.Keys == {};
      assert server == map[] <==> server.Keys == {};
    }
  }

  function Iterate(a: Agent, round: Agent -> Agent, k: nat): Agent
    decreases k
  {
    if k == 0 then a else Iterate(round(a), round, k - 1)
  }

  /** The agent after `k` rounds. */
  function Rounds(a: Agent, server: map<string, Data>, snmp: set<string>, k: nat): Agent {
    Iterate(a, (b: Agent) => Round(b, server, snmp), k)
  }

  /** Some but not all of the pipelines without a file are due, nothing else is, and there is a file. */
  ghost predicate PartlyDue(a: Agent, server: map<string, Data>, snmp: set<string>) {
    var due := ToSet(server, Reported(a, snmp)).Keys;
    && a.conf != map[]
    && (forall n | n in server && n !in a.conf :: server[n].noInput)
    && due != {} && due < server.Keys - a.conf.Keys
    && ToDelete(server, Reported(a, snmp)) == {}
  }

  /** Then the next delta is the complement: the pipelines without a file that were not due. */
  lemma {:induction false} DueAlternates(a: Agent, server: map<string, Data>, snmp: set<string>)
    requires server.Keys !! snmp && PartlyDue(a, server, snmp)
    ensures Round(a, server, snmp).conf == a.conf
    ensures ToDelete(server, Reported(Round(a, server, snmp), snmp)) == {}
    ensures ToSet(server, Reported(Round(a, server, snmp), snmp)).Keys ==
            server.Keys - a.conf.Keys - ToSet(server, Reported(a, snmp)).Keys
  {
    var due, b := ToSet(server, Reported(a, snmp)), Round(a, server, snmp);
    assert a.conf - {} == a.conf;
    assert b.conf == a.conf;
    NextDelta(a, server, snmp);
  }

  lemma {:induction false} PartlyDueStep(a: Agent, server: map<string, Data>, snmp: set<string>)
    requires server.Keys !! snmp && PartlyDue(a, server, snmp)
    ensures PartlyDue(Round(a, server, snmp), server, snmp)
  {
    DueAlternates(a, server, snmp);
    var n :| n in ToSet(server, Reported(a, snmp)).Keys;
    assert n !in ToSet(server, Reported(Round(a, server, snmp), snmp)).Keys;
  }

  /** What every round keeps holds after any number of them. */
  lemma {:induction false} RoundsKeep(a: Agent, round: Agent -> Agent, good: Agent -> bool, k: nat)
    requires good(a) && forall b | good(b) :: good(round(b))
    ensures good(Iterate(a, round, k))
    decreases k
  {
    if k > 0 {
      RoundsKeep(round(a), round, good, k - 1);
    }
  }

  /**
  Because an update forgets the pipelines without input that are not in its delta, two sets of
  them displace each other for ever: the server's delta never becomes empty.
  */
  lemma {:induction false} NoInputPipelinesNeverSettle(a: Agent, server: map<string, Data>, snmp: set<string>, k: nat)
    requires server.Keys !! snmp && PartlyDue(a, server, snmp)
    ensures ToSet(server, Reported(Rounds(a, server, snmp, k), snmp)).Keys != {}
  {
    var round := (b: Agent) => Round(b, server, snmp);
    var good := (b: Agent) => PartlyDue(b, server, snmp);
    forall b | good(b)
      ensures good(round(b))
    {
      PartlyDueStep(b, server, snmp);
    }
    RoundsKeep(a, round, good, k);
    assert good(Rounds(a, server, snmp, k));
  }

  /**
  Such a state arises from a settled one as soon as the server changes one of two pipelines
  without input.
  */
  lemma OneChangeStartsIt(a: Agent, server: map<string, Data>, snmp: set<string>, x: string, d: Data, y: string)
    requires a.conf != map[] && ToSet(server, Reported(a, snmp)) == map[] && ToDelete(server, Reported(a, snmp)) == {}
    requires forall n | n in server && n !in a.conf :: server[n].noInput
    requires x in server && x !in a.conf && y in server && y !in a.conf && x != y
    requires d.noInput && d.hash != server[x].hash
    ensures PartlyDue(a, server[x := d], snmp)
  {
    var changed, r := server[x := d], Reported(a, snmp);
    forall n
      ensures n in ToSet(changed, r) <==> n == x
    {
      assert n in server ==> n !in ToSet(server, r);
      assert x !in ToSet(server, r);
    }
    assert x in ToSet(changed, r).Keys && y !in ToSet(changed, r).Keys;
    assert y in changed.Keys - a.conf.Keys;
    assert ToDelete(changed, r) == ToDelete(server, r);
  }

  // ----- exactly when rounds settle -----

  function Due(a: Agent, server: map<string, Data>, snmp: set<string>): set<string> {
    ToSet(server, Reported(a, snmp)).Keys
  }

  /** Some number of rounds leaves the server with nothing to send. */
  ghost predicate Settles(a: Agent, server: map<string, Data>, snmp: set<string>) {
    exists k: nat :: UpToDate(Rounds(a, server, snmp, k), server, snmp)
  }

  /** Of the pipelines without input, one is due and another one neither is due nor has a file. */
  ghost predicate Displacing(a: Agent, server: map<string, Data>, snmp: set<string>) {
    && (exists x :: x in Due(a, server, snmp) && server[x].noInput)
    && (exists y :: y in server && server[y].noInput && y !in Due(a, server, snmp) && y !in a.conf)
  }

  lemma {:induction false} RoundsFrom(a: Agent, server: map<string, Data>, snmp: set<string>, k: nat)
    ensures Rounds(a, server, snmp, 0) == a
    ensures Rounds(a, server, snmp, k + 1) == Rounds(Round(a, server, snmp), server, snmp, k)
  {
  }

  lemma {:induction false} SettlesAfterRound(a: Agent, server: map<string, Data>, snmp: set<string>)
    ensures UpToDate(a, server, snmp) ==> Settles(a, server, snmp)
    ensures Settles(a, server, snmp) <==> UpToDate(a, server, snmp) || Settles(Round(a, server, snmp), server, snmp)
  {
    RoundsFrom(a, server, snmp, 0);
    if k: nat :| UpToDate(Rounds(a, server, snmp, k), server, snmp) {
      if k > 0 {
        RoundsFrom(a, server, snmp, k - 1);
      }
    }
    if k: nat :| UpToDate(Rounds(Round(a, server, snmp), server, snmp, k), server, snmp) {
      RoundsFrom(a, server, snmp, k);
    }
  }

  /** What is due and what has a file after a round, told from before it. */
  lemma {:induction false} RoundAt(a: Agent, server: map<string, Data>, snmp: set<string>, n: string)
    requires server.Keys !! snmp && !UpToDate(a, server, snmp) && Round(a, server, snmp).conf != map[] && n in server
    ensures var b := Round(a, server, snmp);
      && (n in Due(b, server, snmp) <==> n !in Due(a, server, snmp) && n !in a.conf)
      && (n in b.conf <==> if n in Due(a, server, snmp) then !server[n].noInput else n in a.conf)
  {
    NextDelta(a, server, snmp);
    var sets, deletes := ToSet(server, Reported(a, snmp)), ToDelete(server, Reported(a, snmp));
    assert n in sets ==> sets[n] == server[n];
    assert Round(a, server, snmp).conf == AfterSets(a.conf - deletes, sets, true);
  }

  /** A round from a state without deletes, in which nothing due has a file, loses no file. */
  lemma {:induction false} FilesStay(a: Agent, server: map<string, Data>, snmp: set<string>)
    requires server.Keys !! snmp && ToDelete(server, Reported(a, snmp)) == {}
    requires a.conf != map[] && Due(a, server, snmp) !! a.conf.Keys
    ensures Round(a, server, snmp).conf != map[]
  {
    var n :| n in a.conf;
    if !UpToDate(a, server, snmp) {
      assert n in Round(a, server, snmp).conf;
    }
  }

  /** After a round that leaves files, nothing that is due has a file, and nothing is to be deleted. */
  lemma {:induction false} RoundClears(a: Agent, server: map<string, Data>, snmp: set<string>)
    requires server.Keys !! snmp && !UpToDate(a, server, snmp) && Round(a, server, snmp).conf != map[]
    ensures var b := Round(a, server, snmp);
      && ToDelete(server, Reported(b, snmp)) == {} && Due(b, server, snmp) !! b.conf.Keys
      && Round(b, server, snmp).conf != map[]
  {
    var b := Round(a, server, snmp);
    NextDelta(a, server, snmp);
    forall n | n in Due(b, server, snmp)
      ensures n !in b.conf
    {
      RoundAt(a, server, snmp, n);
    }
    FilesStay(b, server, snmp);
  }

  /** Three rounds are enough, if two groups of pipelines without input do not displace each other. */
  lemma {:induction false} NothingDisplacedSettles(a: Agent, server: map<string, Data>, snmp: set<string>)
    requires server.Keys !! snmp && !UpToDate(a, server, snmp) && Round(a, server, snmp).conf != map[]
    requires !Displacing(a, server, snmp)
    ensures Settles(a, server, snmp)
  {
    var b := Round(a, server, snmp);
    var c := Round(b, server, snmp);
    var d := Round(c, server, snmp);
    RoundClears(a, server, snmp);
    SettlesAfterRound(a, server, snmp);
    SettlesAfterRound(b, server, snmp);
    SettlesAfterRound(c, server, snmp);
    SettlesAfterRound(d, server, snmp);
    if !UpToDate(b, server, snmp) {
      RoundClears(b, server, snmp);
      if !UpToDate(c, server, snmp) {
        RoundClears(c, server, snmp);
        forall n | n in server
          ensures n !in Due(d, server, snmp)
        {
          RoundAt(a, server, snmp, n);
          RoundAt(b, server, snmp, n);
          RoundAt(c, server, snmp, n);
          SomeStillDue(a, server, snmp);
        }
        assert ToSet(server, Reported(d, snmp)) == map[];
      }
    }
  }

  /** There is something to do, and files are left when it is done. */
  ghost predicate AtWork(a: Agent, server: map<string, Data>, snmp: set<string>) {
    !UpToDate(a, server, snmp) && Round(a, server, snmp).conf != map[]
  }

  /** If something is due after two rounds, a pipeline without input was due at first. */
  lemma {:induction false} SomeStillDue(a: Agent, server: map<string, Data>, snmp: set<string>)
    requires server.Keys !! snmp
    ensures var b := Round(a, server, snmp);
      AtWork(a, server, snmp) && AtWork(b, server, snmp) && !UpToDate(Round(b, server, snmp), server, snmp) ==>
        exists x :: x in Due(a, server, snmp) && server[x].noInput
  {
    var b := Round(a, server, snmp);
    var c := Round(b, server, snmp);
    if AtWork(a, server, snmp) && AtWork(b, server, snmp) && !UpToDate(c, server, snmp) {
      RoundClears(b, server, snmp);
      var x :| x in Due(c, server, snmp);
      RoundAt(a, server, snmp, x);
      RoundAt(b, server, snmp, x);
    }
  }

  /** Two groups of pipelines without input that displace each other do so for ever. */
  lemma {:induction false} DisplacedNeverSettles(a: Agent, server: map<string, Data>, snmp: set<string>)
    requires server.Keys !! snmp && !UpToDate(a, server, snmp) && Round(a, server, snmp).conf != map[]
    requires Displacing(a, server, snmp)
    ensures !Settles(a, server, snmp)
  {
    var b := Round(a, server, snmp);
    var c := Round(b, server, snmp);
    var x :| x in Due(a, server, snmp) && server[x].noInput;
    var y :| y in server && server[y].noInput && y !in Due(a, server, snmp) && y !in a.conf;
    RoundAt(a, server, snmp, x);
    RoundAt(a, server, snmp, y);
    RoundClears(a, server, snmp);
    assert !UpToDate(b, server, snmp);
    RoundAt(b, server, snmp, x);
    RoundAt(b, server, snmp, y);
    RoundClears(b, server, snmp);
    forall n | n in server && n !in c.conf
      ensures server[n].noInput
    {
      RoundAt(a, server, snmp, n);
      RoundAt(b, server, snmp, n);
    }
    forall n | n in Due(c, server, snmp)
      ensures n in server.Keys - c.conf.Keys
    {
    }
    assert x in Due(c, server, snmp) && y in server.Keys - c.conf.Keys && y !in Due(c, server, snmp);
    assert PartlyDue(c, server, snmp);
    NeverSettles(c, server, snmp);
    SettlesAfterRound(a, server, snmp);
    SettlesAfterRound(b, server, snmp);
  }

  lemma {:induction false} NeverSettles(a: Agent, server: map<string, Data>, snmp: set<string>)
    requires server.Keys !! snmp && PartlyDue(a, server, snmp)
    ensures !Settles(a, server, snmp)
  {
    forall k: nat
      ensures !UpToDate(Rounds(a, server, snmp, k), server, snmp)
    {
      NoInputPipelinesNeverSettle(a, server, snmp, k);
    }
  }

  /** Once no file is left, rounds settle exactly if the server has no pipeline or one with input. */
  lemma {:induction false} EmptySettlesExactlyWhen(b: Agent, server: map<string, Data>, snmp: set<string>)
    requires server.Keys !! snmp && b.conf == map[]
    ensures Settles(b, server, snmp) <==> server == map[] || exists n :: n in server && !server[n].noInput
  {
    assert Reported(b, snmp) == map[];
    SettlesAfterRound(b, server, snmp);
    if server == map[] {
      assert UpToDate(b, server, snmp);
    } else {
      var m :| m in server.Keys;
      assert m in ToSet(server, Reported(b, snmp));
      RoundEmptiesExactlyWhen(b, server, snmp);
      var c := Round(b, server, snmp);
      if n :| n in server && !server[n].noInput {
        NextDelta(b, server, snmp);
        assert n in ToSet(server, Reported(b, snmp));
        assert ToSet(server, Reported(c, snmp)).Keys == {};
        assert UpToDate(c, server, snmp);
        SettlesAfterRound(c, server, snmp);
      } else {
        AllWithoutInputNeverSettle(b, server, snmp);
      }
    }
  }

  lemma {:induction false} AllWithoutInputNeverSettle(a: Agent, server: map<string, Data>, snmp: set<string>)
    requires server.Keys !! snmp && a.conf == map[] && server != map[] && forall n | n in server :: server[n].noInput
    ensures !Settles(a, server, snmp)
  {
    var round := (b: Agent) => Round(b, server, snmp);
    var good := (b: Agent) => b.conf == map[];
    forall b | good(b)
      ensures good(round(b)) && !UpToDate(b, server, snmp)
    {
      assert Reported(b, snmp) == map[];
      var m :| m in server.Keys;
      assert m in ToSet(server, Reported(b, snmp));
      RoundEmptiesExactlyWhen(b, server, snmp);
    }
    forall k: nat
      ensures !UpToDate(Rounds(a, server, snmp, k), server, snmp)
    {
      RoundsKeep(a, round, good, k);
      assert good(Rounds(a, server, snmp, k));
    }
  }

  /**
  Exactly when some number of rounds settles everything: at once; or, if the first round leaves
  no file, when there is no pipeline or one with input; or else unless, of the pipelines without
  input, one is due and another one neither is due nor has a file.
  */
  lemma {:induction false} SettlesEventuallyExactlyWhen(a: Agent, server: map<string, Data>, snmp: set<string>)
    requires server.Keys !! snmp
    ensures Settles(a, server, snmp) <==>
      || UpToDate(a, server, snmp)
      || (if Empties(a, server, snmp) then server == map[] || exists n :: n in server && !server[n].noInput
          else !Displacing(a, server, snmp))
  {
    SettlesAfterRound(a, server, snmp);
    if !UpToDate(a, server, snmp) {
      RoundEmptiesExactlyWhen(a, server, snmp);
      if Empties(a, server, snmp) {
        EmptySettlesExactlyWhen(Round(a, server, snmp), server, snmp);
      } else if Displacing(a, server, snmp) {
        DisplacedNeverSettles(a, server, snmp);
      } else {
        NothingDisplacedSettles(a, server, snmp);
      }
    }
  }

  // ----- revisions -----

  /** One successful update: the files it leaves and the pipelines it received. */
  datatype Update = Update(files: set<string>, sets: map<string, Data>)

  function StateAt(prev: State, updates: seq<Update>, k: nat): State
    requires k <= |updates|
  {
    if k == 0 then prev
    else StateAfter(updates[k - 1].files, updates[k - 1].sets, StateAt(prev, updates, k - 1))
  }

  /** In each of the first `k` updates the pipeline has a file and is non-reloadable. */
  ghost predicate StaysNonReloadable(prev: State, updates: seq<Update>, n: string, k: nat)
    requires k <= |updates|
  {
    forall i | 0 <= i < k :: n in updates[i].files && StateAt(prev, updates, i + 1)[n].nonReloadable
  }

  /** Each update of a present, non-reloadable pipeline raises its revision by one. */
  lemma {:induction false} RevisionAfter(prev: State, updates: seq<Update>, n: string, k: nat)
    requires k <= |updates| && StaysNonReloadable(prev, updates, n, k)
    ensures var first := if n in prev && prev[n].revision.Some? then prev[n].revision.value else 0;
      k > 0 ==> n in StateAt(prev, updates, k) && StateAt(prev, updates, k)[n].revision == Some(first + k)
    decreases k
  {
    if k > 0 {
      RevisionAfter(prev, updates, n, k - 1);
      assert n in updates[k - 1].files;
    }
  }

  /** So its id never recurs, and Logstash always recreates the pipeline. */
  lemma {:induction false} IdsNeverRecur(prev: State, updates: seq<Update>, n: string, i: nat, j: nat)
    requires 0 < i < j <= |updates| && StaysNonReloadable(prev, updates, n, j)
    ensures n in StateAt(prev, updates, i) && n in StateAt(prev, updates, j)
    ensures IdOf(n, StateAt(prev, updates, i)[n].revision) != IdOf(n, StateAt(prev, updates, j)[n].revision)
  {
    RevisionAfter(prev, updates, n, i);
    RevisionAfter(prev, updates, n, j);
    var r, q := StateAt(prev, updates, i)[n].revision.value, StateAt(prev, updates, j)[n].revision.value;
    if IdOf(n, Some(r)) == IdOf(n, Some(q)) {
      RevisionedIdsDiffer(n, r, n, q);
    }
  }

  /** After update `k` the pipeline is not present as a non-reloadable one. */
  ghost predicate Interrupted(prev: State, updates: seq<Update>, n: string, k: nat)
    requires 0 < k <= |updates|
  {
    !(n in updates[k - 1].files && StateAt(prev, updates, k)[n].nonReloadable)
  }

  /** The last of the first `k` updates that interrupted the pipeline. */
  ghost function LastBreak(prev: State, updates: seq<Update>, n: string, k: nat): (m: Option<nat>)
    requires k <= |updates|
    ensures m.Some? ==> 0 < m.value <= k
  {
    if k == 0 then None
    else if Interrupted(prev, updates, n, k) then Some(k)
    else LastBreak(prev, updates, n, k - 1)
  }

  function FirstRevision(prev: State, n: string): nat {
    if n in prev && prev[n].revision.Some? then prev[n].revision.value else 0
  }

  /** The number of updates since the last interruption, on top of the first revision if there was none. */
  ghost function Uninterrupted(prev: State, updates: seq<Update>, n: string, k: nat): nat
    requires k <= |updates|
  {
    match LastBreak(prev, updates, n, k)
    case None => FirstRevision(prev, n) + k
    case Some(m) => k - m
  }

  lemma RevisionStep(prev: State, updates: seq<Update>, n: string, k: nat)
    requires 0 < k <= |updates|
    ensures !Interrupted(prev, updates, n, k) ==>
      n in StateAt(prev, updates, k) &&
      StateAt(prev, updates, k)[n].revision == Some(FirstRevision(StateAt(prev, updates, k - 1), n) + 1)
    ensures Interrupted(prev, updates, n, k) && n in StateAt(prev, updates, k) ==> StateAt(prev, updates, k)[n].revision == None
    ensures FirstRevision(StateAt(prev, updates, k), n) ==
      if Interrupted(prev, updates, n, k) then 0 else FirstRevision(StateAt(prev, updates, k - 1), n) + 1
  {
  }

  lemma {:induction false} UninterruptedStep(prev: State, updates: seq<Update>, n: string, k: nat)
    requires k <= |updates|
    ensures k == 0 ==> Uninterrupted(prev, updates, n, k) == FirstRevision(prev, n)
    ensures k > 0 ==>
      (Uninterrupted(prev, updates, n, k) ==
       if Interrupted(prev, updates, n, k) then 0 else Uninterrupted(prev, updates, n, k - 1) + 1)
  {
  }

  lemma {:induction false} RevisionCounts(prev: State, updates: seq<Update>, n: string, k: nat)
    requires k <= |updates|
    ensures FirstRevision(StateAt(prev, updates, k), n) == Uninterrupted(prev, updates, n, k)
    decreases k
  {
    UninterruptedStep(prev, updates, n, k);
    if k > 0 {
      RevisionCounts(prev, updates, n, k - 1);
      RevisionStep(prev, updates, n, k);
    }
  }

  /** In closed form: the revision after any update that leaves the pipeline present and non-reloadable. */
  lemma {:induction false} RevisionIs(prev: State, updates: seq<Update>, n: string, k: nat)
    requires 0 < k <= |updates|
    ensures !Interrupted(prev, updates, n, k) ==>
      n in StateAt(prev, updates, k) && StateAt(prev, updates, k)[n].revision == Some(Uninterrupted(prev, updates, n, k))
    ensures Interrupted(prev, updates, n, k) && n in StateAt(prev, updates, k) ==> StateAt(prev, updates, k)[n].revision == None
  {
    RevisionCounts(prev, updates, n, k);
    RevisionStep(prev, updates, n, k);
  }

  /** The id after update `k`, of a pipeline that has a file. */
  ghost function IdAfter(prev: State, updates: seq<Update>, n: string, k: nat): string
    requires 0 < k <= |updates| && n in updates[k - 1].files
  {
    IdOf(n, StateAt(prev, updates, k)[n].revision)
  }

  /**
  Exactly when an id recurs: two updates of a run leave a pipeline under the same id if and only
  if it is reloadable after both, or non-reloadable after both with equally many updates since
  the last interruption, the first revision counting where there was none.
  */
  lemma {:induction false} IdsRecurExactlyWhen(prev: State, updates: seq<Update>, n: string, i: nat, j: nat)
    requires 0 < i < j <= |updates| && n in updates[i - 1].files && n in updates[j - 1].files
    ensures IdAfter(prev, updates, n, i) == IdAfter(prev, updates, n, j) <==>
      if Interrupted(prev, updates, n, i) then Interrupted(prev, updates, n, j)
      else
        && !Interrupted(prev, updates, n, j)
        && Uninterrupted(prev, updates, n, i) == Uninterrupted(prev, updates, n, j)
  {
    RevisionIs(prev, updates, n, i);
    RevisionIs(prev, updates, n, j);
    SameId(n, StateAt(prev, updates, i)[n].revision, StateAt(prev, updates, j)[n].revision);
  }

  lemma SameId(n: string, r: Option<nat>, q: Option<nat>)
    ensures IdOf(n, r) == IdOf(n, q) <==> r == q
  {
    if r.Some? && q.Some? && IdOf(n, r) == IdOf(n, q) {
      RevisionedIdsDiffer(n, r.value, n, q.value);
    }
    if r.Some? != q.Some? {
      var s := if r.Some? then IdOf(n, r) else IdOf(n, q);
      assert |s| > |n|;
    }
  }

  /**
  In particular an interruption, be it a removal or a while as a reloadable pipeline, brings
  back ids that Logstash has seen: the first update after it yields the id of a first update.
  */
  lemma {:induction false} InterruptionBringsBackFirstId(prev: State, updates: seq<Update>, n: string, j: nat)
    requires FirstRevision(prev, n) == 0 && 1 < j < |updates|
    requires !Interrupted(prev, updates, n, 1) && Interrupted(prev, updates, n, j) && !Interrupted(prev, updates, n, j + 1)
    ensures IdAfter(prev, updates, n, 1) == IdAfter(prev, updates, n, j + 1) == n + "-" + Decimal(1)
  {
    RevisionIs(prev, updates, n, 1);
    RevisionIs(prev, updates, n, j + 1);
    assert LastBreak(prev, updates, n, 0) == None && LastBreak(prev, updates, n, 1) == None;
    assert LastBreak(prev, updates, n, j) == Some(j) && LastBreak(prev, updates, n, j + 1) == Some(j);
  }
}
