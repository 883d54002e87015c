/**
What a runtime upgrade keeps on disk: the settings directory, the env file, the
agent state and the snapshot directory, with the pure part of capture and restore.
*/
module RuntimeDisk {
  import opened Options
  import EnvFile

  type Content = string

  datatype FileName = LogstashYml | JvmOptions | Log4j2Properties | PipelinesYml | KeystoreFile | OtherFile(name: string)

  datatype DirName = PipelinesDir | ConfD | OtherDir(name: string)

  /** The files and directories a snapshot captures, in copy order. */
  const SETTING_FILES: seq<FileName> := [LogstashYml, JvmOptions, Log4j2Properties, PipelinesYml, KeystoreFile]
  const SETTING_DIRS: seq<DirName> := [PipelinesDir, ConfD]

  /** The most copies a restore makes: one per file, one per directory, one for the env file. */
  const RESTORE_STEPS := |SETTING_FILES| + |SETTING_DIRS| + 1

  /** The directory at `settings_path`: plain files and one level of directories. */
  datatype Settings = Settings(files: map<FileName, Content>, dirs: map<DirName, map<string, Content>>)

  /** The Logstash distribution the agent is pinned to. */
  datatype Pin = Pin(source: string, version: string, binary: string)

  /** The part of agent state that the upgrade and the merged apply write. */
  datatype AgentState = AgentState(
    pin: Pin,
    downloadDir: string,
    binaryPath: string,
    resolved: string,
    revision: int,
    password: Option<string>,
    keystore: map<string, string>,
    pipelines: map<string, string>,
    snmpKeystore: map<string, string>,
    snmpPipelines: map<string, string>)

  datatype Meta = Meta(previous: Pin, desired: Pin, downloadDir: string)

  /** `meta` is `None` while meta.json is missing or cannot be parsed. */
  datatype Snapshot = Snapshot(settings: Settings, env: Option<seq<string>>, meta: Option<Meta>)

  /** `registry` is the pin that the install registry has for this instance, if it lists the instance. */
  datatype Disk = Disk(
    settings: Settings, env: Option<seq<string>>, state: AgentState, snap: Option<Snapshot>, registry: Option<Pin>)

  /** Settings and env file as they were when a snapshot was begun. */
  datatype Base = Base(settings: Settings, env: Option<seq<string>>)

  const EMPTY_SNAPSHOT := Snapshot(Settings(map[], map[]), None, None)

  /** The entries of `m` whose name is listed in `names`. */
  function Take<K(==), V>(m: map<K, V>, names: seq<K>): map<K, V> {
    map n | n in names && n in m :: m[n]
  }

  /** How many of `names` are in `s`. */
  function Present<K(==)>(s: set<K>, names: seq<K>): nat {
    if names == [] then 0
    else Present(s, names[..|names| - 1]) + if names[|names| - 1] in s then 1 else 0
  }

  /** The steps a snapshot takes: the directory, one copy per entry that is there, the env file and meta.json. */
  function CaptureSteps(d: Disk): nat {
    2 + Present(d.settings.files.Keys, SETTING_FILES) + Present(d.settings.dirs.Keys, SETTING_DIRS) +
    if d.env.Some? then 1 else 0
  }

  function Capture(s: Settings): Settings {
    Settings(Take(s.files, SETTING_FILES), Take(s.dirs, SETTING_DIRS))
  }

  /** A complete restore: captured entries replace the current ones, all others stay. */
  function Restored(cur: Settings, saved: Settings): Settings {
    Settings(cur.files + Take(saved.files, SETTING_FILES), cur.dirs + Take(saved.dirs, SETTING_DIRS))
  }

  function RestoredEnv(cur: Option<seq<string>>, saved: Option<seq<string>>): Option<seq<string>> {
    if saved.Some? then saved else cur
  }

  /** `a` and `b` agree on every name outside `names`. */
  ghost predicate AgreeOutside<K(!new), V(!new)>(a: map<K, V>, b: map<K, V>, names: set<K>) {
    forall n :: n !in names ==> (n in a <==> n in b) && (n in a ==> a[n] == b[n])
  }

  /** What an interrupted restore may have done: touched captured entries only. */
  ghost predicate TouchedOnlyCaptured(before: Settings, after: Settings, saved: Settings) {
    && AgreeOutside(before.files, after.files, Take(saved.files, SETTING_FILES).Keys)
    && AgreeOutside(before.dirs, after.dirs, Take(saved.dirs, SETTING_DIRS).Keys)
  }

  /** One more name: the step of every capture and restore loop. */
  lemma TakeStep<K, V>(m: map<K, V>, names: seq<K>, i: nat)
    requires i < |names|
    ensures Take(m, names[..i + 1]) ==
      if names[i] in m then Take(m, names[..i])[names[i] := m[names[i]]] else Take(m, names[..i])
  {
    assert names[..i + 1] == names[..i] + [names[i]];
  }

  lemma PresentStep<K>(s: set<K>, names: seq<K>, i: nat)
    requires i < |names|
    ensures Present(s, names[..i + 1]) == Present(s, names[..i]) + if names[i] in s then 1 else 0
  {
    assert names[..i + 1][..i] == names[..i];
  }

  lemma {:induction false} PresentBound<K>(s: set<K>, names: seq<K>)
    ensures Present(s, names) <= |names|
  {
    if names != [] {
      PresentBound(s, names[..|names| - 1]);
    }
  }

  lemma {:induction false} PresentGrows<K>(s: set<K>, names: seq<K>, i: nat)
    requires i <= |names|
    ensures Present(s, names[..i]) <= Present(s, names)
    decreases |names|
  {
    if i < |names| {
      PresentGrows(s, names[..|names| - 1], i);
      assert names[..|names| - 1][..i] == names[..i];
    } else {
      assert names[..i] == names;
    }
  }

  lemma TakeAll<K, V>(m: map<K, V>, names: seq<K>)
    ensures Take(m, names[..|names|]) == Take(m, names)
    ensures Take(m, names[..0]) == map[]
    ensures Take(Take(m, names), names) == Take(m, names)
  {
    assert names[..|names|] == names;
  }

  lemma MergeNothing<K, V>(m: map<K, V>)
    ensures m + map[] == m
  {
  }

  /** Whatever `torn` holds for `k`, setting it completes the merge of one more entry. */
  lemma MergeStep<K, V>(m: map<K, V>, t: map<K, V>, torn: map<K, V>, k: K, v: V)
    requires torn - {k} == (m + t) - {k}
    ensures torn[k := v] == m + t[k := v]
  {
    assert torn[k := v] == (torn - {k})[k := v];
    assert ((m + t) - {k})[k := v] == m + t[k := v];
  }

  /** A restore caught in the middle of entry `i` touched captured entries only. */
  lemma TornAgrees<K(!new), V(!new)>(m: map<K, V>, saved: map<K, V>, names: seq<K>, i: nat, torn: map<K, V>)
    requires i < |names| && names[i] in saved
    requires torn - {names[i]} == (m + Take(saved, names[..i])) - {names[i]}
    ensures AgreeOutside(m, torn, Take(saved, names).Keys)
  {
    var k, merged := names[i], m + Take(saved, names[..i]);
    forall n | n !in Take(saved, names).Keys
      ensures n in m <==> n in torn
      ensures n in m ==> m[n] == torn[n]
    {
      assert n != k && (n in torn <==> n in torn - {k}) && (n in merged <==> n in merged - {k});
      assert n in torn ==> torn[n] == (torn - {k})[n];
    }
  }

  lemma MergeIsRestartable<K(!new), V(!new)>(before: map<K, V>, after: map<K, V>, t: map<K, V>)
    requires AgreeOutside(before, after, t.Keys)
    ensures after + t == before + t
  {
    assert (after + t).Keys == (before + t).Keys;
    assert forall n | n in after + t :: (after + t)[n] == (before + t)[n];
  }

  /** An interrupted restore, whatever it left behind, followed by a complete one equals one complete restore. */
  lemma RestoreIsRestartable(before: Settings, after: Settings, saved: Settings)
    requires TouchedOnlyCaptured(before, after, saved)
    ensures Restored(after, saved) == Restored(before, saved)
  {
    MergeIsRestartable(before.files, after.files, Take(saved.files, SETTING_FILES));
    MergeIsRestartable(before.dirs, after.dirs, Take(saved.dirs, SETTING_DIRS));
  }

  lemma RestoreIsIdempotent(before: Settings, saved: Settings)
    ensures Restored(Restored(before, saved), saved) == Restored(before, saved)
  {
    RestoreIsRestartable(before, Restored(before, saved), saved);
  }

  /**
  Restoring what was captured: captured files regain their content, captured directories
  become exactly what they were, and nothing else moves.
  */
  lemma RestoreUndoes(cur: Settings, base: Settings)
    ensures var r := Restored(cur, Capture(base));
      && (forall n | n in SETTING_FILES && n in base.files :: n in r.files && r.files[n] == base.files[n])
      && (forall n | n in SETTING_DIRS && n in base.dirs :: n in r.dirs && r.dirs[n] == base.dirs[n])
      && AgreeOutside(r.files, cur.files, Take(base.files, SETTING_FILES).Keys)
      && AgreeOutside(r.dirs, cur.dirs, Take(base.dirs, SETTING_DIRS).Keys)
  {
    TakeAll(base.files, SETTING_FILES);
    TakeAll(base.dirs, SETTING_DIRS);
  }

  lemma RestoredHasSaved(cur: Settings, saved: Settings)
    ensures var r := Restored(cur, saved);
      && (forall f | f in SETTING_FILES && f in saved.files :: f in r.files && r.files[f] == saved.files[f])
      && (forall f | f in SETTING_DIRS && f in saved.dirs :: f in r.dirs && r.dirs[f] == saved.dirs[f])
  {
    assert forall f | f in SETTING_FILES && f in saved.files :: f in Take(saved.files, SETTING_FILES);
    assert forall f | f in SETTING_DIRS && f in saved.dirs :: f in Take(saved.dirs, SETTING_DIRS);
  }

  /**
  Every file and directory that Logstash is configured by is as it was `before`: the five
  configuration files with their content, the two pipeline directories entry by entry.
  */
  ghost predicate BackAsBefore(now: Settings, before: Settings) {
    && (forall f | f in {LogstashYml, JvmOptions, Log4j2Properties, PipelinesYml, KeystoreFile} && f in before.files ::
          f in now.files && now.files[f] == before.files[f])
    && (forall d | d in {PipelinesDir, ConfD} && d in before.dirs :: d in now.dirs && now.dirs[d] == before.dirs[d])
  }

  /** Whatever else lies in the settings directory is the same in both. */
  ghost predicate OthersUntouched(a: Settings, b: Settings) {
    && (forall n :: OtherFile(n) in a.files <==> OtherFile(n) in b.files)
    && (forall n | OtherFile(n) in a.files && OtherFile(n) in b.files :: a.files[OtherFile(n)] == b.files[OtherFile(n)])
    && (forall n :: OtherDir(n) in a.dirs <==> OtherDir(n) in b.dirs)
    && (forall n | OtherDir(n) in a.dirs && OtherDir(n) in b.dirs :: a.dirs[OtherDir(n)] == b.dirs[OtherDir(n)])
  }

  /** A restore of what was captured brings the whole configuration back, and touches nothing else. */
  lemma RestoreBringsBack(cur: Settings, base: Settings)
    ensures BackAsBefore(Restored(cur, Capture(base)), base)
    ensures OthersUntouched(cur, Restored(cur, Capture(base)))
    ensures forall saved :: BackAsBefore(Restored(cur, saved), saved)
  {
    forall saved
      ensures BackAsBefore(Restored(cur, saved), saved)
    {
      RestoredIsBack(cur, saved);
    }
    CapturedIsBack(cur, base);
    OthersStay(cur, Capture(base));
  }

  lemma RestoredIsBack(cur: Settings, saved: Settings)
    ensures BackAsBefore(Restored(cur, saved), saved)
  {
    RestoredHasSaved(cur, saved);
  }

  lemma CapturedIsBack(cur: Settings, base: Settings)
    ensures BackAsBefore(Restored(cur, Capture(base)), base)
  {
    RestoreUndoes(cur, base);
  }

  lemma OthersStay(cur: Settings, saved: Settings)
    ensures OthersUntouched(cur, Restored(cur, saved))
  {
  }

  lemma MergeIsExactUndo<K(!new), V(!new)>(cur: map<K, V>, base: map<K, V>, names: seq<K>)
    requires AgreeOutside(base, cur, set n | n in names)
    ensures cur + Take(base, names) == base <==> forall n :: n in names && n in cur ==> n in base
  {
    var r := cur + Take(base, names);
    if forall n :: n in names && n in cur ==> n in base {
      assert r.Keys == base.Keys;
      assert forall n | n in r :: r[n] == base[n];
    } else {
      var n :| n in names && n in cur && n !in base;
      assert n in r;
    }
  }

  /**
  If the upgrade changed captured entries only, a restore gives back exactly the settings of
  before the upgrade if and only if the upgrade created no captured entry that was absent.
  */
  lemma RestoreIsExactUndo(cur: Settings, base: Settings)
    requires AgreeOutside(base.files, cur.files, set n | n in SETTING_FILES)
    requires AgreeOutside(base.dirs, cur.dirs, set d | d in SETTING_DIRS)
    ensures Restored(cur, Capture(base)) == base <==>
      && (forall n :: n in SETTING_FILES && n in cur.files ==> n in base.files)
      && (forall d :: d in SETTING_DIRS && d in cur.dirs ==> d in base.dirs)
  {
    MergeIsExactUndo(cur.files, base.files, SETTING_FILES);
    MergeIsExactUndo(cur.dirs, base.dirs, SETTING_DIRS);
    TakeAll(base.files, SETTING_FILES);
    TakeAll(base.dirs, SETTING_DIRS);
  }

  /** A missing env file is an empty one. */
  function LinesOf(env: Option<seq<string>>): seq<string> {
    if env.Some? then env.value else []
  }

  function BinaryOf(env: Option<seq<string>>): Option<string> {
    if env.None? then None else EnvFile.Lookup(env.value, EnvFile.BINARY_KEY)
  }

  /** The unit would launch exactly the binary the agent believes it is pinned to. */
  predicate Consistent(d: Disk) {
    BinaryOf(d.env) == Some(d.state.pin.binary)
  }

  /** A snapshot directory whose meta.json can be read. */
  predicate Readable(d: Disk) {
    d.snap.Some? && d.snap.value.meta.Some?
  }

  /** The pin recorded in agent state already is the one the upgrade wanted. */
  predicate Committed(d: Disk)
    requires Readable(d)
  {
    d.state.pin == d.snap.value.meta.value.desired
  }

  /** Everything the snapshot holds is back in place. */
  ghost predicate IsRestored(d: Disk)
    requires Readable(d)
  {
    && Restored(d.settings, d.snap.value.settings) == d.settings
    && RestoredEnv(d.env, d.snap.value.env) == d.env
  }

  /** There is a readable snapshot of an upgrade whose pin is not recorded. */
  predicate Undoable(d: Disk) {
    Readable(d) && !Committed(d)
  }

  /**
  The crash invariant. Without a snapshot to undo, the unit and the recorded pin agree. With
  one, the snapshot holds the settings and the env file of before the upgrade, and that env
  file names the recorded binary.
  */
  predicate Safe(d: Disk, base: Base) {
    if !Undoable(d) then Consistent(d)
    else
      && d.snap.value.settings == Capture(base.settings)
      && d.snap.value.env == base.env
      && BinaryOf(base.env) == Some(d.state.pin.binary)
  }

  /** An in-place edit of the env file to `lines`, caught after `k` lines and `c` characters. */
  datatype Edit = Edit(lines: seq<string>, k: nat, c: nat)

  /** The binary that `lines` names is already named by what is written. */
  predicate KeepsBinary(e: Edit) {
    BinaryOf(Some(EnvFile.Written(e.lines, e.k, e.c))) == BinaryOf(Some(e.lines))
  }

  /** One durable moment of the host, the base of its current snapshot, and the env edit it is caught in. */
  datatype Moment = Moment(disk: Disk, base: Base, edit: Option<Edit>)

  /** Outside an edit the disk is safe; inside one it is what the edit wrote, and the complete edit is safe. */
  ghost predicate Holds(m: Moment) {
    match m.edit
    case None => Safe(m.disk, m.base)
    case Some(e) =>
      && m.disk.env == Some(EnvFile.Written(e.lines, e.k, e.c))
      && Safe(m.disk.(env := Some(e.lines)), m.base)
  }

  /** A moment is safe unless it lies inside an edit that nothing can undo and that has not written the binary yet. */
  lemma SafeExactlyWhen(m: Moment)
    requires Holds(m)
    ensures Safe(m.disk, m.base) <==> m.edit.None? || Undoable(m.disk) || KeepsBinary(m.edit.value)
    ensures !Undoable(m.disk) ==> (Consistent(m.disk) <==> m.edit.None? || KeepsBinary(m.edit.value))
  {
  }

  /**
  For a file that names the binary once, at line `p`: an edit cut after `k` lines and `c`
  characters still launches the recorded binary if and only if that line is complete. Under a
  snapshot that can be undone every cut is safe.
  */
  lemma CutEditLaunchesExactlyWhen(m: Moment, p: nat)
    requires Holds(m) && m.edit.Some? && m.edit.value.k <= |m.edit.value.lines|
    requires EnvFile.AssignedOnceAt(m.edit.value.lines, EnvFile.BINARY_KEY, p)
    ensures var e := m.edit.value;
      Safe(m.disk, m.base) <==> Undoable(m.disk) || p < e.k || (p == e.k && |e.lines[p]| <= e.c)
  {
    var e := m.edit.value;
    EnvFile.CutKeepsExactlyWhen(e.lines, EnvFile.BINARY_KEY, p, e.k, e.c);
  }

  /**
  The undo-log discipline between two consecutive durable moments: a readable snapshot is
  never overwritten, and it disappears only once the new pin is recorded or everything is
  restored; it becomes readable while settings, env and state are still those of its base;
  the launched binary and the recorded binary change only under a readable snapshot, in-place
  edits of the env file aside.
  */
  ghost predicate Disciplined(a: Moment, b: Moment) {
    && (Readable(a.disk) && b.disk.snap.Some? ==> b.disk.snap == a.disk.snap)
    && (a.disk.snap.Some? && b.disk.snap.Some? ==> b.base == a.base)
    && (Readable(a.disk) && b.disk.snap.None? ==> Committed(a.disk) || IsRestored(a.disk))
    && (a.disk.snap.None? && b.disk.snap.Some? ==> b.base == Base(a.disk.settings, a.disk.env))
    && (!Readable(a.disk) && Readable(b.disk) ==>
          && b.base == Base(b.disk.settings, b.disk.env)
          && b.disk.state == a.disk.state
          && b.disk.snap.value.settings == Capture(b.base.settings)
          && b.disk.snap.value.env == b.base.env)
    && (!Readable(a.disk) ==> a.disk.state.pin == b.disk.state.pin)
    && (!Readable(a.disk) && a.edit.None? && b.edit.None? ==> BinaryOf(a.disk.env) == BinaryOf(b.disk.env))
    && (b.edit.Some? ==> b.disk == a.disk.(env := b.disk.env) && b.base == a.base)
  }

  /** Every durable moment holds, every write is disciplined, and the first moment has no snapshot. */
  ghost predicate SoundJournal(j: seq<Moment>) {
    && |j| > 0
    && j[0].disk.snap.None? && j[0].edit.None?
    && (forall i | 0 <= i < |j| :: Holds(j[i]))
    && (forall i | 0 < i < |j| :: Disciplined(j[i - 1], j[i]))
  }

  lemma AppendKeepsSound(j: seq<Moment>, m: Moment)
    requires SoundJournal(j) && Holds(m) && Disciplined(j[|j| - 1], m)
    ensures SoundJournal(j + [m])
  {
  }

  /** The moments of an in-place edit of the env file, and its completion. */
  lemma EditIsDisciplined(a: Moment, env: Option<seq<string>>, edit: Option<Edit>)
    requires a.edit.Some? || edit.Some? || BinaryOf(env) == BinaryOf(a.disk.env)
    ensures Disciplined(a, Moment(a.disk.(env := env), a.base, edit))
  {
  }

  /** The base of a snapshot is the content of the last moment that had no snapshot. */
  lemma {:induction false} BaseIsEarlierMoment(j: seq<Moment>, k: nat) returns (i: nat)
    requires SoundJournal(j) && k < |j| && j[k].disk.snap.Some?
    ensures i < k && j[k].base == Base(j[i].disk.settings, j[i].disk.env)
    ensures j[i].disk.snap.None? && forall m | i < m <= k :: j[m].disk.snap.Some?
    decreases k
  {
    assert Disciplined(j[k - 1], j[k]);
    if j[k - 1].disk.snap.None? {
      i := k - 1;
    } else {
      i := BaseIsEarlierMoment(j, k - 1);
    }
  }

  /**
  Over any run with crashes, a readable snapshot disappears in one of two ways only: the new
  pin is recorded and the unit launches it, or the env file and every captured file and
  directory are back to what they were at the last moment without a snapshot.
  */
  lemma SnapshotEndsInCommitOrUndo(j: seq<Moment>, k: nat) returns (i: nat)
    requires SoundJournal(j) && k + 1 < |j|
    requires Readable(j[k].disk) && j[k + 1].disk.snap.None?
    ensures i < k && j[i].disk.snap.None? && forall m | i < m <= k :: j[m].disk.snap.Some?
    ensures Consistent(j[k + 1].disk)
    ensures j[k].disk.state.pin == j[k].disk.snap.value.meta.value.desired ||
      (&& j[k].disk.env == j[i].disk.env
       && Restored(j[k].disk.settings, Capture(j[i].disk.settings)) == j[k].disk.settings
       && BackAsBefore(j[k].disk.settings, j[i].disk.settings))
  {
    forall cur, base
      ensures BackAsBefore(Restored(cur, Capture(base)), base)
    {
      RestoreBringsBack(cur, base);
    }
    i := BaseIsEarlierMoment(j, k);
    assert Disciplined(j[k], j[k + 1]);
    assert Holds(j[k + 1]);
  }

  /**
  Discarding an unreadable snapshot loses nothing: the pin was never touched, and the unit
  launches the same binary as before, moments inside an env edit aside.
  */
  lemma {:induction false} UnreadableSnapshotIsInert(j: seq<Moment>, i: nat, k: nat)
    requires SoundJournal(j) && i <= k < |j|
    requires forall m | i <= m <= k :: !Readable(j[m].disk)
    ensures j[k].disk.state.pin == j[i].disk.state.pin
    ensures j[i].edit.None? && j[k].edit.None? ==> BinaryOf(j[k].disk.env) == BinaryOf(j[i].disk.env)
    decreases k
  {
    if i < k {
      UnreadableSnapshotIsInert(j, i, k - 1);
      assert Disciplined(j[k - 1], j[k]);
      assert Holds(j[i]) && Holds(j[k]);
    }
  }

  /**
  Flip and restore: the unit launches the recorded binary again if and only if the env file of
  before the upgrade did, or there was none and the upgrade kept the binary. An env file that
  did not exist is created by the flip and not removed by the restore.
  */
  lemma RollbackRelaunchesExactlyWhen(env: Option<seq<string>>, recorded: string, desired: string)
    ensures
      var lines := if env.Some? then env.value else [];
      var flipped := Some(EnvFile.SetVar(lines, EnvFile.BINARY_KEY, Some(desired)));
      BinaryOf(RestoredEnv(flipped, env)) == Some(recorded) <==>
        BinaryOf(env) == Some(recorded) || (env.None? && desired == recorded)
  {
    var lines := if env.Some? then env.value else [];
    EnvFile.SetThenLookup(lines, EnvFile.BINARY_KEY, Some(desired));
  }

  // ----- recovery as a function of the disk -----

  /** What an undisturbed recovery makes of a disk. */
  function Recovered(d: Disk): Disk {
    if Undoable(d) then
      d.(settings := Restored(d.settings, d.snap.value.settings), env := RestoredEnv(d.env, d.snap.value.env), snap := None)
    else d.(snap := None)
  }

  lemma MergeIsNeutralExactlyWhen<K(!new), V(!new)>(cur: map<K, V>, t: map<K, V>)
    ensures cur + t == cur <==> forall n | n in t :: n in cur && cur[n] == t[n]
  {
    if forall n | n in t :: n in cur && cur[n] == t[n] {
      assert (cur + t).Keys == cur.Keys;
    } else {
      var n :| n in t && !(n in cur && cur[n] == t[n]);
      assert (cur + t)[n] == t[n];
    }
  }

  /**
  The settings on disk, those of a recorded revision included, survive the next recovery if and
  only if there is nothing to undo or every captured entry still is as the snapshot has it. A
  check-in that goes on after a failed recovery therefore loses what it changed.
  */
  lemma SettingsSurviveExactlyWhen(d: Disk)
    ensures Recovered(d).settings == d.settings <==>
      || !Undoable(d)
      || (&& (forall f | f in SETTING_FILES && f in d.snap.value.settings.files ::
                f in d.settings.files && d.settings.files[f] == d.snap.value.settings.files[f])
          && (forall f | f in SETTING_DIRS && f in d.snap.value.settings.dirs ::
                f in d.settings.dirs && d.settings.dirs[f] == d.snap.value.settings.dirs[f]))
  {
    if Undoable(d) {
      var files, dirs := Take(d.snap.value.settings.files, SETTING_FILES), Take(d.snap.value.settings.dirs, SETTING_DIRS);
      MergeIsNeutralExactlyWhen(d.settings.files, files);
      MergeIsNeutralExactlyWhen(d.settings.dirs, dirs);
      assert forall f :: f in files <==> f in SETTING_FILES && f in d.snap.value.settings.files;
      assert forall f :: f in dirs <==> f in SETTING_DIRS && f in d.snap.value.settings.dirs;
    }
  }

  /** What a removal that died may leave of a snapshot: some of its files, and some entries of its directories. */
  ghost predicate PartOf(cut: Snapshot, whole: Snapshot) {
    && (forall f | f in cut.settings.files ::
          f in whole.settings.files && cut.settings.files[f] == whole.settings.files[f])
    && (forall d | d in cut.settings.dirs ::
          d in whole.settings.dirs && forall n | n in cut.settings.dirs[d] ::
            n in whole.settings.dirs[d] && cut.settings.dirs[d][n] == whole.settings.dirs[d][n])
    && (cut.env == whole.env || cut.env == None)
    && (cut.meta == whole.meta || cut.meta == None)
  }

  /**
  Removing the snapshot is one step in the runs modelled here. A removal of a restored or
  committed snapshot that dies half way is harmless if and only if the pin is recorded, meta.json
  is gone, or every captured directory that is left is still whole. Then recovery drops the rest
  and changes nothing; otherwise it brings back directories without the entries already removed.
  */
  lemma CutRemovalIsHarmlessExactlyWhen(d: Disk, cut: Snapshot)
    requires Readable(d) && PartOf(cut, d.snap.value)
    requires Committed(d) || IsRestored(d)
    ensures Recovered(d.(snap := Some(cut))) == d.(snap := None) <==>
      || Committed(d)
      || cut.meta == None
      || forall n | n in SETTING_DIRS && n in cut.settings.dirs :: cut.settings.dirs[n] == d.snap.value.settings.dirs[n]
  {
    var e, whole := d.(snap := Some(cut)), d.snap.value;
    if !Committed(d) && cut.meta.Some? {
      SettingsSurviveExactlyWhen(d);
      SettingsSurviveExactlyWhen(e);
      assert Undoable(d) && Undoable(e);
    }
  }

  /** The death of an edit that had not written the binary is final: recovery has nothing to undo. */
  lemma DeathInEditIsFinal(m: Moment)
    requires Holds(m) && !Safe(m.disk, m.base)
    ensures m.edit.Some? && !Undoable(m.disk)
    ensures Recovered(m.disk).env == m.disk.env && !Consistent(Recovered(m.disk))
  {
    SafeExactlyWhen(m);
  }

  /** The pin in agent state after `k` of commit's three pin writes. */
  function PinAfter(previous: Pin, desired: Pin, k: nat): Pin {
    if k == 0 then previous
    else if k == 1 then previous.(source := desired.source)
    else if k == 2 then Pin(desired.source, desired.version, previous.binary)
    else desired
  }

  /** The check-in's drift test between the server's runtime and the recorded one. */
  predicate RuntimeDirty(desired: Pin, desiredDir: string, pin: Pin, dir: string, viaUiDiffers: bool) {
    || desired.source != pin.source
    || (&& desired.source == "VERSION"
        && (desired.version != pin.version || (desiredDir != "" && desiredDir != dir) || viaUiDiffers))
  }

  /**
  Only the binary is crash-atomic, the pin as a whole is not. Cut after `k` pin writes, the
  recorded pin is the old or the new one if and only if no field is left half way.
  */
  lemma PinIsAtomicExactlyWhen(previous: Pin, desired: Pin, k: nat)
    requires k <= 3
    ensures PinAfter(previous, desired, k) == previous || PinAfter(previous, desired, k) == desired <==>
      || k == 0
      || k == 3
      || (k == 1 && (previous.source == desired.source ||
                     (previous.version == desired.version && previous.binary == desired.binary)))
      || (k == 2 && (previous.binary == desired.binary ||
                     (previous.source == desired.source && previous.version == desired.version)))
  {
  }

  /**
  A crash after the version write and before the binary write leaves the old binary running
  under the new source and version; once the download directory is recorded too, or was the
  same before, the drift test does not report it.
  */
  lemma TornPinGoesUnnoticed(dir: string)
    ensures
      var previous := Pin("SYSTEM", "", "/usr/share/logstash/bin/logstash");
      var desired := Pin("VERSION", "9.5.0", "/opt/logstash-9.5.0/bin/logstash");
      var torn := PinAfter(previous, desired, 2);
      torn != previous && torn != desired && torn.binary == previous.binary && !RuntimeDirty(desired, dir, torn, dir, false)
  {
  }

  /** While the binary is still the old one, drift is reported exactly in these cases. */
  lemma DriftIsReportedExactlyWhen(previous: Pin, desired: Pin, k: nat, desiredDir: string, dir: string, viaUiDiffers: bool)
    requires k < 3
    ensures RuntimeDirty(desired, desiredDir, PinAfter(previous, desired, k), dir, viaUiDiffers) <==>
      || (k == 0 && previous.source != desired.source)
      || (desired.source == "VERSION" &&
            ((k <= 1 && previous.version != desired.version) || (desiredDir != "" && desiredDir != dir) || viaUiDiffers))
  {
  }
}
