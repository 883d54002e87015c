/**
The runtime upgrade transaction of the controller: prepare, snapshot, flip of the launched
binary, commit or rollback, and recovery after a crash.

`Host.journal` records every durable moment, one per atomic disk write. A crash loses the
process but not the disk, so it is modelled as cutting the journal back to one of its moments.
*/
module RuntimeUpgrade {
  import opened Options
  import opened RuntimeDisk
  import EnvFile

  /** The `logstash_runtime` part of a policy response. */
  datatype Runtime = Runtime(source: string, version: string, downloadDir: string)

  /** What `prepare_runtime_upgrade` tells the caller. */
  datatype Prep =
    | Unchanged
    | Held
    | Failed
    | Changed(previous: Pin, desired: Pin, downloadDir: string)

  /** Answers of the environment during prepare. */
  datatype PrepareAnswers = PrepareAnswers(
    treePresent: bool,
    inflight: bool,
    resolved: Option<string>,
    copies: nat,
    partials: seq<Snapshot>,
    rmOk: bool)

  /** What a file, a directory and the env file pass through on disk while they are being replaced. */
  datatype Torn = Torn(
    files: seq<Option<Content>>,
    dirs: seq<Option<map<string, Content>>>,
    envs: seq<Option<seq<string>>>)

  /** Answers of the environment during a rollback: copies that succeed, restart, removal of the snapshot. */
  datatype UndoAnswers = UndoAnswers(copies: nat, torn: Torn, restartOk: bool, rmOk: bool)

  /** How often each externally visible action was taken. */
  datatype Tally = Tally(
    flips: nat, restarts: nat, commits: nat, rollbacks: nat,
    keystoreWrites: nat, pipelineWrites: nat, snmpWrites: nat, revisionWrites: nat)

  /** A pinned version that is not on disk yet, or still being downloaded, has to be waited for. */
  predicate Waits(runtime: Option<Runtime>, a: PrepareAnswers) {
    && runtime.Some? && runtime.value.source == "VERSION" && runtime.value.version != ""
    && (a.inflight || !a.treePresent)
  }

  /**
  Which of the four outcomes a prepare has: it holds while the version is not there, fails
  without a binary or without a complete snapshot of its own, and has nothing to do if the pin
  is recorded already.
  */
  function Outcome(runtime: Option<Runtime>, a: PrepareAnswers, d: Disk): Prep {
    if runtime.None? then Unchanged
    else if Waits(runtime, a) then Held
    else if a.resolved.None? then Failed
    else
      var desired := Pin(runtime.value.source, runtime.value.version, a.resolved.value);
      if d.state.pin == desired then Unchanged
      else if d.snap.Some? || a.copies < CaptureSteps(d) then Failed
      else Changed(d.state.pin, desired, runtime.value.downloadDir)
  }

  /** Nothing goes wrong during a rollback. */
  predicate Cooperates(u: UndoAnswers) {
    u.copies >= RESTORE_STEPS && u.restartOk && u.rmOk
  }

  function ReplaceOne<K, V>(m: map<K, V>, k: K, v: Option<V>): map<K, V> {
    if v.Some? then m[k := v.value] else m - {k}
  }

  /** The moment in which an edit of the env file of `d` is caught. */
  function Caught(d: Disk, b: Base, e: Edit): Moment {
    Moment(d.(env := Some(EnvFile.Written(e.lines, e.k, e.c))), b, Some(e))
  }

  /** `m` is the disk `d`, or that disk with the env file in the middle of an edit. */
  ghost predicate InEdit(m: Moment, d: Disk, b: Base) {
    m.base == b && m.disk == d.(env := m.disk.env) && (m.edit.None? ==> m.disk == d)
  }

  /** The last component of a path, and what is before it. */
  function Name(path: string): (name: string)
    ensures |name| <= |path|
  {
    if path == "" || path[|path| - 1] == '/' then "" else Name(path[..|path| - 1]) + [path[|path| - 1]]
  }

  function Parent(path: string): string {
    var n := |Name(path)|;
    if n == |path| then "." else if n + 1 == |path| then "/" else path[..|path| - n - 1]
  }

  /** The directory recorded for a binary. */
  function BinDir(binary: string): string {
    if Name(binary) in {"logstash", "logstash.bat"} then Parent(binary) else binary
  }

  /** Agent state after a commit. */
  function CommittedState(st: AgentState, prep: Prep): AgentState
    requires prep.Changed?
  {
    st.(pin := prep.desired,
        downloadDir := if prep.downloadDir != "" then prep.downloadDir else st.downloadDir,
        binaryPath := if BinDir(prep.desired.binary) != "" then BinDir(prep.desired.binary) else st.binaryPath,
        resolved := if prep.desired.source == "VERSION" && prep.desired.version != "" then prep.desired.version
                    else if prep.desired.source == "SYSTEM" then ""
                    else st.resolved)
  }

  /** Agent state `later` has the pin, and what goes with it, on top of `st`. */
  ghost predicate Recorded(st: AgentState, later: AgentState, pin: Pin, downloadDir: string) {
    && later.pin == pin
    && later.downloadDir == (if downloadDir == "" then st.downloadDir else downloadDir)
    && (pin.source == "VERSION" && pin.version != "" ==> later.resolved == pin.version)
    && (pin.source == "SYSTEM" ==> later.resolved == "")
    && (pin.source != "SYSTEM" && (pin.source != "VERSION" || pin.version == "") ==> later.resolved == st.resolved)
    && later.revision == st.revision && later.password == st.password
    && later.keystore == st.keystore && later.pipelines == st.pipelines
    && later.snmpKeystore == st.snmpKeystore && later.snmpPipelines == st.snmpPipelines
  }

  /** The directory recorded with a binary is the one it lies in; anything else is recorded as it is. */
  lemma BinDirIs(dir: string, name: string)
    requires '/' !in name && name != "" && dir != ""
    ensures BinDir(dir + "/" + name) == if name == "logstash" || name == "logstash.bat" then dir else dir + "/" + name
  {
    NameIs(dir + "/", name);
    assert dir + "/" + name == (dir + "/") + name;
  }

  lemma {:induction false} NameIs(prefix: string, name: string)
    requires '/' !in name && prefix != "" && prefix[|prefix| - 1] == '/'
    ensures Name(prefix + name) == name
  {
    if name == "" {
      assert prefix + name == prefix;
    } else {
      NameIs(prefix, name[..|name| - 1]);
      assert (prefix + name)[..|prefix + name| - 1] == prefix + name[..|name| - 1];
    }
  }

  class Host {
    var disk: Disk
    var base: Base
    var journal: seq<Moment>
    var tally: Tally

    ghost predicate Valid()
      reads this
    {
      && SoundJournal(journal)
      && journal[|journal| - 1].disk == disk && journal[|journal| - 1].base == base
      && Safe(disk, base)
    }

    /** A changed upgrade whose readable snapshot is on disk and whose pin is not recorded yet. */
    ghost predicate Pending(prep: Prep)
      reads this
    {
      prep.Changed? ==>
        && Readable(disk)
        && disk.snap.value.meta == Some(Meta(prep.previous, prep.desired, prep.downloadDir))
        && disk.state.pin == prep.previous
        && prep.previous != prep.desired
    }

    constructor (d: Disk)
      requires d.snap.None? && Consistent(d)
      ensures Valid()
      ensures disk == d && journal == [Moment(disk, base, None)] && tally == Tally(0, 0, 0, 0, 0, 0, 0, 0)
    {
      disk := d;
      base := Base(d.settings, d.env);
      journal := [Moment(d, Base(d.settings, d.env), None)];
      tally := Tally(0, 0, 0, 0, 0, 0, 0, 0);
    }

    /** One atomic disk write. */
    method Put(d: Disk, b: Base)
      requires Valid()
      requires Safe(d, b) && Disciplined(Moment(disk, base, None), Moment(d, b, None))
      modifies this`disk, this`base, this`journal
      ensures Valid()
      ensures disk == d && base == b
      ensures journal == old(journal) + [Moment(d, b, None)]
    {
      AppendKeepsSound(journal, Moment(d, b, None));
      disk, base := d, b;
      journal := journal + [Moment(d, b, None)];
    }

    /** The process dies right after the `k`-th durable moment, a safe one. */
    method Crash(k: nat)
      requires Valid() && k < |journal| && Safe(journal[k].disk, journal[k].base)
      modifies this`disk, this`base, this`journal
      ensures Valid()
      ensures journal == old(journal)[..k + 1]
      ensures disk == old(journal)[k].disk && base == old(journal)[k].base
    {
      disk, base := journal[k].disk, journal[k].base;
      journal := journal[..k + 1];
    }

    /** A write below the settings directory. */
    method WriteSettings(s: Settings)
      requires Valid()
      modifies this`disk, this`base, this`journal
      ensures Valid() && old(journal) <= journal
      ensures disk == old(disk).(settings := s) && base == old(base)
    {
      Put(disk.(settings := s), base);
    }

    /** A write of the env file that an uncommitted snapshot can undo. */
    method WriteEnv(env: Option<seq<string>>)
      requires Valid() && Readable(disk) && !Committed(disk)
      modifies this`disk, this`base, this`journal
      ensures Valid() && old(journal) <= journal
      ensures disk == old(disk).(env := env) && base == old(base)
    {
      Put(disk.(env := env), base);
    }

    /**
    `_set_env_file_var` for a variable other than the launched binary, and with `rewrite` the
    editor of LOGSTASH_KEYSTORE_PASS, which rewrites the file even if nothing changes. The file
    passes through `cuts`, the lines and characters written so far.
    */
    method WriteEnvVar(key: string, value: Option<string>, rewrite: bool, cuts: seq<(nat, nat)>)
      requires Valid() && key != EnvFile.BINARY_KEY && '=' !in key
      modifies this`disk, this`base, this`journal
      ensures Valid() && old(journal) <= journal
      ensures disk == old(disk).(env := disk.env) && base == old(base)
      ensures BinaryOf(disk.env) == BinaryOf(old(disk).env)
      ensures EnvFile.Edited(LinesOf(old(disk).env), LinesOf(disk.env), key, value)
      // on the way there, the file holds the beginning of what it ends up with
      ensures forall i | |old(journal)| <= i < |journal| && journal[i].edit.Some? ::
                Some(journal[i].edit.value.lines) == disk.env
    {
      var lines := LinesOf(disk.env);
      if value.None? && (disk.env.None? || (!rewrite && EnvFile.WithoutKey(lines, key) == lines)) {
        EnvFile.NothingToRemove(lines, key);
        return;
      }
      EnvFile.SetVarEdits(lines, key, value);
      EnvFile.OtherKeysKept(lines, key, value, EnvFile.BINARY_KEY);
      EditEnv(EnvFile.SetVar(lines, key, value), cuts);
    }

    /** An in-place rewrite of the env file that keeps the launched binary once it is complete. */
    method EditEnv(lines: seq<string>, cuts: seq<(nat, nat)>)
      requires Valid() && BinaryOf(Some(lines)) == BinaryOf(disk.env)
      modifies this`disk, this`base, this`journal
      ensures Valid() && old(journal) <= journal
      ensures disk == old(disk).(env := Some(lines)) && base == old(base)
      ensures forall i | |old(journal)| <= i < |journal| && journal[i].edit.Some? :: journal[i].edit.value.lines == lines
    {
      for i := 0 to |cuts|
        invariant Editing(lines) && old(journal) <= journal
        invariant disk == old(disk) && base == old(base)
        invariant forall k | |old(journal)| <= k < |journal| && journal[k].edit.Some? :: journal[k].edit.value.lines == lines
      {
        Catch(Edit(lines, cuts[i].0, cuts[i].1));
      }
      Complete(lines);
    }

    /** The env file is being rewritten to `lines`; `disk` is as it was before. */
    ghost predicate Editing(lines: seq<string>)
      reads this
    {
      && SoundJournal(journal)
      && InEdit(journal[|journal| - 1], disk, base)
      && Safe(disk.(env := Some(lines)), base)
      && BinaryOf(Some(lines)) == BinaryOf(disk.env)
    }

    /** One state that the file passes through. */
    method Catch(e: Edit)
      requires Editing(e.lines)
      modifies this`journal
      ensures Editing(e.lines)
      ensures journal == old(journal) + [Caught(disk, base, e)]
    {
      var m := Caught(disk, base, e);
      assert m.disk.(env := Some(e.lines)) == disk.(env := Some(e.lines));
      EditIsDisciplined(journal[|journal| - 1], m.disk.env, Some(e));
      AppendKeepsSound(journal, m);
      journal := journal + [m];
    }

    /** The rewrite is complete. */
    method Complete(lines: seq<string>)
      requires Editing(lines)
      modifies this`disk, this`journal
      ensures Valid() && disk == old(disk).(env := Some(lines))
      ensures journal == old(journal) + [Moment(disk, base, None)]
    {
      EditIsDisciplined(journal[|journal| - 1], Some(lines), None);
      disk := disk.(env := Some(lines));
      AppendKeepsSound(journal, Moment(disk, base, None));
      journal := journal + [Moment(disk, base, None)];
    }

    /** `ensure_env_jvm_opts`: LS_JVM_OPTS names jvm.options exactly while that file is there. */
    method EnsureJvmOpts(path: string, cuts: seq<(nat, nat)>)
      requires Valid()
      modifies this`disk, this`base, this`journal
      ensures Valid() && old(journal) <= journal
      ensures disk == old(disk).(env := disk.env) && base == old(base)
      ensures BinaryOf(disk.env) == BinaryOf(old(disk).env)
      ensures EnvFile.Edited(LinesOf(old(disk).env), LinesOf(disk.env), "LS_JVM_OPTS",
                             if JvmOptions in disk.settings.files then Some(path) else None)
    {
      WriteEnvVar(EnvFile.JVM_OPTS_KEY, if JvmOptions in disk.settings.files then Some(path) else None, false, cuts);
    }

    /** A write inside a snapshot directory that has no meta.json yet. */
    method GrowSnapshot(s: Snapshot)
      requires Valid() && disk.snap.Some? && disk.snap.value.meta.None? && s.meta.None?
      modifies this`disk, this`base, this`journal
      ensures Valid() && old(journal) <= journal
      ensures disk == old(disk).(snap := Some(s)) && base == old(base)
    {
      Put(disk.(snap := Some(s)), base);
    }

    /** `update_state` of a field other than the pin. */
    method UpdateState(st: AgentState)
      requires Valid() && st.pin == disk.state.pin
      modifies this`disk, this`base, this`journal
      ensures Valid() && old(journal) <= journal
      ensures disk == old(disk).(state := st) && base == old(base)
      ensures journal == old(journal) + [Moment(disk, base, None)]
    {
      Put(disk.(state := st), base);
    }

    /**
    `update_state` of one pin field under a readable snapshot, after the flip. The recorded
    binary may change only when that completes the desired pin.
    */
    method UpdatePin(desired: Pin, pin: Pin)
      requires Valid() && Readable(disk) && disk.snap.value.meta.value.desired == desired
      requires BinaryOf(disk.env) == Some(desired.binary)
      requires pin == desired || pin.binary == disk.state.pin.binary
      requires disk.state.pin == desired ==> pin == desired
      modifies this`disk, this`base, this`journal
      ensures Valid() && old(journal) <= journal
      ensures disk == old(disk).(state := old(disk).state.(pin := pin)) && base == old(base)
      ensures journal == old(journal) + [Moment(disk, base, None)]
    {
      Put(disk.(state := disk.state.(pin := pin)), base);
    }

    /** `shutil.rmtree(snap, ignore_errors=True)`: removes the snapshot or leaves it as it is. */
    method RemoveSnapshot(rmOk: bool)
      requires Valid() && disk.snap.Some?
      requires Readable(disk) ==> Committed(disk) || (IsRestored(disk) && Consistent(disk))
      modifies this`disk, this`base, this`journal
      ensures Valid() && old(journal) <= journal
      ensures disk == if rmOk then old(disk).(snap := None) else old(disk)
      ensures journal == old(journal) + if rmOk then [Moment(disk, base, None)] else []
      ensures base == old(base)
    {
      if rmOk {
        Put(disk.(snap := None), base);
      }
    }

    /** A copy into the snapshot, with the half-done states it passes through. */
    method CopyInto(s: Snapshot, partials: seq<Snapshot>)
      requires Valid() && disk.snap.Some? && disk.snap.value.meta.None? && s.meta.None?
      modifies this`disk, this`base, this`journal
      ensures Valid() && old(journal) <= journal
      ensures disk == old(disk).(snap := Some(s)) && base == old(base)
    {
      for i := 0 to |partials|
        invariant Valid() && old(journal) <= journal && base == old(base)
        invariant disk == old(disk).(snap := disk.snap) && disk.snap.Some? && disk.snap.value.meta.None?
      {
        GrowSnapshot(partials[i].(meta := None));
      }
      GrowSnapshot(s);
    }

    /**
    `_write_runtime_snapshot`: refuses an existing snapshot; otherwise creates the directory,
    copies files, directories and env, and writes meta.json last. `copies` steps succeed.
    */
    method WriteRuntimeSnapshot(desired: Pin, downloadDir: string, copies: nat, partials: seq<Snapshot>)
      returns (ok: bool)
      requires Valid()
      requires disk.state.pin != desired
      modifies this`disk, this`base, this`journal
      ensures Valid() && old(journal) <= journal
      ensures disk == old(disk).(snap := disk.snap)
      ensures old(disk).snap.Some? ==> !ok && disk == old(disk) && base == old(base)
      ensures ok ==>
        && base == Base(disk.settings, disk.env)
        && disk.snap == Some(Snapshot(Capture(disk.settings), disk.env, Some(Meta(disk.state.pin, desired, downloadDir))))
      ensures !ok && old(disk).snap.None? ==> !Readable(disk)
      ensures ok <==> old(disk).snap.None? && copies >= CaptureSteps(disk)
    {
      ghost var steps := CaptureSteps(disk);
      if disk.snap.Some? || copies == 0 {
        return false;
      }
      var left: nat := copies - 1;
      var files, dirs := disk.settings.files, disk.settings.dirs;
      Put(disk.(snap := Some(EMPTY_SNAPSHOT)), Base(disk.settings, disk.env));
      TakeAll(files, SETTING_FILES);
      TakeAll(dirs, SETTING_DIRS);
      assert SETTING_FILES[..|SETTING_FILES|] == SETTING_FILES && SETTING_DIRS[..|SETTING_DIRS|] == SETTING_DIRS;
      for i := 0 to |SETTING_FILES|
        invariant Valid() && old(journal) <= journal
        invariant disk == old(disk).(snap := Some(Snapshot(Settings(Take(files, SETTING_FILES[..i]), map[]), None, None)))
        invariant base == Base(disk.settings, disk.env)
        invariant left + 1 + Present(files.Keys, SETTING_FILES[..i]) == copies
      {
        var name := SETTING_FILES[i];
        TakeStep(files, SETTING_FILES, i);
        PresentStep(files.Keys, SETTING_FILES, i);
        PresentGrows(files.Keys, SETTING_FILES, i + 1);
        if name in files {
          if left == 0 {
            return false;
          }
          left := left - 1;
          var s := disk.snap.value.settings;
          CopyInto(disk.snap.value.(settings := s.(files := s.files[name := files[name]])), partials);
        }
      }
      for i := 0 to |SETTING_DIRS|
        invariant Valid() && old(journal) <= journal
        invariant disk == old(disk).(snap := Some(Snapshot(
                    Settings(Take(files, SETTING_FILES), Take(dirs, SETTING_DIRS[..i])), None, None)))
        invariant base == Base(disk.settings, disk.env)
        invariant left + 1 + Present(files.Keys, SETTING_FILES) + Present(dirs.Keys, SETTING_DIRS[..i]) == copies
      {
        var name := SETTING_DIRS[i];
        TakeStep(dirs, SETTING_DIRS, i);
        PresentStep(dirs.Keys, SETTING_DIRS, i);
        PresentGrows(dirs.Keys, SETTING_DIRS, i + 1);
        if name in dirs {
          if left == 0 {
            return false;
          }
          left := left - 1;
          var s := disk.snap.value.settings;
          CopyInto(disk.snap.value.(settings := s.(dirs := s.dirs[name := dirs[name]])), partials);
        }
      }
      assert left + steps == copies + if disk.env.Some? then 2 else 1;
      if disk.env.Some? {
        if left == 0 {
          return false;
        }
        left := left - 1;
        CopyInto(disk.snap.value.(env := disk.env), partials);
      }
      assert left + steps == copies + 1;
      if left == 0 {
        return false;
      }
      Put(disk.(snap := Some(disk.snap.value.(meta := Some(Meta(disk.state.pin, desired, downloadDir))))), base);
      return true;
    }

    /** A settings file passes through half-written states. */
    method TearFile(name: FileName, through: seq<Option<Content>>)
      requires Valid()
      modifies this`disk, this`base, this`journal
      ensures Valid() && old(journal) <= journal && base == old(base)
      ensures disk == old(disk).(settings := old(disk).settings.(files := disk.settings.files))
      ensures disk.settings.files - {name} == old(disk).settings.files - {name}
    {
      for i := 0 to |through|
        invariant Valid() && old(journal) <= journal && base == old(base)
        invariant disk == old(disk).(settings := old(disk).settings.(files := disk.settings.files))
        invariant disk.settings.files - {name} == old(disk).settings.files - {name}
      {
        var files := disk.settings.files;
        WriteSettings(disk.settings.(files := ReplaceOne(files, name, through[i])));
      }
    }

    /** A directory passes through being partly removed, absent and partly copied. */
    method TearDir(name: DirName, through: seq<Option<map<string, Content>>>)
      requires Valid()
      modifies this`disk, this`base, this`journal
      ensures Valid() && old(journal) <= journal && base == old(base)
      ensures disk == old(disk).(settings := old(disk).settings.(dirs := disk.settings.dirs))
      ensures disk.settings.dirs - {name} == old(disk).settings.dirs - {name}
    {
      for i := 0 to |through|
        invariant Valid() && old(journal) <= journal && base == old(base)
        invariant disk == old(disk).(settings := old(disk).settings.(dirs := disk.settings.dirs))
        invariant disk.settings.dirs - {name} == old(disk).settings.dirs - {name}
      {
        var dirs := disk.settings.dirs;
        WriteSettings(disk.settings.(dirs := ReplaceOne(dirs, name, through[i])));
      }
    }

    /** The env file passes through half-written states, under a snapshot that can undo them. */
    method TearEnv(through: seq<Option<seq<string>>>)
      requires Valid() && Readable(disk) && !Committed(disk)
      modifies this`disk, this`base, this`journal
      ensures Valid() && old(journal) <= journal && base == old(base)
      ensures disk == old(disk).(env := disk.env)
    {
      for i := 0 to |through|
        invariant Valid() && old(journal) <= journal && base == old(base)
        invariant disk == old(disk).(env := disk.env)
      {
        WriteEnv(through[i]);
      }
    }

    /** First loop of `_restore_runtime_snapshot`: every captured file is copied back. */
    method RestoreFiles(copies: nat, torn: Torn) returns (ok: bool, left: nat)
      requires Valid() && Readable(disk)
      modifies this`disk, this`base, this`journal
      ensures Valid() && old(journal) <= journal && base == old(base)
      ensures disk == old(disk).(settings := old(disk).settings.(files := disk.settings.files))
      ensures ok ==> disk.settings.files == old(disk).settings.files + Take(disk.snap.value.settings.files, SETTING_FILES)
      ensures AgreeOutside(old(disk).settings.files, disk.settings.files,
                           Take(disk.snap.value.settings.files, SETTING_FILES).Keys)
      ensures copies >= |SETTING_FILES| ==> ok && left >= copies - |SETTING_FILES|
    {
      left := copies;
      var files, before := disk.snap.value.settings.files, disk.settings;
      TakeAll(files, SETTING_FILES);
      MergeNothing(before.files);
      for i := 0 to |SETTING_FILES|
        invariant Valid() && old(journal) <= journal && base == old(base)
        invariant disk == old(disk).(settings := before.(files := before.files + Take(files, SETTING_FILES[..i])))
        invariant left + i >= copies
      {
        var name := SETTING_FILES[i];
        TakeStep(files, SETTING_FILES, i);
        if name in files {
          TearFile(name, torn.files);
          if left == 0 {
            TornAgrees(before.files, files, SETTING_FILES, i, disk.settings.files);
            return false, left;
          }
          left := left - 1;
          MergeStep(before.files, Take(files, SETTING_FILES[..i]), disk.settings.files, name, files[name]);
          WriteSettings(disk.settings.(files := disk.settings.files[name := files[name]]));
        }
      }
      return true, left;
    }

    /** Second loop: every captured directory is removed and copied back. */
    method RestoreDirs(copies: nat, torn: Torn) returns (ok: bool, left: nat)
      requires Valid() && Readable(disk)
      modifies this`disk, this`base, this`journal
      ensures Valid() && old(journal) <= journal && base == old(base)
      ensures disk == old(disk).(settings := old(disk).settings.(dirs := disk.settings.dirs))
      ensures ok ==> disk.settings.dirs == old(disk).settings.dirs + Take(disk.snap.value.settings.dirs, SETTING_DIRS)
      ensures AgreeOutside(old(disk).settings.dirs, disk.settings.dirs,
                           Take(disk.snap.value.settings.dirs, SETTING_DIRS).Keys)
      ensures copies >= |SETTING_DIRS| ==> ok && left >= copies - |SETTING_DIRS|
    {
      left := copies;
      var dirs, before := disk.snap.value.settings.dirs, disk.settings;
      TakeAll(dirs, SETTING_DIRS);
      MergeNothing(before.dirs);
      for i := 0 to |SETTING_DIRS|
        invariant Valid() && old(journal) <= journal && base == old(base)
        invariant disk == old(disk).(settings := before.(dirs := before.dirs + Take(dirs, SETTING_DIRS[..i])))
        invariant left + i >= copies
      {
        var name := SETTING_DIRS[i];
        TakeStep(dirs, SETTING_DIRS, i);
        if name in dirs {
          TearDir(name, torn.dirs);
          if left == 0 {
            TornAgrees(before.dirs, dirs, SETTING_DIRS, i, disk.settings.dirs);
            return false, left;
          }
          left := left - 1;
          MergeStep(before.dirs, Take(dirs, SETTING_DIRS[..i]), disk.settings.dirs, name, dirs[name]);
          WriteSettings(disk.settings.(dirs := disk.settings.dirs[name := dirs[name]]));
        }
      }
      return true, left;
    }

    /**
    `_restore_runtime_snapshot`: captured files, then captured directories, then the env file.
    `copies` of them succeed before an error; any of them may be caught half done.
    */
    method RestoreRuntimeSnapshot(copies: nat, torn: Torn) returns (ok: bool)
      requires Valid() && Readable(disk) && !Committed(disk)
      modifies this`disk, this`base, this`journal
      ensures Valid() && old(journal) <= journal
      ensures base == old(base) && disk.snap == old(disk).snap && disk.state == old(disk).state
      ensures disk.registry == old(disk).registry
      ensures ok ==>
        && disk.settings == Restored(old(disk).settings, disk.snap.value.settings)
        && disk.env == RestoredEnv(old(disk).env, disk.snap.value.env)
      ensures TouchedOnlyCaptured(old(disk).settings, disk.settings, disk.snap.value.settings)
      ensures copies >= RESTORE_STEPS ==> ok
    {
      var left: nat;
      ok, left := RestoreFiles(copies, torn);
      if !ok {
        return false;
      }
      ok, left := RestoreDirs(left, torn);
      if !ok {
        return false;
      }
      var env := disk.snap.value.env;
      if env.Some? {
        TearEnv(torn.envs);
        if left == 0 {
          return false;
        }
        WriteEnv(env);
      }
      return true;
    }

    /** `prepare_runtime_upgrade` on a managed or simulate instance. */
    method PrepareRuntimeUpgrade(runtime: Option<Runtime>, a: PrepareAnswers) returns (prep: Prep)
      requires Valid()
      modifies this`disk, this`base, this`journal
      ensures Valid() && old(journal) <= journal
      ensures disk == old(disk).(snap := disk.snap)
      ensures Pending(prep)
      ensures prep.Changed? ==>
        && old(disk).snap.None? && base == Base(disk.settings, disk.env)
        && runtime.Some? && prep.desired.source == runtime.value.source && prep.desired.version == runtime.value.version
        && a.resolved == Some(prep.desired.binary)
        && (runtime.value.source == "VERSION" && runtime.value.version != "" ==> a.treePresent && !a.inflight)
      ensures old(disk).snap.Some? ==> disk == old(disk)
      ensures !prep.Changed? ==> !Readable(disk) || disk == old(disk)
      ensures prep == Outcome(runtime, a, old(disk))
      ensures prep.Failed? && a.rmOk ==> disk == old(disk)
      // told by request, answers and recorded pin: hold for the version, fail without a binary, nothing to do
      ensures runtime.None? ==> prep.Unchanged?
      ensures prep.Held? <==>
        && runtime.Some? && runtime.value.source == "VERSION" && runtime.value.version != ""
        && (a.inflight || !a.treePresent)
      ensures runtime.Some? && !prep.Held? && a.resolved == None ==> prep.Failed?
      ensures runtime.Some? && !prep.Held? && a.resolved.Some? ==>
        (prep.Unchanged? <==> disk.state.pin == Pin(runtime.value.source, runtime.value.version, a.resolved.value))
      ensures prep.Changed? ==> prep.previous == disk.state.pin && prep.downloadDir == runtime.value.downloadDir
      ensures runtime.Some? && !prep.Held? && a.resolved.Some? && old(disk).snap.Some? ==> prep.Unchanged? || prep.Failed?
    {
      if runtime.None? {
        return Unchanged;
      }
      var source, version := runtime.value.source, runtime.value.version;
      if source == "VERSION" && version != "" && (a.inflight || !a.treePresent) {
        return Held;
      }
      if a.resolved.None? {
        return Failed;
      }
      var desired := Pin(source, version, a.resolved.value);
      var previous := disk.state.pin;
      if previous == desired {
        return Unchanged;
      }
      var preexisting := disk.snap.Some?;
      var written := WriteRuntimeSnapshot(desired, runtime.value.downloadDir, a.copies, a.partials);
      if !written {
        if !preexisting && disk.snap.Some? {
          RemoveSnapshot(a.rmOk);
        }
        return Failed;
      }
      return Changed(previous, desired, runtime.value.downloadDir);
    }

    /**
    `flip_runtime_env`: rewrites the LOGSTASH_BINARY line. The env file may be caught with any
    of the contents in `through`, and a failing write leaves the last of them.
    */
    method FlipRuntimeEnv(prep: Prep, flipOk: bool, through: seq<Option<seq<string>>>)
      returns (ok: bool)
      requires Valid() && prep.Changed? && Pending(prep)
      modifies this`disk, this`base, this`journal, this`tally
      ensures Valid() && old(journal) <= journal
      ensures Pending(prep) && base == old(base)
      ensures disk == old(disk).(env := disk.env)
      ensures ok ==> EnvFile.Edited(LinesOf(old(disk).env), LinesOf(disk.env), "LOGSTASH_BINARY", Some(prep.desired.binary))
      ensures ok ==> BinaryOf(disk.env) == Some(prep.desired.binary)
      ensures ok <==> flipOk && prep.desired.binary != ""
      ensures tally == old(tally).(flips := old(tally).flips + if ok then 1 else 0)
    {
      if prep.desired.binary == "" {
        return false;
      }
      var lines := LinesOf(disk.env);
      TearEnv(through);
      if !flipOk {
        return false;
      }
      EnvFile.SetVarEdits(lines, EnvFile.BINARY_KEY, Some(prep.desired.binary));
      WriteEnv(Some(EnvFile.SetVar(lines, EnvFile.BINARY_KEY, Some(prep.desired.binary))));
      tally := tally.(flips := tally.flips + 1);
      return true;
    }

    /** The directories that belong to a pin, if they are known. */
    method RecordDirs(downloadDir: string, binDir: string)
      requires Valid()
      modifies this`disk, this`base, this`journal
      ensures Valid() && old(journal) <= journal && base == old(base)
      ensures disk == old(disk).(state := old(disk).state.(
                downloadDir := if downloadDir != "" then downloadDir else old(disk).state.downloadDir,
                binaryPath := if binDir != "" then binDir else old(disk).state.binaryPath))
      ensures forall i | |old(journal)| <= i < |journal| :: journal[i].disk.state.pin == disk.state.pin
    {
      if downloadDir != "" {
        UpdateState(disk.state.(downloadDir := downloadDir));
      }
      if binDir != "" {
        UpdateState(disk.state.(binaryPath := binDir));
      }
    }

    /** The pin writes of commit, in the order source, version, (download directory, binary directory,) binary. */
    method RecordPin(prep: Prep)
      requires Valid() && prep.Changed? && Pending(prep)
      requires BinaryOf(disk.env) == Some(prep.desired.binary) && prep.desired.binary != ""
      modifies this`disk, this`base, this`journal
      ensures Valid() && old(journal) <= journal && base == old(base)
      ensures disk == old(disk).(state := CommittedState(old(disk).state, prep).(resolved := old(disk).state.resolved))
      ensures forall i | |old(journal)| <= i < |journal| ::
                || journal[i].disk.state.pin == PinAfter(prep.previous, prep.desired, 1)
                || journal[i].disk.state.pin == PinAfter(prep.previous, prep.desired, 2)
                || journal[i].disk.state.pin == prep.desired
    {
      UpdatePin(prep.desired, disk.state.pin.(source := prep.desired.source));
      UpdatePin(prep.desired, disk.state.pin.(version := prep.desired.version));
      RecordDirs(prep.downloadDir, BinDir(prep.desired.binary));
      UpdatePin(prep.desired, disk.state.pin.(binary := prep.desired.binary));
    }

    /** The resolved version that goes with a pin. */
    method RecordResolved(pin: Pin)
      requires Valid()
      modifies this`disk, this`base, this`journal
      ensures Valid() && old(journal) <= journal && base == old(base)
      ensures disk == old(disk).(state := old(disk).state.(resolved :=
                if pin.source == "VERSION" && pin.version != "" then pin.version
                else if pin.source == "SYSTEM" then ""
                else old(disk).state.resolved))
    {
      if pin.source == "VERSION" && pin.version != "" {
        UpdateState(disk.state.(resolved := pin.version));
      } else if pin.source == "SYSTEM" {
        UpdateState(disk.state.(resolved := ""));
      }
    }

    /** The install registry notes the pin, if it lists the instance; a failure is ignored. */
    method Stamp(pin: Pin, ok: bool)
      requires Valid()
      modifies this`disk, this`base, this`journal
      ensures Valid() && old(journal) <= journal && base == old(base)
      ensures disk == old(disk).(registry := if old(disk).registry.Some? && ok then Some(pin) else old(disk).registry)
    {
      if disk.registry.Some? && ok {
        Put(disk.(registry := Some(pin)), base);
      }
    }

    /** `commit_runtime_upgrade`: record the pin, then the resolved version, then drop the snapshot. */
    method CommitRuntimeUpgrade(prep: Prep, stampOk: bool, rmOk: bool)
      requires Valid() && prep.Changed? && Pending(prep)
      requires BinaryOf(disk.env) == Some(prep.desired.binary) && prep.desired.binary != ""
      modifies this`disk, this`base, this`journal, this`tally
      ensures Valid() && old(journal) <= journal
      ensures disk.settings == old(disk).settings && disk.env == old(disk).env
      ensures disk.state == CommittedState(old(disk).state, prep)
      ensures Recorded(old(disk).state, disk.state, prep.desired, prep.downloadDir)
      ensures disk.snap == if rmOk then None else old(disk).snap
      ensures disk.registry == if old(disk).registry.Some? && stampOk then Some(prep.desired) else old(disk).registry
      ensures tally == old(tally).(commits := old(tally).commits + 1)
    {
      RecordPin(prep);
      RecordResolved(prep.desired);
      Stamp(prep.desired, stampOk);
      RemoveSnapshot(rmOk);
      tally := tally.(commits := tally.commits + 1);
    }

    /** `restart_logstash`: systemd decides. */
    method RestartLogstash(ok: bool) returns (restarted: bool)
      modifies this`tally
      ensures restarted == ok
      ensures tally == old(tally).(restarts := old(tally).restarts + 1)
    {
      tally := tally.(restarts := tally.restarts + 1);
      return ok;
    }

    /** `rollback_runtime_upgrade` for a changed upgrade. */
    method RollbackRuntimeUpgrade(restart: bool, u: UndoAnswers) returns (ok: bool)
      requires Valid() && Readable(disk) && !Committed(disk)
      modifies this`disk, this`base, this`journal, this`tally
      ensures Valid() && old(journal) <= journal
      ensures base == old(base) && disk.state == old(disk).state && disk.registry == old(disk).registry
      ensures disk.snap.None? ==> ok
      ensures disk.snap.Some? ==> disk.snap == old(disk).snap
      ensures ok ==>
        && disk.settings == Restored(old(disk).settings, Capture(base.settings))
        && Restored(disk.settings, Capture(base.settings)) == disk.settings
        && disk.env == base.env && Consistent(disk)
        && (disk.snap.None? <==> u.rmOk)
      // the whole configuration of before the upgrade is back, and nothing else moved
      ensures ok ==> BackAsBefore(disk.settings, base.settings) && OthersUntouched(old(disk).settings, disk.settings)
      ensures u.copies >= RESTORE_STEPS && (restart ==> u.restartOk) ==> ok
      ensures ok && restart ==> u.restartOk && tally.restarts == old(tally).restarts + 1
      ensures tally == old(tally).(
                rollbacks := old(tally).rollbacks + 1, restarts := tally.restarts)
      ensures old(tally).restarts <= tally.restarts <= old(tally).restarts + if restart then 1 else 0
    {
      tally := tally.(rollbacks := tally.rollbacks + 1);
      var restored := RestoreRuntimeSnapshot(u.copies, u.torn);
      if !restored {
        return false;
      }
      RestoreIsIdempotent(old(disk).settings, disk.snap.value.settings);
      RestoreBringsBack(old(disk).settings, base.settings);
      if restart {
        var restarted := RestartLogstash(u.restartOk);
        if !restarted {
          return false;
        }
      }
      RemoveSnapshot(u.rmOk);
      return true;
    }

    /**
    `recover_incomplete_runtime_upgrade`: run at start-up and before every check-in. Drops an
    unreadable or already committed snapshot, and rolls back any other one.
    */
    method Recover(u: UndoAnswers) returns (recovered: bool)
      requires Valid()
      modifies this`disk, this`base, this`journal, this`tally
      ensures Valid() && old(journal) <= journal
      ensures base == old(base) && disk.state == old(disk).state
      ensures disk.snap.None? || disk.snap == old(disk).snap
      ensures u.rmOk && u.restartOk && u.copies >= RESTORE_STEPS ==> disk == Recovered(old(disk))
      ensures old(!Readable(disk)) || old(Committed(disk)) ==>
                disk == old(disk).(snap := disk.snap)
      ensures old(Readable(disk)) && !old(Committed(disk)) && recovered ==>
        && disk.settings == Restored(old(disk).settings, Capture(base.settings))
        && disk.env == base.env
      // told by the recorded pin and the desired one
      ensures old(Readable(disk)) && recovered ==>
        if old(disk).state.pin == old(disk).snap.value.meta.value.desired
        then disk.settings == old(disk).settings && disk.env == old(disk).env
        else BackAsBefore(disk.settings, base.settings) && OthersUntouched(old(disk).settings, disk.settings)
      ensures old(Readable(disk)) && !old(Committed(disk)) && disk.snap.None? ==> recovered && u.restartOk
      ensures old(Readable(disk)) && !old(Committed(disk)) && recovered ==> tally.restarts == old(tally).restarts + 1
      ensures tally == old(tally).(rollbacks := tally.rollbacks, restarts := tally.restarts)
      ensures old(tally).rollbacks <= tally.rollbacks <= old(tally).rollbacks + 1
    {
      if disk.snap.None? {
        return false;
      }
      if disk.snap.value.meta.None? {
        RemoveSnapshot(u.rmOk);
        return false;
      }
      if disk.state.pin == disk.snap.value.meta.value.desired {
        RemoveSnapshot(u.rmOk);
        return true;
      }
      recovered := RollbackRuntimeUpgrade(true, u);
    }

    /** `finalize_runtime_upgrade`: commit if the restarted process answers, otherwise roll back. */
    method FinalizeRuntimeUpgrade(prep: Prep, restartOk: bool, healthy: bool, stampOk: bool, u: UndoAnswers)
      returns (kept: bool)
      requires Valid() && prep.Changed? && Pending(prep)
      requires BinaryOf(disk.env) == Some(prep.desired.binary) && prep.desired.binary != ""
      modifies this`disk, this`base, this`journal, this`tally
      ensures Valid() && old(journal) <= journal
      ensures kept <==> restartOk && healthy
      ensures kept ==> Consistent(disk)
      ensures disk.state == if kept then CommittedState(old(disk).state, prep) else old(disk).state
      ensures disk.registry == if kept && stampOk && old(disk).registry.Some? then Some(prep.desired) else old(disk).registry
      ensures !kept && disk.snap.None? ==>
        disk.env == base.env && base == old(base) && Restored(disk.settings, Capture(base.settings)) == disk.settings
      ensures !kept && Cooperates(u) ==> disk.snap.None?
      ensures kept ==> tally == old(tally).(commits := old(tally).commits + 1)
      ensures !kept ==>
        && tally == old(tally).(rollbacks := old(tally).rollbacks + 1, restarts := tally.restarts)
        && old(tally).restarts <= tally.restarts <= old(tally).restarts + 1
    {
      if restartOk && healthy {
        CommitRuntimeUpgrade(prep, stampOk, u.rmOk);
        return true;
      }
      var _ := RollbackRuntimeUpgrade(true, u);
      return false;
    }
  }
}
