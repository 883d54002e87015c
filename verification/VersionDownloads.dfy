/**
Background VERSION downloads: the controller thread that checks, flushes and starts, and worker
threads that run in between. Every lock-protected access is one atomic step; the sequences of
worker numbers passed to the controller's methods are the worker steps that the scheduler runs
at each point where the controller holds no lock.
*/
module VersionDownloads {
  import opened Options

  datatype Status = Pending | Running | Ready | Failed

  /** Where a worker stands in `_version_download_worker`. */
  datatype Pc = Begun | Ensuring | Ensured(ok: bool) | Marked

  datatype Worker = Worker(version: string, pc: Pc)

  /** The `runtime_download` blob in agent state. */
  datatype Persisted = Persisted(version: string, status: Status)

  /** One scheduled worker step; `ok` decides the download if that is what the step ends. */
  datatype Slot = Slot(tid: nat, ok: bool)

  datatype Verdict = Hold | Proceed

  /** The worker steps at scheduling point `i`, and those from there on. */
  function At(points: seq<seq<Slot>>, i: nat): seq<Slot> {
    if i < |points| then points[i] else []
  }

  function From(points: seq<seq<Slot>>, i: nat): seq<seq<Slot>> {
    if i <= |points| then points[i..] else []
  }

  /** The scheduling points inside one flush. */
  const FLUSH_POINTS := 3

  /** A version's registered thread is its one live worker, and every live worker is registered. */
  ghost predicate Linked(threads: map<string, nat>, workers: map<nat, Worker>, nextTid: nat) {
    && (forall v | v in threads :: threads[v] in workers && workers[threads[v]].version == v)
    && (forall t | t in workers :: t < nextTid && workers[t].version in threads && threads[workers[t].version] == t)
  }

  ghost predicate Truthful(memory: map<string, Status>, workers: map<nat, Worker>, present: set<string>) {
    && (forall t | t in workers && workers[t].pc == Ensured(true) :: workers[t].version in present)
    && (forall v | v in memory && memory[v] == Ready :: v in present)
  }

  /** Nothing disappears from `before`, and what is new is in `extra`. */
  ghost predicate GrownBy(before: set<string>, after: set<string>, extra: set<string>) {
    before <= after <= before + extra
  }

  lemma LinkedWithNew(threads: map<string, nat>, workers: map<nat, Worker>, nextTid: nat, version: string)
    requires Linked(threads, workers, nextTid) && version !in threads
    ensures Linked(threads[version := nextTid], workers[nextTid := Worker(version, Begun)], nextTid + 1)
  {
  }

  class Downloads {
    /** `_VERSION_DOWNLOAD_THREADS` and `_VERSION_DOWNLOAD_STATUS`. */
    var threads: map<string, nat>
    var memory: map<string, Status>
    /** Live workers by thread number, until they leave their final critical section. */
    var workers: map<nat, Worker>
    var nextTid: nat
    /** Versions whose tree is on disk. */
    var present: set<string>
    var persisted: Option<Persisted>
    /** How many downloads were started, and the version of the last one. */
    var starts: nat
    var lastStart: Option<string>

    ghost predicate Valid()
      reads this
    {
      && Linked(threads, workers, nextTid)
      && threads.Keys <= memory.Keys
      // ready is never claimed of a tree that is not there
      && Truthful(memory, workers, present)
      && (persisted.Some? && persisted.value.status == Ready ==> persisted.value.version in present)
      // the persisted version is that of the last start
      && (lastStart.Some? ==> persisted.Some? && persisted.value.version == lastStart.value)
    }

    constructor (present: set<string>, persisted: Option<Persisted>)
      requires persisted.Some? && persisted.value.status == Ready ==> persisted.value.version in present
      ensures Valid() && this.present == present && this.persisted == persisted && workers == map[]
    {
      threads, memory, workers, nextTid := map[], map[], map[], 0;
      this.present, this.persisted, starts, lastStart := present, persisted, 0, None;
    }

    /** The worker publishes a status and moves on. */
    method Publish(t: nat, status: Status, pc: Pc)
      requires Valid() && t in workers
      requires status == Ready ==> workers[t].version in present
      requires pc == Begun || pc == Ensuring || pc == Marked
      modifies this`memory, this`workers
      ensures Valid() && workers.Keys == old(workers).Keys && memory.Keys == old(memory).Keys
      ensures memory == old(memory)[old(workers)[t].version := status]
      ensures workers == old(workers)[t := old(workers)[t].(pc := pc)]
    {
      var v := workers[t].version;
      memory := memory[v := status];
      workers := workers[t := Worker(v, pc)];
    }

    /** `ensure_logstash_version` returned or raised. */
    method EndEnsure(t: nat, ok: bool)
      requires Valid() && t in workers
      modifies this`present, this`workers
      ensures Valid() && workers.Keys == old(workers).Keys
      ensures present == old(present) + if ok then {old(workers)[t].version} else {}
    {
      var v := workers[t].version;
      if ok {
        present := present + {v};
      }
      workers := workers[t := Worker(v, Ensured(ok))];
    }

    /** The final critical section: the worker takes itself out of the table. */
    method Leave(t: nat)
      requires Valid() && t in workers
      modifies this`threads, this`workers
      ensures Valid()
      ensures workers == old(workers) - {t} && threads == old(threads) - {old(workers)[t].version}
    {
      var v := workers[t].version;
      threads := threads - {v};
      workers := workers - {t};
    }

    /** One atomic step of worker `t`. */
    method WorkerStep(t: nat, ok: bool)
      requires Valid()
      modifies this`threads, this`memory, this`workers, this`present
      ensures Valid()
      ensures GrownBy(old(present), present, old(threads).Keys)
      ensures workers.Keys <= old(workers).Keys && threads.Keys <= old(threads).Keys
      ensures memory.Keys == old(memory).Keys
      // a download that ended is published as what it was, and only then does the worker leave
      ensures t in old(workers) && old(workers)[t].pc.Ensured? ==>
        && memory[old(workers)[t].version] == (if old(workers)[t].pc.ok then Ready else Failed)
        && workers == old(workers)[t := Worker(old(workers)[t].version, Marked)]
      ensures old(workers).Keys != workers.Keys ==> t in old(workers) && old(workers)[t].pc == Marked
    {
      if t !in workers {
        return;
      }
      match workers[t].pc {
        case Begun => Publish(t, Running, Ensuring);
        case Ensuring => EndEnsure(t, ok);
        case Ensured(done) => Publish(t, if done then Ready else Failed, Marked);
        case Marked => Leave(t);
      }
    }

    /** The scheduler lets workers run; none can start another. */
    method Interleave(slots: seq<Slot>)
      requires Valid()
      modifies this`threads, this`memory, this`workers, this`present
      ensures Valid()
      ensures GrownBy(old(present), present, old(threads).Keys)
      ensures workers.Keys <= old(workers).Keys && threads.Keys <= old(threads).Keys
      ensures memory.Keys == old(memory).Keys
    {
      for i := 0 to |slots|
        invariant Valid() && GrownBy(old(present), present, old(threads).Keys)
        invariant workers.Keys <= old(workers).Keys && threads.Keys <= old(threads).Keys
        invariant memory.Keys == old(memory).Keys
      {
        WorkerStep(slots[i].tid, slots[i].ok);
      }
    }

    /** `_stamp_runtime_download` without `overwrite`: another version's blob is left alone. */
    method Stamp(blob: Persisted)
      requires Valid() && (blob.status == Ready ==> blob.version in present)
      modifies this`persisted
      ensures Valid()
      ensures old(persisted).Some? ==> persisted.Some? && persisted.value.version == old(persisted).value.version
      ensures persisted ==
        if old(persisted).Some? && old(persisted).value.version != blob.version then old(persisted) else Some(blob)
    {
      if persisted.Some? && persisted.value.version != blob.version {
        return;
      }
      persisted := Some(blob);
    }

    /**
    `_flush_runtime_download`: copies a worker's status into agent state. Memory, liveness and
    the tree are looked at one after another, with workers running in between.
    */
    method Flush(version: string, points: seq<seq<Slot>>)
      requires Valid()
      modifies this`threads, this`memory, this`workers, this`present, this`persisted
      ensures Valid()
      ensures old(persisted).Some? ==> persisted.Some? && persisted.value.version == old(persisted).value.version
      ensures GrownBy(old(present), present, old(threads).Keys)
      ensures workers.Keys <= old(workers).Keys && threads.Keys <= old(threads).Keys
      ensures memory.Keys == old(memory).Keys
      // without a live worker the tree decides, and another version's blob is left alone
      ensures version !in old(threads) && version in old(memory)
              && (old(persisted).Some? ==> old(persisted).value.version == version) ==>
                persisted == Some(Persisted(version, if version in old(present) then Ready else Failed))
      // while the worker lives its own word is copied; if it leaves meanwhile, that or what the tree says
      ensures version in threads && (old(persisted).Some? ==> old(persisted).value.version == version) ==>
                persisted == Some(Persisted(version, old(memory)[version]))
      ensures version in old(threads) && (old(persisted).Some? ==> old(persisted).value.version == version) ==>
                persisted.Some? && persisted.value.version == version
                && persisted.value.status in {old(memory)[version], Ready, Failed}
      ensures version !in old(memory) || (old(persisted).Some? && old(persisted).value.version != version) ==>
                persisted == old(persisted)
    {
      var mem := if version in memory then Some(memory[version]) else None;
      Interleave(At(points, 0));
      var alive := version in threads;
      Interleave(At(points, 1));
      if alive {
        Stamp(Persisted(version, if mem.Some? then mem.value else Running));
        return;
      }
      if mem.None? {
        return;
      }
      var there := version in present;
      Interleave(At(points, 2));
      Stamp(Persisted(version, if there then Ready else Failed));
    }

    /** `_flush_runtime_downloads_for_checkin`: every version known in memory, and the persisted one. */
    method FlushForCheckin(points: seq<seq<Slot>>)
      requires Valid()
      modifies this`threads, this`memory, this`workers, this`present, this`persisted
      ensures Valid()
      ensures old(persisted).Some? ==> persisted.Some? && persisted.value.version == old(persisted).value.version
      // a download that ended is reported as what the tree says
      ensures old(persisted).Some? && old(persisted).value.version !in old(threads) && old(persisted).value.version in old(memory) ==>
                persisted.value.status == if old(persisted).value.version in old(present) then Ready else Failed
    {
      var todo := memory.Keys;
      if persisted.Some? {
        todo := todo + {persisted.value.version};
      }
      var rest := points;
      ghost var ended := persisted.Some? && persisted.value.version !in threads && persisted.value.version in memory;
      while todo != {}
        invariant Valid()
        invariant old(persisted).Some? ==> persisted.Some? && persisted.value.version == old(persisted).value.version
        invariant threads.Keys <= old(threads).Keys && memory.Keys == old(memory).Keys
        invariant GrownBy(old(present), present, old(threads).Keys)
        invariant ended && persisted.value.version !in todo ==>
                    persisted.value.status == if persisted.value.version in old(present) then Ready else Failed
        decreases |todo|
      {
        var v :| v in todo;
        Flush(v, rest);
        rest := From(rest, FLUSH_POINTS);
        todo := todo - {v};
      }
    }

    /** The critical section of `_start_version_download`: at most one registered worker per version. */
    method Register(version: string) returns (started: bool)
      requires Valid()
      modifies this`threads, this`memory, this`workers, this`nextTid
      ensures Valid()
      ensures started <==> version !in old(threads)
      ensures !started ==> workers == old(workers) && threads == old(threads) && memory == old(memory)
      ensures started ==>
        && workers == old(workers)[old(nextTid) := Worker(version, Begun)] && old(nextTid) !in old(workers)
        && threads == old(threads)[version := old(nextTid)]
    {
      if version in threads {
        return false;
      }
      LinkedWithNew(threads, workers, nextTid, version);
      memory := memory[version := Pending];
      threads := threads[version := nextTid];
      workers := workers[nextTid := Worker(version, Begun)];
      nextTid := nextTid + 1;
      return true;
    }

    /** `_start_version_download`: register, then stamp the new pin over whatever was persisted. */
    method Start(version: string, slots: seq<Slot>) returns (started: bool)
      requires Valid()
      modifies this
      ensures Valid()
      ensures started <==> version !in old(threads)
      ensures started ==> persisted == Some(Persisted(version, Pending)) && lastStart == Some(version)
      ensures !started ==> persisted == old(persisted) && lastStart == old(lastStart)
      ensures starts == old(starts) + if started then 1 else 0
      ensures old(present) <= present
    {
      started := Register(version);
      if !started {
        return;
      }
      Interleave(slots);
      Pin(version);
    }

    /** `_stamp_runtime_download` with `overwrite`: the new start's blob replaces any other. */
    method Pin(version: string)
      requires Valid()
      modifies this`persisted, this`lastStart, this`starts
      ensures Valid() && starts == old(starts) + 1
      ensures persisted == Some(Persisted(version, Pending)) && lastStart == Some(version)
    {
      persisted, lastStart, starts := Some(Persisted(version, Pending)), Some(version), starts + 1;
    }

    /**
    The VERSION part of `prepare_runtime_upgrade`: proceed only with the tree on disk and no live
    worker; otherwise hold, starting a download unless one is in flight.
    */
    method PrepareVersion(version: string, points: seq<seq<Slot>>) returns (verdict: Verdict)
      requires Valid()
      modifies this
      ensures Valid()
      ensures verdict == Proceed ==>
        && version in present && version !in threads && (forall t | t in workers :: workers[t].version != version)
        && starts == old(starts)
      ensures verdict == Proceed <==> version !in old(threads) && version in old(present)
      ensures old(starts) <= starts <= old(starts) + 1
      ensures starts == old(starts) ==> lastStart == old(lastStart)
      ensures starts > old(starts) ==> version !in old(threads) && lastStart == Some(version)
      // the persisted pin moves only with a start
      ensures starts == old(starts) && old(persisted).Some? ==>
                persisted.Some? && persisted.value.version == old(persisted).value.version
      // holding means a download was in flight or one was started
      ensures verdict == Hold ==> version in old(threads) || starts == old(starts) + 1
    {
      var inflight := version in threads;
      Interleave(At(points, 0));
      var there := version in present;
      Interleave(At(points, 1));
      Flush(version, From(points, 2));
      if inflight || !there {
        if !inflight {
          Interleave(At(points, 2 + FLUSH_POINTS));
          var _ := Start(version, At(points, 3 + FLUSH_POINTS));
        }
        return Hold;
      }
      return Proceed;
    }
  }

  /** What the controller thread does next, with the worker steps around it. */
  datatype Turn = Prepare(version: string, points: seq<seq<Slot>>) | CheckIn(points: seq<seq<Slot>>) | Idle(slots: seq<Slot>)

  /** At most one live worker per version. */
  ghost predicate OneWorkerPerVersion(workers: map<nat, Worker>) {
    forall s, t | s in workers && t in workers && workers[s].version == workers[t].version :: s == t
  }

  lemma ValidMeansOneWorker(d: Downloads)
    requires d.Valid()
    ensures OneWorkerPerVersion(d.workers)
  {
    forall s, t | s in d.workers && t in d.workers && d.workers[s].version == d.workers[t].version
      ensures s == t
    {
      assert d.threads[d.workers[s].version] == s && d.threads[d.workers[t].version] == t;
    }
  }

  /**
  Over all interleavings of the controller and its workers: one live worker per version, and the
  persisted version is still the initial one unless a download was started, whose version it then is.
  */
  method RunController(d: Downloads, turns: seq<Turn>)
    requires d.Valid() && d.lastStart == None
    modifies d
    ensures d.Valid() && OneWorkerPerVersion(d.workers)
    ensures d.lastStart.Some? ==> d.persisted.Some? && d.persisted.value.version == d.lastStart.value
    ensures d.lastStart.None? && old(d.persisted).Some? ==>
              d.persisted.Some? && d.persisted.value.version == old(d.persisted).value.version
    ensures d.starts == old(d.starts) <==> d.lastStart.None?
  {
    for i := 0 to |turns|
      invariant d.Valid()
      invariant d.lastStart.None? && old(d.persisted).Some? ==>
                  d.persisted.Some? && d.persisted.value.version == old(d.persisted).value.version
      invariant d.starts >= old(d.starts) && (d.starts == old(d.starts) <==> d.lastStart.None?)
    {
      match turns[i] {
        case Prepare(version, points) =>
          var _ := d.PrepareVersion(version, points);
        case CheckIn(points) =>
          d.FlushForCheckin(points);
        case Idle(slots) =>
          d.Interleave(slots);
      }
    }
    ValidMeansOneWorker(d);
  }
}
