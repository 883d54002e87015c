/**
Detection of pipeline-bus retry storms in recent log entries and the deliberate confirmation
that precedes a hard restart of a simulate instance.
*/
module BusStorm {
  import opened Options

  const MIN_WARN_COUNT := 15
  const WINDOW_MS := 30_000
  const CONFIRMATIONS := 3
  const ALLOCATE_GRACE_SECONDS := 90.0

  /** A log entry; `timestamp` is 0 when absent, `dest` is the unavailable destination it reports. */
  datatype Entry = Entry(timestamp: int, dest: Option<string>)

  /** An entry counts unless it carries a timestamp before the cut-off. */
  predicate InWindow(e: Entry, cutoff: int) {
    e.timestamp == 0 || e.timestamp >= cutoff
  }

  function Count(entries: seq<Entry>, dest: string, cutoff: int): nat {
    if entries == [] then 0
    else
      var e := entries[|entries| - 1];
      Count(entries[..|entries| - 1], dest, cutoff) + if e.dest == Some(dest) && InWindow(e, cutoff) then 1 else 0
  }

  /** `storms` are the destinations with at least `minCount` warnings in the window; no window or count, no storms. */
  ghost predicate StormsAre(storms: map<string, nat>, entries: seq<Entry>, now: int, windowMs: int, minCount: int) {
    forall d ::
      && (d in storms <==> windowMs > 0 && minCount > 0 && Count(entries, d, now - windowMs) >= minCount)
      && (d in storms ==> storms[d] == Count(entries, d, now - windowMs))
  }

  /** `detect_pipeline_bus_retry_storms`: the destinations with enough warnings, with their counts. */
  method DetectStorms(entries: seq<Entry>, now: int, windowMs: int, minCount: int) returns (storms: map<string, nat>)
    ensures StormsAre(storms, entries, now, windowMs, minCount)
  {
    if windowMs <= 0 || minCount <= 0 {
      return map[];
    }
    var cutoff := now - windowMs;
    var byDest: map<string, nat> := map[];
    for i := 0 to |entries|
      invariant forall d :: Count(entries[..i], d, cutoff) == if d in byDest then byDest[d] else 0
    {
      assert entries[..i + 1][..i] == entries[..i];
      var e := entries[i];
      if InWindow(e, cutoff) && e.dest.Some? {
        var d := e.dest.value;
        byDest := byDest[d := (if d in byDest then byDest[d] else 0) + 1];
      }
    }
    assert entries[..|entries|] == entries;
    storms := map d | d in byDest && byDest[d] >= minCount :: byDest[d];
  }

  /** What the slot table says about a destination. */
  datatype SlotView = NotASlot | NotBooked | Booked(age: Option<real>, allocating: bool)

  /** `_bus_storm_actionable`: hold only an empty name and cold-allocate races. */
  predicate Actionable(dest: string, slot: SlotView) {
    dest != "" && (slot.Booked? ==> !slot.allocating && (slot.age.Some? ==> slot.age.value >= ALLOCATE_GRACE_SECONDS))
  }

  /** How a hard restart ended. */
  datatype RestartResult = Restarted | NotRestarted | Raised

  /** One completed scan: the storms found, those acted on, and the counters cleared at its end. */
  datatype Scan = Scan(storms: map<string, nat>, acted: set<string>, cleared: set<string>)

  /** Length of the unbroken run of acted-on scans for `dest` at the end of the log, since the last clear. */
  function RunLength(log: seq<Scan>, dest: string): nat {
    if log == [] then 0
    else
      var last := log[|log| - 1];
      if dest in last.cleared || dest !in last.acted then 0
      else RunLength(log[..|log| - 1], dest) + 1
  }

  /** The acted-on destinations whose run, with one more scan, is long enough. */
  ghost function Ready(acted: set<string>, log: seq<Scan>, needed: nat): set<string> {
    set d | d in acted && RunLength(log, d) + 1 >= needed
  }

  function At(hits: map<string, nat>, dest: string): nat {
    if dest in hits then hits[dest] else 0
  }

  /** Every counter is the length of its destination's current run. */
  ghost predicate Agree(hits: map<string, nat>, log: seq<Scan>) {
    forall d :: At(hits, d) == RunLength(log, d)
  }

  class Watch {
    /** `_bus_storm_hits`. */
    var hits: map<string, nat>
    ghost var log: seq<Scan>
    /** Hard restarts tried so far. */
    var restarts: nat

    ghost predicate Valid()
      reads this
    {
      Agree(hits, log)
    }

    constructor ()
      ensures Valid() && log == [] && restarts == 0
    {
      hits, log, restarts := map[], [], 0;
    }

    /** The loop over the detected storms: count the actionable ones, forget the held ones. */
    method CountStorms(storms: map<string, nat>, slots: map<string, SlotView>) returns (acted: set<string>)
      modifies this`hits
      ensures acted == ActedOn(storms.Keys, slots)
      ensures hits == Counted(old(hits), storms.Keys, acted)
    {
      acted := set d | d in storms && Actionable(d, ViewOf(slots, d));
      var todo := storms.Keys;
      while todo != {}
        invariant Counted(hits, todo, ActedOn(todo, slots)) == Counted(old(hits), storms.Keys, acted)
        decreases |todo|
      {
        var dest :| dest in todo;
        PeelStorm(hits, todo, slots, dest);
        hits := CountOne(hits, dest, Actionable(dest, ViewOf(slots, dest)));
        todo := todo - {dest};
      }
      CountedNothing(hits, slots);
    }

    /** A scan is complete: the log and the counters agree again. */
    method Record(scan: Scan, counters: map<string, nat>, ghost before: map<string, nat>)
      requires Agree(before, log)
      requires forall d :: At(counters, d) == if d in scan.acted && d !in scan.cleared then At(before, d) + 1 else 0
      modifies this`hits, this`log
      ensures Valid() && log == old(log) + [scan] && hits == counters
    {
      assert (log + [scan])[..|log|] == log;
      log := log + [scan];
      hits := counters;
    }

    /** Confirmation and correction, once the counters of this scan are known. */
    method Conclude(storms: map<string, nat>, acted: set<string>, counted: map<string, nat>, simulate: bool,
                    needed: nat, result: RestartResult, ghost before: map<string, nat>)
      returns (restarted: bool, scan: Scan)
      requires Agree(before, log)
      requires counted.Keys == acted && forall d | d in acted :: counted[d] == At(before, d) + 1
      modifies this
      ensures Valid() && log == old(log) + [scan]
      ensures scan.storms == storms && scan.acted == acted
      ensures restarts == old(restarts) +
                if simulate && exists d :: d in acted && RunLength(old(log), d) + 1 >= needed then 1 else 0
      ensures restarted <==> restarts > old(restarts) && result == Restarted
      ensures forall d :: d in scan.cleared <==>
        (&& d in acted
         && if simulate then restarts > old(restarts) && result != Raised else RunLength(old(log), d) + 1 >= needed)
    {
      var ready := set d | d in acted && counted[d] >= needed;
      assert ready == Ready(acted, log, needed);
      if ready == {} {
        scan := Scan(storms, acted, {});
        assert forall d | d in acted :: d !in Ready(acted, log, needed);
        Record(scan, counted, before);
        return false, scan;
      }
      ghost var confirmed :| confirmed in ready;
      assert RunLength(log, confirmed) + 1 >= needed;
      if !simulate {
        scan := Scan(storms, acted, ready);
        Record(scan, counted - ready, before);
        return false, scan;
      }
      restarts := restarts + 1;
      if result == Raised {
        scan := Scan(storms, acted, {});
        Record(scan, counted, before);
        return false, scan;
      }
      scan := Scan(storms, acted, acted);
      Record(scan, map[], before);
      return result == Restarted, scan;
    }

    /**
    `handle_pipeline_bus_retry_storms` for one scan. `simulate` tells whether this instance may
    be restarted at all. A restart is tried exactly when it may be and some destination's run,
    this scan included, is long enough; counting then starts over unless the attempt raised.
    */
    method Handle(entries: seq<Entry>, now: int, slots: map<string, SlotView>, simulate: bool,
                  needed: nat, minCount: int, windowMs: int, result: RestartResult)
      returns (restarted: bool, scan: Scan)
      requires Valid()
      modifies this
      ensures Valid() && log == old(log) + [scan]
      ensures StormsAre(scan.storms, entries, now, windowMs, minCount)
      ensures scan.acted == ActedOn(scan.storms.Keys, slots)
      ensures restarts == old(restarts) +
                if simulate && exists d :: d in scan.acted && RunLength(old(log), d) + 1 >= needed then 1 else 0
      ensures restarted <==> restarts > old(restarts) && result == Restarted
      // whose counting starts over: everyone's after a restart that went through, the confirmed ones' without restarts
      ensures forall d :: d in scan.cleared <==>
        (&& d in scan.acted
         && if simulate then restarts > old(restarts) && result != Raised else RunLength(old(log), d) + 1 >= needed)
    {
      ghost var before := hits;
      var storms := DetectStorms(entries, now, windowMs, minCount);
      if storms == map[] {
        scan := Scan(storms, {}, {});
        Record(scan, map[], before);
        return false, scan;
      }
      var acted := CountStorms(storms, slots);
      var counted := map d | d in hits && d in storms :: hits[d];
      assert acted <= storms.Keys;
      CountedPruned(before, storms.Keys, acted);
      restarted, scan := Conclude(storms, acted, counted, simulate, needed, result, before);
    }
  }

  /** One storm: a confirmation more, or the counter is dropped. */
  function CountOne(hits: map<string, nat>, dest: string, act: bool): map<string, nat> {
    if act then hits[dest := At(hits, dest) + 1] else hits - {dest}
  }

  /** The counters after the destinations in `seen` were looked at and those in `acted` counted. */
  ghost function Counted(hits: map<string, nat>, seen: set<string>, acted: set<string>): map<string, nat> {
    map d | d in hits.Keys + acted && (d in seen ==> d in acted) ::
      if d in acted then At(hits, d) + 1 else hits[d]
  }

  lemma CountedNothing(hits: map<string, nat>, slots: map<string, SlotView>)
    ensures ActedOn({}, slots) == {} && Counted(hits, {}, {}) == hits
  {
  }

  /** Looking at one destination first and at the others afterwards. */
  lemma PeelStorm(hits: map<string, nat>, todo: set<string>, slots: map<string, SlotView>, dest: string)
    requires dest in todo
    ensures var act, rest := Actionable(dest, ViewOf(slots, dest)), todo - {dest};
      && ActedOn(todo, slots) == ActedOn(rest, slots) + (if act then {dest} else {})
      && Counted(CountOne(hits, dest, act), rest, ActedOn(rest, slots)) == Counted(hits, todo, ActedOn(todo, slots))
  {
  }

  /** Dropping the destinations that no longer storm leaves counters for the acted-on ones only. */
  lemma CountedPruned(hits: map<string, nat>, seen: set<string>, acted: set<string>)
    requires acted <= seen
    ensures var all := Counted(hits, seen, acted);
      var kept := map d | d in all && d in seen :: all[d];
      kept.Keys == acted && forall d | d in acted :: kept[d] == At(hits, d) + 1
  {
  }

  ghost function ActedOn(dests: set<string>, slots: map<string, SlotView>): set<string> {
    set d | d in dests && Actionable(d, ViewOf(slots, d))
  }

  function ViewOf(slots: map<string, SlotView>, dest: string): SlotView {
    if dest in slots then slots[dest] else NotASlot
  }

  /** A counter of `n` means: acted on in each of the last `n` scans, and cleared by none of them. */
  lemma {:induction false} RunMeansConsecutive(log: seq<Scan>, dest: string, n: nat)
    requires RunLength(log, dest) >= n
    ensures n <= |log|
    ensures forall k | |log| - n <= k < |log| :: dest in log[k].acted && dest !in log[k].cleared
  {
    if n > 0 {
      RunMeansConsecutive(log[..|log| - 1], dest, n - 1);
      assert forall k | 0 <= k < |log| - 1 :: log[..|log| - 1][k] == log[k];
    }
  }

  /** And conversely. */
  lemma {:induction false} ConsecutiveMeansRun(log: seq<Scan>, dest: string, n: nat)
    requires n <= |log|
    requires forall k | |log| - n <= k < |log| :: dest in log[k].acted && dest !in log[k].cleared
    ensures RunLength(log, dest) >= n
  {
    if n > 0 {
      ConsecutiveMeansRun(log[..|log| - 1], dest, n - 1);
    }
  }

  /** One scan of the watchdog with the default thresholds. */
  datatype Tick = Tick(entries: seq<Entry>, now: int, slots: map<string, SlotView>, simulate: bool, result: RestartResult)

  /** The logged scan is the one of this tick. */
  ghost predicate ScanOf(scan: Scan, t: Tick) {
    && StormsAre(scan.storms, t.entries, t.now, WINDOW_MS, MIN_WARN_COUNT)
    && scan.acted == ActedOn(scan.storms.Keys, t.slots)
  }

  /** The warnings about a destination that carry no timestamp, or one of the last thirty seconds. */
  ghost function Warnings(t: Tick, dest: string): set<nat> {
    set i: nat | i < |t.entries| && t.entries[i].dest == Some(dest)
      && (t.entries[i].timestamp == 0 || t.entries[i].timestamp >= t.now - 30_000)
  }

  /** At least fifteen of them, about a destination that is not just being allocated to a booked slot. */
  ghost predicate Stuck(t: Tick, dest: string) {
    && |Warnings(t, dest)| >= 15
    && dest != ""
    && (dest in t.slots && t.slots[dest].Booked? ==>
          !t.slots[dest].allocating && (t.slots[dest].age.Some? ==> t.slots[dest].age.value >= 90.0))
  }

  ghost predicate StuckThrice(ticks: seq<Tick>, i: nat, dest: string) {
    2 <= i < |ticks| && Stuck(ticks[i - 2], dest) && Stuck(ticks[i - 1], dest) && Stuck(ticks[i], dest)
  }

  ghost predicate IsWarning(e: Entry, dest: string, cutoff: int) {
    e.dest == Some(dest) && (e.timestamp == 0 || e.timestamp >= cutoff)
  }

  ghost function PositionsOf(entries: seq<Entry>, dest: string, cutoff: int): set<nat> {
    set i: nat | i < |entries| && IsWarning(entries[i], dest, cutoff)
  }

  lemma {:induction false} CountIsPositions(entries: seq<Entry>, dest: string, cutoff: int)
    ensures Count(entries, dest, cutoff) == |PositionsOf(entries, dest, cutoff)|
  {
    if entries == [] {
      assert PositionsOf(entries, dest, cutoff) == {};
    } else {
      var n := |entries| - 1;
      CountIsPositions(entries[..n], dest, cutoff);
      PositionsStep(entries, dest, cutoff);
    }
  }

  lemma PositionsStep(entries: seq<Entry>, dest: string, cutoff: int)
    requires entries != []
    ensures var n := |entries| - 1;
      && PositionsOf(entries, dest, cutoff) ==
           PositionsOf(entries[..n], dest, cutoff) + (if IsWarning(entries[n], dest, cutoff) then {n} else {})
      && n !in PositionsOf(entries[..n], dest, cutoff)
  {
  }

  lemma CountIsWarnings(t: Tick, dest: string)
    ensures Count(t.entries, dest, t.now - 30_000) == |Warnings(t, dest)|
  {
    CountIsPositions(t.entries, dest, t.now - 30_000);
    assert Warnings(t, dest) == PositionsOf(t.entries, dest, t.now - 30_000);
  }

  /** A scan acts on what is stuck. */
  ghost predicate ActsOnStuck(scan: Scan, t: Tick) {
    forall d :: d in scan.acted <==> Stuck(t, d)
  }

  lemma ScanActsOnStuck(scan: Scan, t: Tick)
    requires ScanOf(scan, t)
    ensures ActsOnStuck(scan, t)
  {
    forall d
      ensures d in scan.acted <==> Stuck(t, d)
    {
      CountIsWarnings(t, d);
    }
  }

  /** A destination was stuck in tick `i` and the two before, and neither of these two brought a restart that went through. */
  ghost predicate Due(ticks: seq<Tick>, restartAt: seq<nat>, i: nat) {
    && (exists d :: StuckThrice(ticks, i, d))
    && (i - 1 in restartAt ==> ticks[i - 1].result == Raised)
    && (i - 2 in restartAt ==> ticks[i - 2].result == Raised)
  }

  /** Scans of an instance that may be restarted start counting over exactly after a restart that went through. */
  ghost predicate ClearedByRestarts(log: seq<Scan>, ticks: seq<Tick>, restartAt: seq<nat>)
    requires |log| <= |ticks|
  {
    forall k | 0 <= k < |log| :: log[k].cleared == if k in restartAt && ticks[k].result != Raised then log[k].acted else {}
  }

  /** Acted on in scan `k`, and counting goes on. */
  lemma GoesOn(log: seq<Scan>, ticks: seq<Tick>, restartAt: seq<nat>, k: nat, dest: string)
    requires k < |log| <= |ticks| && ClearedByRestarts(log, ticks, restartAt) && ActsOnStuck(log[k], ticks[k])
    ensures dest in log[k].acted && dest !in log[k].cleared <==>
      Stuck(ticks[k], dest) && (k in restartAt ==> ticks[k].result == Raised)
  {
  }

  lemma RunOfTwo(log: seq<Scan>, dest: string)
    ensures RunLength(log, dest) >= 2 <==>
      (&& |log| >= 2
       && dest in log[|log| - 1].acted && dest !in log[|log| - 1].cleared
       && dest in log[|log| - 2].acted && dest !in log[|log| - 2].cleared)
  {
    if RunLength(log, dest) >= 2 {
      RunMeansConsecutive(log, dest, 2);
    } else if |log| >= 2 {
      assert log[..|log| - 1][|log| - 2] == log[|log| - 2];
    }
  }

  lemma RunIsStuck(log: seq<Scan>, ticks: seq<Tick>, restartAt: seq<nat>, scan: Scan, dest: string)
    requires |log| < |ticks| && ClearedByRestarts(log, ticks, restartAt)
    requires ActsOnStuck(scan, ticks[|log|]) && forall k | 0 <= k < |log| :: ActsOnStuck(log[k], ticks[k])
    ensures var i := |log|;
      dest in scan.acted && RunLength(log, dest) + 1 >= 3 <==>
        (&& StuckThrice(ticks, i, dest)
         && (i - 1 in restartAt ==> ticks[i - 1].result == Raised)
         && (i - 2 in restartAt ==> ticks[i - 2].result == Raised))
  {
    var i := |log|;
    RunOfTwo(log, dest);
    if i >= 2 {
      GoesOn(log, ticks, restartAt, i - 1, dest);
      GoesOn(log, ticks, restartAt, i - 2, dest);
    }
  }

  lemma RestartsWhenDue(log: seq<Scan>, ticks: seq<Tick>, restartAt: seq<nat>, scan: Scan)
    requires |log| < |ticks| && ClearedByRestarts(log, ticks, restartAt)
    requires ActsOnStuck(scan, ticks[|log|]) && forall k | 0 <= k < |log| :: ActsOnStuck(log[k], ticks[k])
    ensures (exists d :: d in scan.acted && RunLength(log, d) + 1 >= 3) <==> Due(ticks, restartAt, |log|)
  {
    forall d
      ensures d in scan.acted && RunLength(log, d) + 1 >= 3 ==> Due(ticks, restartAt, |log|)
      ensures StuckThrice(ticks, |log|, d) && Due(ticks, restartAt, |log|) ==> d in scan.acted && RunLength(log, d) + 1 >= 3
    {
      RunIsStuck(log, ticks, restartAt, scan, d);
    }
  }

  /** One more scan of an instance that may be restarted. */
  lemma StillCleared(log: seq<Scan>, ticks: seq<Tick>, done: seq<nat>, scan: Scan, restarts: bool)
    requires |log| < |ticks| && ClearedByRestarts(log, ticks, done) && forall k | k in done :: k < |log|
    requires restarts <==> Due(ticks, done, |log|)
    requires scan.cleared == if restarts && ticks[|log|].result != Raised then scan.acted else {}
    requires forall k | 0 <= k < |log| :: k in done <==> Due(ticks, done, k)
    ensures var all := if restarts then done + [|log|] else done;
      && ClearedByRestarts(log + [scan], ticks, all)
      && forall k | 0 <= k <= |log| :: k in all <==> Due(ticks, all, k)
  {
    var all := if restarts then done + [|log|] else done;
    assert forall k | k < |log| :: k in all <==> k in done;
    forall k | 0 <= k <= |log|
      ensures k in all <==> Due(ticks, all, k)
    {
      assert k - 1 in all <==> k - 1 in done;
      assert k - 2 in all <==> k - 2 in done;
      assert Due(ticks, all, k) <==> Due(ticks, done, k);
    }
  }

  ghost predicate AllSimulate(ticks: seq<Tick>) {
    forall t | t in ticks :: t.simulate
  }

  /** Every scan acted on what was stuck. */
  ghost predicate Follows(log: seq<Scan>, ticks: seq<Tick>) {
    |log| <= |ticks| && forall k | 0 <= k < |log| :: ActsOnStuck(log[k], ticks[k])
  }

  /** Every restart was justified. */
  ghost predicate Justified(ticks: seq<Tick>, restartAt: seq<nat>, n: nat)
    requires n <= |ticks|
  {
    forall k | k in restartAt :: k < n && ticks[k].simulate && exists d :: StuckThrice(ticks, k, d)
  }

  /** And every one that was due took place. */
  ghost predicate Complete(log: seq<Scan>, ticks: seq<Tick>, restartAt: seq<nat>)
    requires |log| <= |ticks|
  {
    ClearedByRestarts(log, ticks, restartAt) && forall k | 0 <= k < |log| :: k in restartAt <==> Due(ticks, restartAt, k)
  }

  lemma RestartIsJustified(log: seq<Scan>, ticks: seq<Tick>, scan: Scan)
    requires Follows(log, ticks) && |log| < |ticks| && ActsOnStuck(scan, ticks[|log|])
    requires exists d :: d in scan.acted && RunLength(log, d) + 1 >= 3
    ensures exists d :: StuckThrice(ticks, |log|, d)
  {
    var d :| d in scan.acted && RunLength(log, d) + 1 >= 3;
    RunOfTwo(log, d);
    assert StuckThrice(ticks, |log|, d);
  }

  lemma StaysComplete(log: seq<Scan>, ticks: seq<Tick>, done: seq<nat>, scan: Scan, restarts: bool)
    requires Follows(log, ticks) && |log| < |ticks| && ActsOnStuck(scan, ticks[|log|])
    requires Justified(ticks, done, |log|) && Complete(log, ticks, done)
    requires restarts <==> exists d :: d in scan.acted && RunLength(log, d) + 1 >= 3
    requires scan.cleared == if restarts && ticks[|log|].result != Raised then scan.acted else {}
    ensures Complete(log + [scan], ticks, if restarts then done + [|log|] else done)
  {
    RestartsWhenDue(log, ticks, done, scan);
    StillCleared(log, ticks, done, scan, restarts);
  }

  /**
  Over any history of scans with the default thresholds: every hard restart happens in a scan
  of a simulate instance, after some destination was stuck in that scan and the two before it.
  A simulate instance is restarted exactly then, unless one of those two scans restarted it.
  */
  method RunScans(w: Watch, ticks: seq<Tick>) returns (restartAt: seq<nat>)
    requires w.Valid() && w.log == []
    modifies w
    ensures w.Valid() && |w.log| == |ticks|
    ensures forall k | 0 <= k < |ticks| :: ActsOnStuck(w.log[k], ticks[k])
    ensures w.restarts == old(w.restarts) + |restartAt|
    ensures forall i | i in restartAt :: i < |ticks| && ticks[i].simulate && exists d :: StuckThrice(ticks, i, d)
    ensures AllSimulate(ticks) ==> forall i | 0 <= i < |ticks| :: i in restartAt <==> Due(ticks, restartAt, i)
  {
    restartAt := [];
    for i := 0 to |ticks|
      invariant w.Valid() && |w.log| == i && Follows(w.log, ticks)
      invariant w.restarts == old(w.restarts) + |restartAt|
      invariant Justified(ticks, restartAt, i) && (AllSimulate(ticks) ==> Complete(w.log, ticks, restartAt))
    {
      var t, before := ticks[i], w.restarts;
      ghost var log := w.log;
      var _, scan := w.Handle(t.entries, t.now, t.slots, t.simulate, CONFIRMATIONS, MIN_WARN_COUNT, WINDOW_MS, t.result);
      ScanActsOnStuck(scan, t);
      if AllSimulate(ticks) {
        assert t in ticks;
        StaysComplete(log, ticks, restartAt, scan, w.restarts > before);
      }
      if w.restarts > before {
        RestartIsJustified(log, ticks, scan);
        restartAt := restartAt + [i];
      }
    }
  }
}
