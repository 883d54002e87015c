/**
The rate limit on bare recoveries of a simulate instance: a cool-down since the last one and a
cap per hour, kept in a list of times that every check prunes. Times are in milliseconds.
*/
module RecoveryLimit {
  const MAX_RECOVERIES_PER_HOUR := 5
  const MIN_GAP := 45_000
  const HOUR := 3_600_000

  function Prune(times: seq<int>, now: int): seq<int> {
    if times == [] then []
    else if now - times[0] < HOUR then [times[0]] + Prune(times[1..], now)
    else Prune(times[1..], now)
  }

  lemma {:induction false} PrunedAreRecent(times: seq<int>, now: int)
    ensures forall i | 0 <= i < |Prune(times, now)| :: now - Prune(times, now)[i] < HOUR
  {
    if times != [] {
      PrunedAreRecent(times[1..], now);
    }
  }

  /** `_recovery_allowed`, on the pruned list. */
  predicate Allowed(pruned: seq<int>, now: int) {
    && (pruned == [] || now - pruned[|pruned| - 1] >= MIN_GAP)
    && |pruned| < MAX_RECOVERIES_PER_HOUR
  }

  ghost predicate Sorted(times: seq<int>) {
    forall i, j | 0 <= i < j < |times| :: times[i] <= times[j]
  }

  /** On a sorted list pruning cuts off the prefix that is at least an hour old. */
  lemma {:induction false} PruneIsSuffix(times: seq<int>, now: int) returns (k: nat)
    requires Sorted(times)
    ensures k <= |times| && Prune(times, now) == times[k..]
    ensures forall i | 0 <= i < k :: now - times[i] >= 3_600_000
    ensures forall i | k <= i < |times| :: now - times[i] < 3_600_000
  {
    if times == [] {
      k := 0;
    } else if now - times[0] < HOUR {
      var k' := PruneIsSuffix(times[1..], now);
      assert |times| > 1 ==> times[1..][0] == times[1] && times[0] <= times[1];
      assert k' == 0;
      k := 0;
      assert times == [times[0]] + times[1..];
    } else {
      var k' := PruneIsSuffix(times[1..], now);
      k := k' + 1;
      assert forall i | 1 <= i < k :: times[i] == times[1..][i - 1];
    }
  }

  /** A recorded recovery: whether it bypassed the limit, and how many records there were when it was checked. */
  datatype Record = Record(time: int, forced: bool, seen: nat)

  /** What the limit guarantees about the recovery recorded at position `i`, counting forced ones before it. */
  ghost predicate Limited(records: seq<Record>, i: nat)
    requires i < |records|
  {
    !records[i].forced ==>
      && (i >= 1 ==> records[i].time - records[i - 1].time >= 45_000)
      && (i >= 5 ==> records[i].time - records[i - 5].time >= 3_600_000)
  }

  /** At time `t` the first `n` records leave room: the last is past the cool-down, the fifth last past the hour. */
  ghost predicate Room(records: seq<Record>, n: nat, t: int) {
    && n <= |records|
    && (n >= 1 ==> t - records[n - 1].time >= 45_000)
    && (n >= 5 ==> t - records[n - 5].time >= 3_600_000)
  }

  /** Every unforced recovery had room among the records that its check saw. */
  ghost predicate AllHadRoom(records: seq<Record>) {
    forall i | 0 <= i < |records| && !records[i].forced :: records[i].seen <= i && Room(records, records[i].seen, records[i].time)
  }

  /**
  A recovery is limited as promised whenever no other one was recorded between its check and
  its own record.
  */
  lemma UndisturbedIsLimited(records: seq<Record>, i: nat)
    requires AllHadRoom(records) && i < |records| && records[i].seen == i
    ensures Limited(records, i)
  {
  }

  /** Recorded times never decrease and are not in the future. */
  ghost predicate InOrder(records: seq<Record>, clock: int) {
    && (forall i, j | 0 <= i < j < |records| :: records[i].time <= records[j].time)
    && (forall i | 0 <= i < |records| :: records[i].time <= clock)
  }

  /** The list holds the records from `pruned` on, and those before are at least an hour old. */
  ghost predicate Tail(times: seq<int>, records: seq<Record>, pruned: nat, clock: int) {
    && |times| + pruned == |records|
    && (forall i | 0 <= i < |times| :: times[i] == records[pruned + i].time)
    && (forall i | 0 <= i < pruned :: clock - records[i].time >= 3_600_000)
  }

  ghost predicate AllLimited(records: seq<Record>) {
    forall i | 0 <= i < |records| :: Limited(records, i)
  }

  /** No recovery was recorded between the check and the record of another. */
  ghost predicate Undisturbed(records: seq<Record>) {
    forall i | 0 <= i < |records| :: records[i].seen == i
  }

  lemma TailIsSorted(times: seq<int>, records: seq<Record>, pruned: nat, clock: int)
    requires InOrder(records, clock) && Tail(times, records, pruned, clock)
    ensures Sorted(times)
  {
  }

  /** Cutting old times off the front of the list keeps it the tail of the records. */
  lemma SuffixIsTail(times: seq<int>, records: seq<Record>, pruned: nat, clock: int, now: int, k: nat)
    requires Tail(times, records, pruned, clock) && clock <= now && k <= |times|
    requires forall i | 0 <= i < k :: now - times[i] >= HOUR
    ensures Tail(times[k..], records, pruned + k, now)
  {
    forall i | pruned <= i < pruned + k
      ensures now - records[i].time >= HOUR
    {
      assert records[i].time == times[i - pruned];
    }
  }

  /** Pruning the list keeps it the tail of the records. */
  lemma PruneKeepsTail(times: seq<int>, records: seq<Record>, pruned: nat, clock: int, now: int)
    returns (pruned': nat)
    requires InOrder(records, clock) && Tail(times, records, pruned, clock) && clock <= now
    ensures Tail(Prune(times, now), records, pruned', now) && InOrder(records, now)
  {
    TailIsSorted(times, records, pruned, clock);
    var k := PruneIsSuffix(times, now);
    SuffixIsTail(times, records, pruned, clock, now, k);
    pruned' := pruned + k;
  }

  /** The pruned list allows a recovery exactly when all records so far leave room for it. */
  lemma AllowedHasRoom(times: seq<int>, records: seq<Record>, pruned: nat, clock: int)
    requires InOrder(records, clock) && Tail(times, records, pruned, clock)
    requires forall i | 0 <= i < |times| :: clock - times[i] < HOUR
    ensures Allowed(times, clock) <==> Room(records, |records|, clock)
  {
    var n := |records|;
    if times != [] {
      assert times[|times| - 1] == records[n - 1].time;
    } else if n >= 1 {
      assert clock - records[n - 1].time >= HOUR;
    }
    if n >= MAX_RECOVERIES_PER_HOUR {
      if |times| < MAX_RECOVERIES_PER_HOUR {
        assert clock - records[n - MAX_RECOVERIES_PER_HOUR].time >= HOUR;
      } else {
        assert times[|times| - MAX_RECOVERIES_PER_HOUR] == records[n - MAX_RECOVERIES_PER_HOUR].time;
      }
    }
  }

  /**
  A recovery is recorded as promised if and only if the check of the code would still let it
  pass at that moment, on the list as it is then; a forced one is not bound.
  */
  lemma RecordedIsLimitedExactlyWhen(times: seq<int>, records: seq<Record>, pruned: nat, clock: int, r: Record)
    requires InOrder(records, clock) && Tail(times, records, pruned, clock) && clock <= r.time
    ensures Limited(records + [r], |records|) <==> r.forced || Allowed(Prune(times, r.time), r.time)
  {
    var pruned' := PruneKeepsTail(times, records, pruned, clock, r.time);
    PrunedAreRecent(times, r.time);
    AllowedHasRoom(Prune(times, r.time), records, pruned', r.time);
  }

  function TimesOf(records: seq<Record>): seq<int> {
    seq(|records|, i requires 0 <= i < |records| => records[i].time)
  }

  /** The check of the code, put at the time of record `i` to everything recorded before it. */
  predicate PassesAgain(records: seq<Record>, i: nat)
    requires i < |records|
  {
    Allowed(Prune(TimesOf(records[..i]), records[i].time), records[i].time)
  }

  /** So in any history with times in order: a record keeps both distances exactly if it would have passed the check again. */
  lemma LimitedExactlyWhen(records: seq<Record>, clock: int, i: nat)
    requires InOrder(records, clock) && i < |records|
    ensures Limited(records, i) <==> records[i].forced || PassesAgain(records, i)
  {
    var before := records[..i];
    RecordedIsLimitedExactlyWhen(TimesOf(before), before, 0, records[i].time, records[i]);
    assert Limited(before + [records[i]], i) <==> Limited(records, i);
  }

  lemma RoomStays(records: seq<Record>, n: nat, t: int, more: seq<Record>, later: int)
    requires Room(records, n, t) && t <= later
    ensures Room(records + more, n, later)
  {
  }

  lemma EarlierHadRoom(records: seq<Record>, r: Record)
    requires AllHadRoom(records)
    requires !r.forced ==> r.seen <= |records| && Room(records, r.seen, r.time)
    ensures AllHadRoom(records + [r])
  {
    var longer := records + [r];
    forall i | 0 <= i < |longer| && !longer[i].forced
      ensures longer[i].seen <= i && Room(longer, longer[i].seen, longer[i].time)
    {
      if i < |records| {
        assert longer[i] == records[i];
        RoomStays(records, records[i].seen, records[i].time, [r], records[i].time);
      } else {
        RoomStays(records, r.seen, r.time, [r], r.time);
      }
    }
  }

  lemma AppendKeepsTail(times: seq<int>, records: seq<Record>, pruned: nat, clock: int, r: Record)
    requires InOrder(records, clock) && Tail(times, records, pruned, clock) && clock <= r.time
    ensures InOrder(records + [r], r.time) && Tail(times + [r.time], records + [r], pruned, r.time)
  {
  }

  /** How one recovery goes: sanitizing, whether a restart is asked for, and its result. */
  datatype Answers = Answers(sanitizeOk: bool, restart: bool, restartOk: bool)

  class Limiter {
    /** `_recovery_times`. */
    var times: seq<int>
    /** Everything ever recorded, how many of those were pruned, and the last clock reading. */
    var records: seq<Record>
    ghost var pruned: nat
    ghost var clock: int

    ghost predicate Valid()
      reads this
    {
      InOrder(records, clock) && Tail(times, records, pruned, clock) && AllHadRoom(records)
    }

    constructor (now: int)
      ensures Valid() && records == [] && clock == now && times == []
    {
      times, records, pruned, clock := [], [], 0, now;
    }

    /** `_recovery_allowed`: prunes the list in place, then decides. */
    method RecoveryAllowed(now: int) returns (ok: bool)
      requires Valid() && clock <= now
      modifies this`times, this`pruned, this`clock
      ensures Valid() && clock == now
      ensures times == Prune(old(times), now)
      // exactly when the records so far leave room
      ensures ok <==> Allowed(times, now)
      ensures ok <==> Room(records, |records|, now)
    {
      pruned := PruneKeepsTail(times, records, pruned, clock, now);
      times := Prune(times, now);
      clock := now;
      PrunedAreRecent(old(times), now);
      AllowedHasRoom(times, records, pruned, now);
      if times != [] && now - times[|times| - 1] < MIN_GAP {
        return false;
      }
      return |times| < MAX_RECOVERIES_PER_HOUR;
    }

    /** `_recovery_times.append(time.time())`, for a recovery whose check at time `checked` saw `seen` records. */
    method Append(now: int, forced: bool, seen: nat, ghost checked: int)
      requires Valid() && clock <= now
      requires !forced ==> Room(records, seen, checked) && checked <= now
      modifies this
      ensures Valid() && clock == now
      ensures times == old(times) + [now] && records == old(records) + [Record(now, forced, seen)]
      // within the limit exactly if the check would pass again
      ensures Limited(records, |old(records)|) <==> forced || Allowed(Prune(old(times), now), now)
    {
      var r := Record(now, forced, seen);
      if !forced {
        RoomStays(records, seen, checked, [], now);
        assert records + [] == records;
      }
      EarlierHadRoom(records, r);
      RecordedIsLimitedExactlyWhen(times, records, pruned, clock, r);
      AppendKeepsTail(times, records, pruned, clock, r);
      records := records + [r];
      times := times + [now];
      clock := now;
    }

    /** `recover_simulate_logstash`: the append happens at `later`, after sanitizing and restarting. */
    method Recover(force: bool, now: int, later: int, a: Answers) returns (success: bool)
      requires Valid() && clock <= now <= later
      modifies this
      ensures Valid() && clock <= later
      ensures old(records) <= records <= old(records) + [Record(later, force, |old(records)|)]
      ensures |records| > |old(records)| <==>
                (force || Room(old(records), |old(records)|, now)) && a.sanitizeOk && (a.restart ==> a.restartOk)
      ensures success <==> |records| > |old(records)|
    {
      if !force {
        var ok := RecoveryAllowed(now);
        if !ok {
          return false;
        }
      }
      if !a.sanitizeOk || (a.restart && !a.restartOk) {
        return false;
      }
      Append(later, force, |records|, now);
      return true;
    }
  }

  /** One recovery request: forced or not, the two clock readings, and how it goes. */
  datatype Request = Request(force: bool, now: int, later: int, answers: Answers)

  /** The clock before request `i`. */
  function Before(requests: seq<Request>, start: int, i: nat): int
    requires i <= |requests|
  {
    if i == 0 then start else requests[i - 1].later
  }

  ghost predicate ClockRuns(requests: seq<Request>, start: int) {
    forall i | 0 <= i < |requests| :: Before(requests, start, i) <= requests[i].now <= requests[i].later
  }

  lemma AllUndisturbedAreLimited(records: seq<Record>)
    requires AllHadRoom(records) && Undisturbed(records)
    ensures AllLimited(records)
  {
    forall i | 0 <= i < |records|
      ensures Limited(records, i)
    {
      UndisturbedIsLimited(records, i);
    }
  }

  /**
  Over any sequence of recoveries under a clock that never runs backwards, every unforced one
  is recorded at least 45 s after the record before it and an hour after the fifth before it.
  */
  method RunRecoveries(l: Limiter, requests: seq<Request>)
    requires l.Valid() && ClockRuns(requests, l.clock) && Undisturbed(l.records)
    modifies l
    ensures l.Valid() && Undisturbed(l.records)
    ensures AllLimited(l.records) && old(l.records) <= l.records
  {
    for i := 0 to |requests|
      invariant l.Valid() && old(l.records) <= l.records && Undisturbed(l.records)
      invariant l.clock <= Before(requests, old(l.clock), i)
    {
      var r := requests[i];
      assert Before(requests, old(l.clock), i) <= r.now;
      var _ := l.Recover(r.force, r.now, r.later, r.answers);
    }
    AllUndisturbedAreLimited(l.records);
  }

  // ----- recoveries that overlap -----

  /** A step of some thread: the check of recovery `id`, or the record of its success. */
  datatype Step = Check(id: nat, force: bool, now: int) | Finish(id: nat, now: int)

  function TimeOf(steps: seq<Step>, start: int, i: nat): int
    requires i <= |steps|
  {
    if i == 0 then start else steps[i - 1].now
  }

  /** A recovery on its way: forced or not, and what its check saw when. */
  datatype Pending = Pending(force: bool, seen: nat, checked: int)

  ghost predicate AllAllowed(pending: map<nat, Pending>, records: seq<Record>, clock: int) {
    forall id | id in pending && !pending[id].force ::
      Room(records, pending[id].seen, pending[id].checked) && pending[id].checked <= clock
  }

  /**
  Over any interleaving of checks and records of any number of recoveries: every unforced one
  had room among the records its check saw, and it keeps both distances if and only if it would
  have passed the check again when it was recorded; no other record in between is enough for
  that. `pending` are the recoveries on their way.
  */
  method RunInterleaved(l: Limiter, steps: seq<Step>)
    requires l.Valid()
    requires forall i | 0 <= i < |steps| :: TimeOf(steps, l.clock, i) <= steps[i].now
    modifies l
    ensures l.Valid() && old(l.records) <= l.records
    ensures AllHadRoom(l.records)
    ensures forall i | 0 <= i < |l.records| :: Limited(l.records, i) <==> l.records[i].forced || PassesAgain(l.records, i)
    ensures forall i | 0 <= i < |l.records| && l.records[i].seen == i :: Limited(l.records, i)
  {
    var pending: map<nat, Pending> := map[];
    for i := 0 to |steps|
      invariant l.Valid() && old(l.records) <= l.records
      invariant l.clock <= TimeOf(steps, old(l.clock), i)
      invariant AllAllowed(pending, l.records, l.clock)
    {
      assert TimeOf(steps, old(l.clock), i) <= steps[i].now;
      pending := Advance(l, steps[i], pending);
    }
    forall i | 0 <= i < |l.records|
      ensures Limited(l.records, i) <==> l.records[i].forced || PassesAgain(l.records, i)
      ensures l.records[i].seen == i ==> Limited(l.records, i)
    {
      LimitedExactlyWhen(l.records, l.clock, i);
      if l.records[i].seen == i {
        UndisturbedIsLimited(l.records, i);
      }
    }
  }

  method Advance(l: Limiter, step: Step, pending: map<nat, Pending>) returns (next: map<nat, Pending>)
    requires l.Valid() && l.clock <= step.now && AllAllowed(pending, l.records, l.clock)
    modifies l
    ensures l.Valid() && l.clock <= step.now && old(l.records) <= l.records
    ensures AllAllowed(next, l.records, l.clock)
    ensures |l.records| <= |old(l.records)| + 1
    ensures |l.records| > |old(l.records)| <==> step.Finish? && step.id in pending
  {
    match step {
      case Check(id, force, now) =>
        var ok := force;
        if !force {
          ok := l.RecoveryAllowed(now);
        }
        next := if ok then pending[id := Pending(force, |l.records|, now)] else pending - {id};
      case Finish(id, now) =>
        if id !in pending {
          return pending;
        }
        ghost var before := l.records;
        l.Append(now, pending[id].force, pending[id].seen, pending[id].checked);
        next := pending - {id};
        forall k | k in next && !next[k].force
          ensures Room(l.records, next[k].seen, next[k].checked)
        {
          RoomStays(before, next[k].seen, next[k].checked, [Record(now, pending[id].force, pending[id].seen)], next[k].checked);
        }
    }
  }

  /** The records of two recoveries that both saw the first `n`. */
  function WithTwo(records: seq<Record>, record1: int, record2: int): seq<Record> {
    records + [Record(record1, false, |records|), Record(record2, false, |records|)]
  }

  /** Both checks come before the first record: both pass if there is room for one. */
  method CheckTwice(l: Limiter, check1: int, check2: int) returns (both: bool)
    requires l.Valid() && l.clock <= check1 <= check2
    modifies l
    ensures l.Valid() && l.clock <= check2 && l.records == old(l.records)
    ensures both <==> Room(l.records, |l.records|, check1)
    ensures both ==> Room(l.records, |l.records|, check2)
  {
    both := l.RecoveryAllowed(check1);
    if both {
      RoomStays(l.records, |l.records|, check1, [], check2);
      assert l.records + [] == l.records;
      var second := l.RecoveryAllowed(check2);
      assert second;
    }
  }

  method RecordTwo(l: Limiter, checked: int, record1: int, record2: int)
    requires l.Valid() && l.clock <= checked <= record1 <= record2 && Room(l.records, |l.records|, checked)
    modifies l
    ensures l.Valid() && l.records == WithTwo(old(l.records), record1, record2)
  {
    var n := |l.records|;
    ghost var before := l.records;
    l.Append(record1, false, n, checked);
    RoomStays(before, n, checked, [Record(record1, false, n)], checked);
    l.Append(record2, false, n, checked);
  }

  /**
  Two recoveries that overlap in this way are both recorded. The first one is within the limit,
  the second one if and only if it would have passed the check again.
  */
  method RecordBoth(l: Limiter, check1: int, check2: int, record1: int, record2: int) returns (both: bool)
    requires l.Valid() && l.clock <= check1 <= check2 <= record1 <= record2
    modifies l
    ensures l.Valid()
    ensures both <==> Room(old(l.records), |old(l.records)|, check1)
    ensures l.records == if both then WithTwo(old(l.records), record1, record2) else old(l.records)
    ensures both ==> Limited(l.records, |old(l.records)|)
    ensures both ==> (Limited(l.records, |old(l.records)| + 1) <==> PassesAgain(l.records, |old(l.records)| + 1))
  {
    var n := |l.records|;
    both := CheckTwice(l, check1, check2);
    if both {
      RecordTwo(l, check2, record1, record2);
      UndisturbedIsLimited(l.records, n);
      LimitedExactlyWhen(l.records, l.clock, n + 1);
    }
  }
}
