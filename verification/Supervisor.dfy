/**
The embedded Logstash supervisor: health flag, heap and unresponsiveness timers, restarts, and
the warm-up gate on slot allocation that reads its health timestamp.
*/
module Supervisor {
  import opened Options

  const HEAP_THRESHOLD := 95.0
  const THRESHOLD_SECONDS := 60.0
  const RSS_MULTIPLIER := 1.5
  const UNRESPONSIVE_THRESHOLD := 6
  const WARMUP_SECONDS := 15.0

  /** One look at Logstash: both clocks, heap percentage and maximum from its API, memory from the system. */
  datatype Sample = Sample(wall: real, mono: real, heap: Option<real>, heapMax: Option<real>, rss: Option<real>)

  predicate Responsive(s: Sample) {
    s.heap.Some? || s.rss.Some?
  }

  predicate High(s: Sample) {
    s.heap.Some? && s.heap.value > HEAP_THRESHOLD
  }

  /** The resident memory is far beyond the maximal heap. */
  predicate Bloated(s: Sample, heapMax: Option<real>) {
    s.rss.Some? && s.rss.value != 0.0 && heapMax.Some? && s.rss.value > heapMax.value * RSS_MULTIPLIER
  }

  /** The heap timer runs from the first high sample on; a responsive sample below the threshold stops it. */
  function TimerAfter(start: Option<real>, s: Sample): Option<real> {
    if !Responsive(s) then start
    else if !High(s) then None
    else if start.Some? then start
    else Some(s.wall)
  }

  datatype Reason = ApiUnresponsive | HighHeap | HighRss

  /** What happened to the supervised process, in order. */
  datatype Event = Sampled(sample: Sample, fired: Option<Reason>) | Restart(mono: real)

  /** How many samples at the end of the log, restarts left aside, were unresponsive. */
  function Silence(log: seq<Event>): nat {
    if log == [] then 0
    else
      match log[|log| - 1]
      case Restart(_) => Silence(log[..|log| - 1])
      case Sampled(s, _) => if Responsive(s) then 0 else Silence(log[..|log| - 1]) + 1
  }

  /** The time of the last restart. */
  function LastRestart(log: seq<Event>): Option<real> {
    if log == [] then None
    else
      match log[|log| - 1]
      case Restart(t) => Some(t)
      case Sampled(_, _) => LastRestart(log[..|log| - 1])
  }

  /** The heap is over ninety-five percent. */
  ghost predicate IsHigh(e: Event) {
    e.Sampled? && e.sample.heap.Some? && e.sample.heap.value > 95.0
  }

  /** Neither a restart nor an answer that is not high. */
  ghost predicate StaysHigh(e: Event) {
    e.Sampled? && (e.sample.heap.Some? || e.sample.rss.Some? ==> IsHigh(e))
  }

  /** The heap has been high since sample `i`. */
  ghost predicate HighFrom(log: seq<Event>, i: nat) {
    i < |log| && IsHigh(log[i]) && forall k | i < k < |log| :: StaysHigh(log[k])
  }

  /** And sample `i` was the first to show it. */
  ghost predicate FirstHigh(log: seq<Event>, i: nat) {
    HighFrom(log, i) && forall j: nat | j < i :: !HighFrom(log, j)
  }

  lemma HighFromStep(log: seq<Event>, e: Event, i: nat)
    ensures HighFrom(log + [e], i) <==> if i < |log| then HighFrom(log, i) && StaysHigh(e) else i == |log| && IsHigh(e)
  {
    var longer := log + [e];
    assert longer[|log|] == e && forall k | 0 <= k < |log| :: longer[k] == log[k];
  }

  /** A heap timer that runs exactly while the heap has been high, since sample `from`. */
  ghost predicate TimerIs(log: seq<Event>, start: Option<real>, from: nat) {
    if start.None? then forall i: nat :: !HighFrom(log, i)
    else FirstHigh(log, from) && log[from].sample.wall == start.value
  }

  lemma TimerStep(log: seq<Event>, start: Option<real>, from: nat, s: Sample, fired: Option<Reason>)
    requires TimerIs(log, start, from)
    ensures TimerIs(log + [Sampled(s, fired)], TimerAfter(start, s), if start.Some? then from else |log|)
  {
    forall i: nat
      ensures HighFrom(log + [Sampled(s, fired)], i) <==>
        if i < |log| then HighFrom(log, i) && StaysHigh(Sampled(s, fired)) else i == |log| && IsHigh(Sampled(s, fired))
    {
      HighFromStep(log, Sampled(s, fired), i);
    }
  }

  lemma TimerStops(log: seq<Event>, now: real, from: nat)
    ensures TimerIs(log + [Restart(now)], None, from)
  {
    forall i: nat
      ensures !HighFrom(log + [Restart(now)], i)
    {
      HighFromStep(log, Restart(now), i);
    }
  }

  /** What the timer tells: the heap has been high for a minute, by the wall clock, since it first was. */
  ghost predicate Overheated(log: seq<Event>) {
    log != [] && IsHigh(log[|log| - 1]) && exists i: nat :: FirstHigh(log, i) && log[|log| - 1].sample.wall - log[i].sample.wall >= 60.0
  }

  lemma OverheatedExactlyWhen(log: seq<Event>, start: Option<real>, from: nat, s: Sample, fired: Option<Reason>)
    requires TimerIs(log, start, from)
    ensures Overheated(log + [Sampled(s, fired)]) <==> High(s) && start.Some? && s.wall - start.value >= 60.0
  {
    var longer := log + [Sampled(s, fired)];
    TimerStep(log, start, from, s, fired);
    assert longer[|longer| - 1].sample == s;
    if High(s) {
      var first := if start.Some? then from else |log|;
      assert FirstHigh(longer, first);
      assert longer[first].sample.wall == if start.Some? then start.value else s.wall;
      forall i: nat | FirstHigh(longer, i)
        ensures i == first
      {
        assert !(i < first) && !(first < i);
      }
    }
  }

  class LogstashSupervisor {
    var highMemoryStart: Option<real>
    var apiUnresponsive: nat
    var isHealthy: bool
    var healthySince: Option<real>
    var heapMax: Option<real>
    var restartCount: nat

    ghost var log: seq<Event>
    /** Position in the log of the sample that started the heap timer. */
    ghost var highFrom: nat
    ghost var clock: real

    ghost predicate TimerSound(l: seq<Event>)
      reads this`highMemoryStart, this`highFrom
    {
      TimerIs(l, highMemoryStart, highFrom)
    }

    /** The health timestamp is set exactly while healthy, and lies after the last restart. */
    ghost predicate HealthSound(l: seq<Event>, now: real)
      reads this`isHealthy, this`healthySince
    {
      && (isHealthy <==> healthySince.Some?)
      && (healthySince.Some? ==> healthySince.value <= now)
      && (LastRestart(l).Some? ==> LastRestart(l).value <= now)
      && (healthySince.Some? && LastRestart(l).Some? ==> LastRestart(l).value <= healthySince.value)
    }

    ghost predicate Valid()
      reads this
    {
      TimerSound(log) && HealthSound(log, clock) && apiUnresponsive == Silence(log)
    }

    constructor (now: real)
      ensures Valid() && log == [] && clock == now && !isHealthy && restartCount == 0
    {
      highMemoryStart, apiUnresponsive, isHealthy, healthySince, heapMax, restartCount := None, 0, false, None, None, 0;
      log, highFrom, clock := [], 0, now;
    }

    /** `_check_memory_thresholds`. */
    method CheckMemoryThresholds(s: Sample) returns (reason: Option<Reason>)
      requires Valid() && clock <= s.mono
      modifies this
      ensures Valid() && clock == s.mono && log == old(log) + [Sampled(s, reason)]
      ensures restartCount == old(restartCount)
      // an answer gives heap or memory; six samples without one, restarts aside, take health away
      ensures var answered := s.heap.Some? || s.rss.Some?;
        && (isHealthy <==> answered || (old(isHealthy) && Silence(log) < 6))
        && (answered && !old(isHealthy) ==> healthySince == Some(s.mono))
        && (reason == Some(ApiUnresponsive) <==> !answered && Silence(log) >= 6)
      ensures isHealthy && old(isHealthy) ==> healthySince == old(healthySince)
      ensures reason == Some(HighHeap) <==> Overheated(log)
      ensures reason == Some(HighRss) <==>
        (&& reason != Some(HighHeap) && s.rss.Some? && s.rss.value != 0.0
         && heapMax.Some? && s.rss.value > heapMax.value * 1.5)
      ensures highMemoryStart == TimerAfter(old(highMemoryStart), s)
      ensures heapMax == if old(heapMax).None? && s.heapMax.Some? && s.heapMax.value > 0.0 then s.heapMax else old(heapMax)
    {
      if s.heapMax.Some? && heapMax.None? && s.heapMax.value > 0.0 {
        heapMax := s.heapMax;
      }
      if !Responsive(s) {
        reason := SilentSample(s);
      } else {
        reason := ResponsiveSample(s);
      }
    }

    /** The API and the process gave no data. */
    method SilentSample(s: Sample) returns (reason: Option<Reason>)
      requires Valid() && clock <= s.mono && !Responsive(s)
      modifies this`apiUnresponsive, this`isHealthy, this`healthySince, this`log, this`clock, this`highFrom
      ensures Valid() && clock == s.mono && log == old(log) + [Sampled(s, reason)]
      ensures !Overheated(log)
      ensures reason == (if apiUnresponsive >= UNRESPONSIVE_THRESHOLD then Some(ApiUnresponsive) else None)
      ensures isHealthy <==> old(isHealthy) && apiUnresponsive < UNRESPONSIVE_THRESHOLD
      ensures isHealthy ==> healthySince == old(healthySince)
    {
      apiUnresponsive := apiUnresponsive + 1;
      reason := None;
      if apiUnresponsive >= UNRESPONSIVE_THRESHOLD {
        isHealthy, healthySince := false, None;
        reason := Some(ApiUnresponsive);
      }
      Log(s, reason, highMemoryStart);
    }

    /** The sample joins the log; `start` is the heap timer before it. */
    ghost method Log(s: Sample, reason: Option<Reason>, start: Option<real>)
      requires TimerIs(log, start, highFrom) && highMemoryStart == TimerAfter(start, s)
      requires HealthSound(log, s.mono) && apiUnresponsive == if Responsive(s) then 0 else Silence(log) + 1
      modifies this`log, this`clock, this`highFrom
      ensures Valid() && clock == s.mono && log == old(log) + [Sampled(s, reason)]
      ensures Overheated(log) <==> High(s) && start.Some? && s.wall - start.value >= 60.0
    {
      SampleStep(log, s, reason);
      TimerStep(log, start, highFrom, s, reason);
      OverheatedExactlyWhen(log, start, highFrom, s, reason);
      highFrom := if start.Some? then highFrom else |log|;
      log, clock := log + [Sampled(s, reason)], s.mono;
    }

    /** Some data came back: healthy, then the heap timer, then the resident memory. */
    method ResponsiveSample(s: Sample) returns (reason: Option<Reason>)
      requires Valid() && clock <= s.mono && Responsive(s)
      modifies this`apiUnresponsive, this`isHealthy, this`healthySince, this`log, this`clock
      modifies this`highMemoryStart, this`highFrom
      ensures Valid() && clock == s.mono && log == old(log) + [Sampled(s, reason)]
      ensures isHealthy && apiUnresponsive == 0
      ensures healthySince == if old(isHealthy) then old(healthySince) else Some(s.mono)
      ensures reason != Some(ApiUnresponsive)
      ensures reason == Some(HighHeap) <==>
        High(s) && old(highMemoryStart).Some? && s.wall - old(highMemoryStart).value >= THRESHOLD_SECONDS
      ensures reason == Some(HighHeap) <==> Overheated(log)
      ensures reason == Some(HighRss) <==> reason != Some(HighHeap) && Bloated(s, heapMax)
      ensures highMemoryStart == TimerAfter(old(highMemoryStart), s)
    {
      apiUnresponsive, isHealthy := 0, true;
      if healthySince.None? {
        healthySince := Some(s.mono);
      }
      reason := None;
      var expired := HeapTimer(s);
      if expired {
        reason := Some(HighHeap);
      } else if Bloated(s, heapMax) {
        reason := Some(HighRss);
      }
      Log(s, reason, old(highMemoryStart));
    }

    /** The heap timer on a responsive sample; tells whether it expired. */
    method HeapTimer(s: Sample) returns (expired: bool)
      requires Responsive(s)
      modifies this`highMemoryStart
      ensures expired <==>
        High(s) && old(highMemoryStart).Some? && s.wall - old(highMemoryStart).value >= THRESHOLD_SECONDS
      ensures highMemoryStart == TimerAfter(old(highMemoryStart), s)
    {
      if !High(s) {
        highMemoryStart := None;
        return false;
      }
      if highMemoryStart.None? {
        highMemoryStart := Some(s.wall);
        return false;
      }
      return s.wall - highMemoryStart.value >= THRESHOLD_SECONDS;
    }

    /** `restart_logstash`, taken as one step at `now`. The unresponsive counter is left as it is. */
    method RestartLogstash(now: real)
      requires Valid() && clock <= now
      modifies this
      ensures Valid() && clock == now && log == old(log) + [Restart(now)]
      ensures restartCount == old(restartCount) + 1
      ensures !isHealthy && highMemoryStart == None && apiUnresponsive == old(apiUnresponsive)
    {
      ghost var longer := log + [Restart(now)];
      RestartStep(log, now);
      TimerStops(log, now, highFrom);
      restartCount := restartCount + 1;
      isHealthy, healthySince, highMemoryStart := false, None, None;
      log, clock := longer, now;
      assert TimerSound(longer) && HealthSound(longer, now);
    }

    /** The warm-up gate of the allocate endpoint, with the Retry-After it sends on rejection. */
    method AllocateGate(now: real) returns (accepted: bool, retryAfter: int)
      requires Valid() && clock <= now
      ensures accepted ==> isHealthy && (LastRestart(log).Some? ==> now - LastRestart(log).value >= 15.0)
      ensures !accepted && healthySince.Some? ==>
        // waiting as told is enough, and a second less would not do
        && now + retryAfter as real - healthySince.value > 15.0
        && now + (retryAfter - 1) as real - healthySince.value <= 15.0
      ensures accepted <==> healthySince.Some? && now - healthySince.value >= 15.0
      ensures healthySince.None? ==> retryAfter == 15
    {
      if healthySince.None? {
        return false, WARMUP_SECONDS.Floor;
      }
      var healthyFor := now - healthySince.value;
      if healthyFor < WARMUP_SECONDS {
        return false, (WARMUP_SECONDS - healthyFor).Floor + 1;
      }
      return true, 0;
    }
  }

  lemma SampleStep(log: seq<Event>, s: Sample, reason: Option<Reason>)
    ensures var longer := log + [Sampled(s, reason)];
      Silence(longer) == (if Responsive(s) then 0 else Silence(log) + 1) && LastRestart(longer) == LastRestart(log)
  {
    assert (log + [Sampled(s, reason)])[..|log|] == log;
  }

  lemma RestartStep(log: seq<Event>, t: real)
    ensures Silence(log + [Restart(t)]) == Silence(log) && LastRestart(log + [Restart(t)]) == Some(t)
  {
    assert (log + [Restart(t)])[..|log|] == log;
  }

  /** A sample without an answer, and none was answered after it. */
  ghost predicate IsUnanswered(log: seq<Event>, i: nat) {
    i < |log| && log[i].Sampled? && forall j | i <= j < |log| :: !Answered(log[j])
  }

  ghost function Unanswered(log: seq<Event>): set<nat> {
    set i: nat | i < |log| && IsUnanswered(log, i)
  }

  ghost predicate Answered(e: Event) {
    e.Sampled? && (e.sample.heap.Some? || e.sample.rss.Some?)
  }

  /** The counter is their number. */
  lemma {:induction false} SilenceCounts(log: seq<Event>)
    ensures Silence(log) == |Unanswered(log)|
  {
    if log == [] {
      assert Unanswered(log) == {};
    } else {
      var n := |log| - 1;
      SilenceCounts(log[..n]);
      UnansweredStep(log[..n], log[n]);
      assert log == log[..n] + [log[n]];
    }
  }

  lemma UnansweredStep(log: seq<Event>, e: Event)
    ensures Unanswered(log + [e]) ==
      if Answered(e) then {} else Unanswered(log) + if e.Sampled? then {|log|} else {}
    ensures |log| !in Unanswered(log)
  {
    var longer := log + [e];
    assert longer[|log|] == e && forall k | 0 <= k < |log| :: longer[k] == log[k];
    forall i: nat
      ensures IsUnanswered(longer, i) <==> !Answered(e) && (IsUnanswered(log, i) || (i == |log| && e.Sampled?))
    {
    }
  }

  /** An unresponsive verdict needs six silent samples in a row, restarts in between not counting. */
  lemma {:induction false} SilenceMeansConsecutive(log: seq<Event>, n: nat) returns (at: seq<nat>)
    requires Silence(log) >= n
    ensures |at| == n
    ensures forall k | 0 <= k < n :: at[k] < |log| && log[at[k]].Sampled? && !Responsive(log[at[k]].sample)
    ensures forall k, m | 0 <= k < m < n :: at[k] < at[m]
    ensures forall j | 0 <= j < |log| && log[j].Sampled? && (n > 0 && j >= at[0]) :: !Responsive(log[j].sample)
  {
    if n == 0 {
      at := [];
    } else {
      var init, last := log[..|log| - 1], log[|log| - 1];
      match last {
        case Restart(_) =>
          at := SilenceMeansConsecutive(init, n);
        case Sampled(s, _) =>
          var before := SilenceMeansConsecutive(init, n - 1);
          at := before + [|log| - 1];
      }
      forall j | 0 <= j < |log| && log[j].Sampled? && j >= at[0]
        ensures !Responsive(log[j].sample)
      {
        if j < |init| {
          assert init[j] == log[j];
        }
      }
    }
  }

  /**
  A restart, whoever asks for it, does not reset the counter: the first silent sample after it
  asks for the next restart at once if and only if the counter stood one below the threshold.
  */
  method RestartAgainAfterOneSilentSample(sup: LogstashSupervisor, now: real, s: Sample) returns (reason: Option<Reason>)
    requires sup.Valid() && sup.clock <= now <= s.mono && !Responsive(s)
    modifies sup
    ensures reason == Some(ApiUnresponsive) <==> old(sup.apiUnresponsive) >= 5
  {
    sup.RestartLogstash(now);
    ghost var log := sup.log;
    reason := sup.CheckMemoryThresholds(s);
    SampleStep(log, s, reason);
  }

  /** A monitoring run: samples, restarts asked for by them, and restarts from outside. */
  datatype Turn = Look(sample: Sample) | Trigger(mono: real)

  function TimeOf(t: Turn): real {
    match t
    case Look(s) => s.mono
    case Trigger(m) => m
  }

  /** The clock before turn `i`. */
  function Before(turns: seq<Turn>, start: real, i: nat): real
    requires i <= |turns|
  {
    if i == 0 then start else TimeOf(turns[i - 1])
  }

  ghost predicate Ordered(turns: seq<Turn>, start: real) {
    forall i | 0 <= i < |turns| :: Before(turns, start, i) <= TimeOf(turns[i])
  }

  /** The monitor loop with restarts as single steps, under a monotonic clock. */
  method Monitor(sup: LogstashSupervisor, turns: seq<Turn>)
    requires sup.Valid() && Ordered(turns, sup.clock)
    modifies sup
    ensures sup.Valid()
    ensures sup.isHealthy <==> sup.healthySince.Some?
  {
    for i := 0 to |turns|
      invariant sup.Valid()
      invariant sup.clock == Before(turns, old(sup.clock), i)
    {
      assert Before(turns, old(sup.clock), i) <= TimeOf(turns[i]);
      match turns[i] {
        case Look(s) =>
          var reason := sup.CheckMemoryThresholds(s);
          if reason.Some? {
            sup.RestartLogstash(s.mono);
          }
        case Trigger(m) =>
          sup.RestartLogstash(m);
      }
    }
  }
}
