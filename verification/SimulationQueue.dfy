/**
The bounded queue of simulation requests: arrivals while Logstash is down, and the processor
that pops, posts with retries, and puts a failed request back at the front.
*/
module SimulationQueue {
  import opened Options

  const CAPACITY := 100
  const MAX_RETRIES := 3

  /** Requests are named by arrival number. `delivered` and `dropped` are the model's record. */
  datatype State = State(
    items: seq<nat>, inFlight: Option<nat>, delivered: seq<nat>, dropped: set<nat>, arrived: nat)

  /** What can happen to the queue; the processor is the only one that pops. */
  datatype Event = Arrive | Pop | Deliver | Requeue | Abandon

  const EMPTY := State([], None, [], {}, 0)

  function Step(s: State, e: Event): State {
    match e
    case Arrive =>
      // deque(maxlen=100).append drops from the left when full
      if |s.items| < CAPACITY then s.(items := s.items + [s.arrived], arrived := s.arrived + 1)
      else s.(items := s.items[1..] + [s.arrived], dropped := s.dropped + {s.items[0]}, arrived := s.arrived + 1)
    case Pop =>
      if s.inFlight.Some? || s.items == [] then s
      else s.(items := s.items[1..], inFlight := Some(s.items[0]))
    case Deliver =>
      if s.inFlight.None? then s
      else s.(inFlight := None, delivered := s.delivered + [s.inFlight.value])
    case Requeue =>
      // deque(maxlen=100).appendleft drops from the right when full
      if s.inFlight.None? then s
      else if |s.items| < CAPACITY then s.(items := [s.inFlight.value] + s.items, inFlight := None)
      else s.(items := [s.inFlight.value] + s.items[..CAPACITY - 1], inFlight := None,
              dropped := s.dropped + {s.items[CAPACITY - 1]})
    case Abandon =>
      if s.inFlight.None? then s
      else s.(inFlight := None, dropped := s.dropped + {s.inFlight.value})
  }

  function Run(s: State, events: seq<Event>): State {
    if events == [] then s else Step(Run(s, events[..|events| - 1]), events[|events| - 1])
  }

  ghost predicate Increasing(xs: seq<nat>) {
    forall i, j | 0 <= i < j < |xs| :: xs[i] < xs[j]
  }

  function InFlight(s: State): seq<nat> {
    if s.inFlight.Some? then [s.inFlight.value] else []
  }

  /** Everything that was not dropped: delivered first, then the request in flight, then the queue. */
  function Live(s: State): seq<nat> {
    s.delivered + InFlight(s) + s.items
  }

  /**
  The queue is bounded; what was delivered, is in flight or waits stands in arrival order;
  and every arrival is either there or dropped, never both.
  */
  ghost predicate Sound(s: State) {
    && |s.items| <= CAPACITY
    && Increasing(Live(s))
    && (forall id: nat :: id in Live(s) || id in s.dropped <==> id < s.arrived)
    && (forall id | id in Live(s) :: id !in s.dropped)
  }

  lemma AppendLive(xs: seq<nat>, x: nat)
    requires Increasing(xs) && forall y | y in xs :: y < x
    ensures Increasing(xs + [x])
    ensures forall y :: y in xs + [x] <==> y in xs || y == x
  {
    assert forall i | 0 <= i < |xs| :: xs[i] in xs;
  }

  lemma RemoveLive(xs: seq<nat>, k: nat)
    requires Increasing(xs) && k < |xs|
    ensures var ys := xs[..k] + xs[k + 1..];
      Increasing(ys) && forall y :: y in ys <==> y in xs && y != xs[k]
  {
    var ys := xs[..k] + xs[k + 1..];
    assert xs == xs[..k] + [xs[k]] + xs[k + 1..];
    forall y
      ensures y in ys <==> y in xs && y != xs[k]
    {
      if y in ys {
        var m :| 0 <= m < |ys| && ys[m] == y;
        assert y == if m < k then xs[m] else xs[m + 1];
      }
    }
  }

  lemma ArriveKeeps(s: State)
    requires Sound(s)
    ensures Sound(Step(s, Arrive))
  {
    var live := Live(s);
    var t := Step(s, Arrive);
    if |s.items| < CAPACITY {
      AppendLive(live, s.arrived);
      assert Live(t) == live + [s.arrived];
    } else {
      var k := |s.delivered| + |InFlight(s)|;
      assert live[k] == s.items[0];
      RemoveLive(live, k);
      var rest := live[..k] + live[k + 1..];
      AppendLive(rest, s.arrived);
      assert Live(t) == rest + [s.arrived];
    }
  }

  lemma RequeueKeeps(s: State)
    requires Sound(s)
    ensures Sound(Step(s, Requeue))
  {
    var live := Live(s);
    var t := Step(s, Requeue);
    if s.inFlight.Some? {
      if |s.items| < CAPACITY {
        assert Live(t) == live;
      } else {
        RemoveLive(live, |live| - 1);
        assert Live(t) == live[..|live| - 1] + live[|live|..];
      }
    }
  }

  lemma AbandonKeeps(s: State)
    requires Sound(s)
    ensures Sound(Step(s, Abandon))
  {
    var live := Live(s);
    if s.inFlight.Some? {
      RemoveLive(live, |s.delivered|);
      assert Live(Step(s, Abandon)) == live[..|s.delivered|] + live[|s.delivered| + 1..];
    }
  }

  lemma StepKeeps(s: State, e: Event)
    requires Sound(s)
    ensures Sound(Step(s, e))
    ensures s.delivered <= Step(s, e).delivered && s.dropped <= Step(s, e).dropped
  {
    match e
    case Arrive => ArriveKeeps(s);
    case Pop => assert Live(Step(s, e)) == Live(s);
    case Deliver => assert Live(Step(s, e)) == Live(s);
    case Requeue => RequeueKeeps(s);
    case Abandon => AbandonKeeps(s);
  }

  /** Under any interleaving of arrivals, pops, deliveries, re-queues and abandoned requests. */
  lemma {:induction false} RunKeeps(s: State, events: seq<Event>)
    requires Sound(s)
    ensures Sound(Run(s, events))
    ensures s.delivered <= Run(s, events).delivered && s.dropped <= Run(s, events).dropped
  {
    if events != [] {
      RunKeeps(s, events[..|events| - 1]);
      StepKeeps(Run(s, events[..|events| - 1]), events[|events| - 1]);
    }
  }

  lemma RunIsSound(events: seq<Event>)
    ensures Sound(Run(EMPTY, events))
  {
    assert Live(EMPTY) == [];
    RunKeeps(EMPTY, events);
  }

  lemma SplitIsDisjoint(a: seq<nat>, b: seq<nat>)
    requires Increasing(a + b)
    ensures Increasing(a) && Increasing(b)
    ensures forall x | x in a :: x !in b
  {
    var ab := a + b;
    assert forall i | 0 <= i < |a| :: a[i] == ab[i];
    assert forall i | 0 <= i < |b| :: b[i] == ab[|a| + i];
    forall x | x in a
      ensures x !in b
    {
      var i :| 0 <= i < |a| && a[i] == x;
      assert forall k | 0 <= k < |b| :: ab[i] < ab[|a| + k] == b[k];
    }
  }

  /** Read off a run: the bound, the delivery order, and exactly one fate per arrival. */
  lemma RunSummary(events: seq<Event>)
    ensures var s := Run(EMPTY, events);
      && |s.items| <= CAPACITY
      && Increasing(s.delivered)
      && (forall id: nat :: id < s.arrived <==>
            id in s.delivered || id in s.dropped || id in s.items || id in InFlight(s))
      && (forall id | id in s.delivered :: id !in s.dropped && id !in s.items && id !in InFlight(s))
      && (forall id | id in s.items :: id !in s.dropped && id !in InFlight(s))
      && (forall id | id in InFlight(s) :: id !in s.dropped)
  {
    var s := Run(EMPTY, events);
    RunIsSound(events);
    SplitIsDisjoint(s.delivered + InFlight(s), s.items);
    SplitIsDisjoint(s.delivered, InFlight(s));
    assert forall id :: id in Live(s) <==> id in s.delivered || id in InFlight(s) || id in s.items;
  }

  /** One request taken from the queue: arrivals meanwhile, slot restoration, and the posts. */
  datatype Round = Round(arrivals: nat, restored: bool, posts: seq<bool>)

  /** One of the first three posts was accepted. */
  predicate Accepted(posts: seq<bool>) {
    exists k :: 0 <= k < MAX_RETRIES && k < |posts| && posts[k]
  }

  /** What becomes of a request: given up without its slot, delivered once accepted, else back to the front. */
  function Fate(r: Round): Event {
    if !r.restored then Abandon else if Accepted(r.posts) then Deliver else Requeue
  }

  function Arrivals(n: nat): seq<Event> {
    if n == 0 then [] else Arrivals(n - 1) + [Arrive]
  }

  /** What happens to the queue while one request is processed. */
  function EventsOf(r: Round): seq<Event> {
    [Pop] + Arrivals(r.arrivals) + [Fate(r)]
  }

  /** The queue after the processor's rounds: it stops when the queue is empty and after a re-queue. */
  function Processed(s: State, rounds: seq<Round>): State
    decreases |rounds|
  {
    if rounds == [] || s.items == [] then s
    else
      var t := Run(s, EventsOf(rounds[0]));
      if Fate(rounds[0]) == Requeue then t else Processed(t, rounds[1..])
  }

  /** So the processor keeps the queue sound as well. */
  lemma {:induction false} ProcessedKeeps(s: State, rounds: seq<Round>)
    requires Sound(s)
    ensures Sound(Processed(s, rounds))
    ensures s.delivered <= Processed(s, rounds).delivered && s.dropped <= Processed(s, rounds).dropped
    decreases |rounds|
  {
    if rounds != [] && s.items != [] {
      RunKeeps(s, EventsOf(rounds[0]));
      ProcessedKeeps(Run(s, EventsOf(rounds[0])), rounds[1..]);
    }
  }

  lemma {:induction false} RunAppend(s: State, a: seq<Event>, b: seq<Event>)
    ensures Run(s, a + b) == Run(Run(s, a), b)
    decreases |b|
  {
    if b == [] {
      assert a + b == a;
    } else {
      RunAppend(s, a, b[..|b| - 1]);
      assert (a + b)[..|a + b| - 1] == a + b[..|b| - 1];
    }
  }

  lemma RunOne(s: State, e: Event)
    ensures Run(s, [e]) == Step(s, e)
  {
    assert Run(s, [e][..0]) == s;
  }

  /** Taking a request, the arrivals meanwhile and its fate, step by step. */
  lemma RoundRuns(s: State, r: Round)
    ensures Run(s, EventsOf(r)) == Step(Run(Step(s, Pop), Arrivals(r.arrivals)), Fate(r))
  {
    RunAppend(s, [Pop] + Arrivals(r.arrivals), [Fate(r)]);
    RunAppend(s, [Pop], Arrivals(r.arrivals));
    RunOne(s, Pop);
    RunOne(Run(s, [Pop] + Arrivals(r.arrivals)), Fate(r));
  }

  lemma MoreArrivals(s: State, n: nat)
    ensures Run(s, Arrivals(n + 1)) == Step(Run(s, Arrivals(n)), Arrive)
  {
    RunAppend(s, Arrivals(n), [Arrive]);
    RunOne(Run(s, Arrivals(n)), Arrive);
  }

  // ----- what a round leaves, in plain terms -----

  /** The next `n` arrival numbers. */
  function Numbers(from: nat, n: nat): seq<nat> {
    seq(n, i requires 0 <= i => from + i)
  }

  /** Of those waiting, the last hundred. */
  function Newest(all: seq<nat>): seq<nat> {
    if |all| <= 100 then all else all[|all| - 100..]
  }

  /** And those that had to go for them. */
  function Oldest(all: seq<nat>): set<nat> {
    if |all| <= 100 then {} else Members(all[..|all| - 100])
  }

  function Members(xs: seq<nat>): set<nat> {
    set x | x in xs
  }

  lemma OneMoreWaits(all: seq<nat>, x: nat)
    ensures Newest(all + [x]) == if |Newest(all)| < 100 then Newest(all) + [x] else Newest(all)[1..] + [x]
    ensures Oldest(all + [x]) == Oldest(all) + if |Newest(all)| < 100 then {} else {Newest(all)[0]}
  {
    var n := |all|;
    if n >= 100 {
      assert (all + [x])[..n + 1 - 100] == all[..n - 100] + [all[n - 100]];
      assert Newest(all)[0] == all[n - 100];
      assert Members(all[..n - 100]) == Oldest(all);
    }
  }

  lemma MoreNumbers(items: seq<nat>, from: nat, n: nat)
    ensures items + Numbers(from, n + 1) == items + Numbers(from, n) + [from + n]
  {
    assert Numbers(from, n + 1) == Numbers(from, n) + [from + n];
  }

  /** A queue of a hundred after `n` arrivals: it keeps the newest. */
  function Crowded(s: State, n: nat): State {
    var all := s.items + Numbers(s.arrived, n);
    s.(items := Newest(all), dropped := s.dropped + Oldest(all), arrived := s.arrived + n)
  }

  lemma ArrivalLeaves(s: State, before: seq<nat>, gone: set<nat>)
    requires s.items == Newest(before) && s.dropped == gone + Oldest(before)
    ensures Step(s, Arrive) == s.(items := Newest(before + [s.arrived]), dropped := gone + Oldest(before + [s.arrived]),
                                  arrived := s.arrived + 1)
  {
    OneMoreWaits(before, s.arrived);
  }

  lemma OneMoreCrowds(s: State, n: nat)
    ensures Crowded(s, n + 1) == Step(Crowded(s, n), Arrive)
  {
    var all := s.items + Numbers(s.arrived, n);
    MoreNumbers(s.items, s.arrived, n);
    ArrivalLeaves(Crowded(s, n), all, s.dropped);
  }

  lemma {:induction false} ArrivalsLeave(s: State, n: nat)
    requires |s.items| <= 100
    ensures Run(s, Arrivals(n)) == Crowded(s, n)
  {
    if n == 0 {
      assert s.items + Numbers(s.arrived, 0) == s.items;
    } else {
      ArrivalsLeave(s, n - 1);
      MoreArrivals(s, n - 1);
      OneMoreCrowds(s, n - 1);
    }
  }

  /** The slot is there, and none of the first three posts was accepted. */
  ghost predicate AllPostsFail(r: Round) {
    r.restored && !(|r.posts| > 0 && r.posts[0]) && !(|r.posts| > 1 && r.posts[1]) && !(|r.posts| > 2 && r.posts[2])
  }

  /** The oldest request is in flight while others arrive. */
  lemma InFlightMeanwhile(s: State, n: nat)
    requires 0 < |s.items| <= 100 && s.inFlight == None
    ensures var all := s.items[1..] + Numbers(s.arrived, n);
      Run(Step(s, Pop), Arrivals(n)) ==
        State(Newest(all), Some(s.items[0]), s.delivered, s.dropped + Oldest(all), s.arrived + n)
  {
    ArrivalsLeave(Step(s, Pop), n);
  }

  /**
  What becomes of the oldest request: without its slot it is given up; if one of three posts is
  accepted it is delivered; and if none is, it is the first in the queue again, for which a full
  queue loses its newest one.
  */
  lemma RoundLeaves(s: State, r: Round)
    requires 0 < |s.items| <= 100 && s.inFlight == None
    ensures var t, head := Run(s, EventsOf(r)), s.items[0];
      var all := s.items[1..] + Numbers(s.arrived, r.arrivals);
      && t.inFlight == None && t.arrived == s.arrived + r.arrivals
      && t.delivered == (if r.restored && !AllPostsFail(r) then s.delivered + [head] else s.delivered)
      && (!AllPostsFail(r) ==>
            && t.items == Newest(all)
            && t.dropped == s.dropped + Oldest(all) + if r.restored then {} else {head})
      && (AllPostsFail(r) ==>
            && t.items == [head] + (if |all| < 100 then all else Newest(all)[..99])
            && t.dropped == s.dropped + Oldest(all) + if |all| < 100 then {} else {all[|all| - 1]})
  {
    RoundRuns(s, r);
    FateByPosts(r);
    InFlightMeanwhile(s, r.arrivals);
    var all := s.items[1..] + Numbers(s.arrived, r.arrivals);
    assert |all| >= 100 ==> Newest(all)[99] == all[|all| - 1];
  }

  lemma FateByPosts(r: Round)
    ensures Fate(r) == if !r.restored then Abandon else if AllPostsFail(r) then Requeue else Deliver
  {
    var p := r.posts;
    assert (exists k :: 0 <= k < 3 && k < |p| && p[k]) <==> (|p| > 0 && p[0]) || (|p| > 1 && p[1]) || (|p| > 2 && p[2]);
  }

  /** The queue after some rounds. */
  function AfterRounds(s: State, rounds: seq<Round>): State
    decreases |rounds|
  {
    if rounds == [] then s else AfterRounds(Run(s, EventsOf(rounds[0])), rounds[1..])
  }

  /** A pass of the processor stops at an empty queue, and after a request of which all posts fail. */
  ghost predicate PassStops(s: State, rounds: seq<Round>, k: nat)
    requires k <= |rounds|
  {
    && (forall i | 0 <= i < k :: AfterRounds(s, rounds[..i]).items != [])
    && (forall i | 0 <= i < k - 1 :: !AllPostsFail(rounds[i]))
    && (k == |rounds| || AfterRounds(s, rounds[..k]).items == [] || (k > 0 && AllPostsFail(rounds[k - 1])))
  }

  /** A pass serves request after request until it stops. */
  lemma {:induction false} PassEnds(s: State, rounds: seq<Round>) returns (k: nat)
    ensures k <= |rounds| && PassStops(s, rounds, k) && Processed(s, rounds) == AfterRounds(s, rounds[..k])
    decreases |rounds|
  {
    if rounds == [] || s.items == [] {
      return 0;
    }
    var t := Run(s, EventsOf(rounds[0]));
    var one := rounds[..1];
    assert one[1..] == [] && AfterRounds(s, one) == AfterRounds(t, one[1..]) == t;
    FateByPosts(rounds[0]);
    if Fate(rounds[0]) == Requeue {
      return 1;
    }
    var n := PassEnds(t, rounds[1..]);
    PassGoesOn(s, rounds, n);
    assert rounds[..n + 1][1..] == rounds[1..][..n];
    return n + 1;
  }

  lemma PassGoesOn(s: State, rounds: seq<Round>, n: nat)
    requires rounds != [] && s.items != [] && !AllPostsFail(rounds[0])
    requires n < |rounds| && PassStops(Run(s, EventsOf(rounds[0])), rounds[1..], n)
    ensures PassStops(s, rounds, n + 1)
  {
    forall i | 0 < i <= n + 1
      ensures AfterRounds(s, rounds[..i]) == AfterRounds(Run(s, EventsOf(rounds[0])), rounds[1..][..i - 1])
    {
      assert rounds[..i][1..] == rounds[1..][..i - 1];
    }
    assert rounds[..0] == [];
  }

  class Queue {
    var items: seq<nat>
    var inFlight: Option<nat>
    ghost var delivered: seq<nat>
    ghost var dropped: set<nat>
    var arrived: nat

    ghost function Value(): State
      reads this
    {
      State(items, inFlight, delivered, dropped, arrived)
    }

    predicate Bounded()
      reads this`items
    {
      |items| <= CAPACITY
    }

    constructor ()
      ensures Bounded() && Value() == EMPTY
    {
      items, inFlight, delivered, dropped, arrived := [], None, [], {}, 0;
    }

    /** An enqueue site of `simulate_log`. */
    method Append()
      requires Bounded()
      modifies this
      ensures Bounded() && Value() == Step(old(Value()), Arrive)
    {
      if |items| == CAPACITY {
        dropped := dropped + {items[0]};
        items := items[1..];
      }
      items := items + [arrived];
      arrived := arrived + 1;
    }

    method PopLeft() returns (popped: bool)
      requires Bounded() && inFlight == None
      modifies this
      ensures Bounded() && Value() == Step(old(Value()), Pop)
      ensures popped <==> old(items) != []
      ensures popped <==> inFlight.Some?
    {
      if items == [] {
        return false;
      }
      inFlight, items := Some(items[0]), items[1..];
      return true;
    }

    method AppendLeft()
      requires Bounded() && inFlight.Some?
      modifies this
      ensures Bounded() && Value() == Step(old(Value()), Requeue)
    {
      assert |items| == CAPACITY ==> ([inFlight.value] + items)[..CAPACITY] == [inFlight.value] + items[..CAPACITY - 1];
      items := [inFlight.value] + items;
      inFlight := None;
      if |items| > CAPACITY {
        dropped := dropped + {items[CAPACITY]};
        items := items[..CAPACITY];
      }
    }

    /** The posts of one request: success at the first accepted one. */
    method Post(posts: seq<bool>) returns (success: bool)
      ensures success <==> Accepted(posts)
    {
      for attempt := 0 to MAX_RETRIES
        invariant forall k | 0 <= k < attempt && k < |posts| :: !posts[k]
      {
        if attempt < |posts| && posts[attempt] {
          return true;
        }
      }
      return false;
    }

    /** Requests that arrive while the processor waits. */
    method Receive(n: nat)
      requires Bounded()
      modifies this
      ensures Bounded() && Value() == Run(old(Value()), Arrivals(n))
      ensures inFlight == old(inFlight)
    {
      for k := 0 to n
        invariant Bounded() && Value() == Run(old(Value()), Arrivals(k))
        invariant inFlight == old(inFlight)
      {
        MoreArrivals(old(Value()), k);
        Append();
      }
    }

    /** One request: taken from the queue, then delivered, given up or put back. */
    method ProcessOne(r: Round) returns (success: bool)
      requires Bounded() && inFlight == None && items != []
      modifies this
      ensures Bounded() && inFlight == None && Value() == Run(old(Value()), EventsOf(r))
      ensures success <==> Fate(r) != Requeue
    {
      ghost var s := Value();
      var _ := PopLeft();
      Receive(r.arrivals);
      RoundRuns(s, r);
      if !r.restored {
        Finish(Abandon);
        return true;
      }
      success := Post(r.posts);
      if success {
        Finish(Deliver);
      } else {
        AppendLeft();
      }
    }

    /**
    The inner loop of `_process_simulation_queue`, with `rounds` as the environment's part. It
    ends when the queue is empty or a request failed all its posts and went back to the front.
    */
    method Process(rounds: seq<Round>)
      requires Bounded() && inFlight == None
      modifies this
      ensures Bounded() && inFlight == None
      ensures Value() == Processed(old(Value()), rounds)
      ensures Sound(old(Value())) ==> Sound(Value())
    {
      if Sound(Value()) {
        ProcessedKeeps(Value(), rounds);
      }
      for i := 0 to |rounds|
        invariant Bounded() && inFlight == None
        invariant Processed(Value(), rounds[i..]) == Processed(old(Value()), rounds)
      {
        assert rounds[i..][1..] == rounds[i + 1..];
        if items == [] {
          return;
        }
        var success := ProcessOne(rounds[i]);
        if !success {
          return;
        }
      }
    }

    /** The request in flight leaves the queue for good. */
    method Finish(e: Event)
      requires Bounded() && inFlight.Some? && (e == Deliver || e == Abandon)
      modifies this
      ensures Bounded() && Value() == Step(old(Value()), e)
    {
      if e == Deliver {
        delivered := delivered + [inFlight.value];
      } else {
        dropped := dropped + {inFlight.value};
      }
      inFlight := None;
    }
  }
}
