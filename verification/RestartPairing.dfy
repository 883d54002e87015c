/**
Pairing of shutdown and startup signals into restart events by a two-pointer scan.
*/
module RestartPairing {
  import opened Options
  import opened SignalDedup

  ghost predicate Sorted(ts: seq<int>) {
    forall i, j | 0 <= i < j < |ts| :: ts[i] <= ts[j]
  }

  /** The first startup at or after position `j` that is later than `t`. */
  function FirstAfter(startups: seq<int>, j: nat, t: int): (k: nat)
    requires j <= |startups|
    ensures j <= k <= |startups|
    ensures k < |startups| ==> startups[k] > t
    ensures forall m | j <= m < k :: startups[m] <= t
    decreases |startups| - j
  {
    if j == |startups| || startups[j] > t then j else FirstAfter(startups, j + 1, t)
  }

  /** For shutdown `i` and its successors, the startup each is paired with, from position `j` on. */
  function Pairing(shutdowns: seq<int>, startups: seq<int>, i: nat, j: nat): (p: seq<Option<nat>>)
    requires i <= |shutdowns| && j <= |startups|
    ensures |p| == |shutdowns| - i
    decreases |shutdowns| - i
  {
    if i == |shutdowns| then []
    else
      var k := FirstAfter(startups, j, shutdowns[i]);
      [At(startups, k)] + Pairing(shutdowns, startups, i + 1, Past(startups, k))
  }

  /** The startup at position `k`, if there is one. */
  function At(startups: seq<int>, k: nat): Option<nat> {
    if k < |startups| then Some(k) else None
  }

  /** Where the scan goes on after stopping at position `k`. */
  function Past(startups: seq<int>, k: nat): nat
    requires k <= |startups|
  {
    if k < |startups| then k + 1 else k
  }

  datatype Event = Event(shutdown: int, startup: Option<int>)

  /** Shutdowns older than the caller's `since` are not reported. */
  function Recent(shutdowns: seq<int>, since: Option<int>): seq<int> {
    if shutdowns == [] then []
    else
      var rest := Recent(shutdowns[..|shutdowns| - 1], since);
      if since.Some? && shutdowns[|shutdowns| - 1] < since.value then rest else rest + [shutdowns[|shutdowns| - 1]]
  }

  /** The event reports the shutdown and the paired startup, if there is one. */
  ghost predicate Reports(e: Event, shutdown: int, startups: seq<int>, paired: Option<nat>) {
    && e.shutdown == shutdown
    && match paired
       case None => e.startup == None
       case Some(k) => k < |startups| && e.startup == Some(startups[k])
  }

  /** Each paired startup lies at or after position `j` and is strictly later than its shutdown. */
  ghost predicate PairsLater(p: seq<Option<nat>>, shutdowns: seq<int>, startups: seq<int>, i: nat, j: nat) {
    && i + |p| == |shutdowns|
    && forall n | 0 <= n < |p| && p[n].Some? :: j <= p[n].value < |startups| && startups[p[n].value] > shutdowns[i + n]
  }

  /** Later shutdowns are paired with later startups; in particular no startup is used twice. */
  ghost predicate PairsInOrder(p: seq<Option<nat>>) {
    forall n, m | 0 <= n < m < |p| && p[n].Some? && p[m].Some? :: p[n].value < p[m].value
  }

  lemma PrependKeepsSound(x: Option<nat>, rest: seq<Option<nat>>, shutdowns: seq<int>, startups: seq<int>,
                          i: nat, j: nat, j': nat)
    requires PairsLater(rest, shutdowns, startups, i + 1, j') && PairsInOrder(rest)
    requires j <= j' && i < |shutdowns|
    requires x.Some? ==> j <= x.value < j' <= |startups| && startups[x.value] > shutdowns[i]
    ensures PairsLater([x] + rest, shutdowns, startups, i, j)
    ensures PairsInOrder([x] + rest)
  {
    var p := [x] + rest;
    forall n | 0 <= n < |p| && p[n].Some?
      ensures j <= p[n].value < |startups| && startups[p[n].value] > shutdowns[i + n]
    {
      if n > 0 {
        assert p[n] == rest[n - 1] && shutdowns[i + n] == shutdowns[i + 1 + (n - 1)];
      }
    }
  }

  /** The scan pairs every shutdown it pairs with a strictly later startup, injectively and in order. */
  lemma {:induction false} PairingIsSound(shutdowns: seq<int>, startups: seq<int>, i: nat, j: nat)
    requires i <= |shutdowns| && j <= |startups|
    ensures PairsLater(Pairing(shutdowns, startups, i, j), shutdowns, startups, i, j)
    ensures PairsInOrder(Pairing(shutdowns, startups, i, j))
    decreases |shutdowns| - i
  {
    if i < |shutdowns| {
      var k := FirstAfter(startups, j, shutdowns[i]);
      var j' := Past(startups, k);
      PairingIsSound(shutdowns, startups, i + 1, j');
      PrependKeepsSound(At(startups, k), Pairing(shutdowns, startups, i + 1, j'), shutdowns, startups, i, j, j');
    }
  }

  /** The inner loop: skip startups that are not later than `t`, take the first one that is. */
  method TakeNextStartup(startups: seq<int>, from: nat, t: int) returns (su: Option<int>, next: nat)
    requires from <= |startups|
    ensures var k := FirstAfter(startups, from, t);
      && next == Past(startups, k)
      && su == (if k == |startups| then None else Some(startups[k]))
  {
    next := from;
    while next < |startups|
      invariant from <= next <= |startups|
      invariant forall m | from <= m < next :: startups[m] <= t
    {
      if startups[next] > t {
        FirstAfterIs(startups, from, t, next);
        return Some(startups[next]), next + 1;
      }
      next := next + 1;
    }
    FirstAfterIs(startups, from, t, next);
    return None, next;
  }

  /** The pairing loop of `detect_restart_events`. */
  method PairRestarts(shutdowns: seq<int>, startups: seq<int>, since: Option<int>) returns (events: seq<Event>)
    ensures var p := Pairing(Recent(shutdowns, since), startups, 0, 0);
      && |events| == |p|
      && forall n | 0 <= n < |p| :: Reports(events[n], Recent(shutdowns, since)[n], startups, p[n])
  {
    events := [];
    ghost var recent := Recent(shutdowns, since);
    ghost var p := Pairing(recent, startups, 0, 0);
    var next: nat := 0;
    for i := 0 to |shutdowns|
      invariant next <= |startups| && |events| <= |recent| == |p|
      invariant ScanAt(shutdowns, since, startups, i, |events|, next)
      invariant forall m | 0 <= m < |events| :: Reports(events[m], recent[m], startups, p[m])
    {
      ScanStep(shutdowns, since, startups, i, |events|, next);
      if since.Some? && shutdowns[i] < since.value {
        continue;
      }
      var su: Option<int>;
      su, next := TakeNextStartup(startups, next, shutdowns[i]);
      events := events + [Event(shutdowns[i], su)];
    }
    assert shutdowns[..|shutdowns|] == shutdowns;
  }

  /** After `i` shutdowns, `n` events were reported and the scan stands at startup `next`. */
  ghost predicate ScanAt(shutdowns: seq<int>, since: Option<int>, startups: seq<int>, i: nat, n: nat, next: nat)
    requires i <= |shutdowns| && next <= |startups|
  {
    var recent := Recent(shutdowns, since);
    && n <= |recent|
    && Recent(shutdowns[..i], since) == recent[..n]
    && Pairing(recent, startups, n, next) == Pairing(recent, startups, 0, 0)[n..]
  }

  lemma ScanStep(shutdowns: seq<int>, since: Option<int>, startups: seq<int>, i: nat, n: nat, next: nat)
    requires i < |shutdowns| && next <= |startups|
    requires ScanAt(shutdowns, since, startups, i, n, next)
    ensures since.Some? && shutdowns[i] < since.value ==> ScanAt(shutdowns, since, startups, i + 1, n, next)
    ensures !(since.Some? && shutdowns[i] < since.value) ==>
      var recent := Recent(shutdowns, since);
      var k := FirstAfter(startups, next, shutdowns[i]);
      && n < |recent| && recent[n] == shutdowns[i]
      && Pairing(recent, startups, 0, 0)[n] == At(startups, k)
      && ScanAt(shutdowns, since, startups, i + 1, n + 1, Past(startups, k))
  {
    var recent := Recent(shutdowns, since);
    var p := Pairing(recent, startups, 0, 0);
    RecentStep(shutdowns, since, i);
    RecentPrefix(shutdowns, since, i + 1);
    if !(since.Some? && shutdowns[i] < since.value) {
      var k := FirstAfter(startups, next, shutdowns[i]);
      assert recent[..n + 1] == recent[..n] + [shutdowns[i]];
      PairingStep(recent, startups, n, next);
      PeelHead(p, n, At(startups, k), Pairing(recent, startups, n + 1, Past(startups, k)));
    }
  }

  lemma PeelHead(p: seq<Option<nat>>, n: nat, x: Option<nat>, rest: seq<Option<nat>>)
    requires n <= |p| && p[n..] == [x] + rest
    ensures n < |p| && p[n] == x && p[n + 1..] == rest
  {
    assert p[n] == p[n..][0] && p[n + 1..] == p[n..][1..];
  }

  lemma {:induction false} FirstAfterIs(startups: seq<int>, j: nat, t: int, k: nat)
    requires j <= k <= |startups|
    requires k < |startups| ==> startups[k] > t
    requires forall m | j <= m < k :: startups[m] <= t
    ensures FirstAfter(startups, j, t) == k
    decreases k - j
  {
    if j < k {
      FirstAfterIs(startups, j + 1, t, k);
    }
  }

  lemma PairingStep(shutdowns: seq<int>, startups: seq<int>, i: nat, j: nat)
    requires i < |shutdowns| && j <= |startups|
    ensures var k := FirstAfter(startups, j, shutdowns[i]);
      Pairing(shutdowns, startups, i, j) == [At(startups, k)] + Pairing(shutdowns, startups, i + 1, Past(startups, k))
  {
  }

  lemma RecentStep(shutdowns: seq<int>, since: Option<int>, i: nat)
    requires i < |shutdowns|
    ensures Recent(shutdowns[..i + 1], since) ==
      Recent(shutdowns[..i], since) + if since.Some? && shutdowns[i] < since.value then [] else [shutdowns[i]]
  {
    assert shutdowns[..i + 1][..i] == shutdowns[..i];
  }

  /** Of shutdowns in time order those from `since` on are reported, it included; all of them if there is no `since`. */
  lemma {:induction false} RecentIs(shutdowns: seq<int>, since: Option<int>, k: nat)
    requires k <= |shutdowns|
    requires k > 0 ==> since.Some?
    requires forall i | 0 <= i < k :: shutdowns[i] < since.value
    requires forall i | k <= i < |shutdowns| :: since.Some? ==> since.value <= shutdowns[i]
    ensures Recent(shutdowns, since) == shutdowns[k..]
    decreases |shutdowns|
  {
    if shutdowns != [] {
      var n := |shutdowns| - 1;
      RecentIs(shutdowns[..n], since, if k <= n then k else n);
      if k <= n {
        assert shutdowns[k..] == shutdowns[..n][k..] + [shutdowns[n]];
      }
    }
  }

  lemma {:induction false} RecentPrefix(shutdowns: seq<int>, since: Option<int>, i: nat)
    requires i <= |shutdowns|
    ensures Recent(shutdowns[..i], since) <= Recent(shutdowns, since)
    decreases |shutdowns|
  {
    if i == |shutdowns| {
      assert shutdowns[..i] == shutdowns;
    } else {
      RecentPrefix(shutdowns[..|shutdowns| - 1], since, i);
      assert shutdowns[..|shutdowns| - 1][..i] == shutdowns[..i];
    }
  }

  function Matched(p: seq<Option<nat>>): nat {
    if p == [] then 0 else (if p[0].Some? then 1 else 0) + Matched(p[1..])
  }

  lemma CompletesOneMore(shutdowns: seq<int>, startups: seq<int>, i: nat, j: nat)
    requires i < |shutdowns| && j <= |startups|
    requires FirstAfter(startups, j, shutdowns[i]) < |startups|
    ensures var k := FirstAfter(startups, j, shutdowns[i]);
      Matched(Pairing(shutdowns, startups, i, j)) == 1 + Matched(Pairing(shutdowns, startups, i + 1, k + 1))
  {
    var k := FirstAfter(startups, j, shutdowns[i]);
    PairingStep(shutdowns, startups, i, j);
    var rest := Pairing(shutdowns, startups, i + 1, k + 1);
    assert ([Some(k)] + rest)[1..] == rest;
  }

  /** Any injective choice of a later startup, at position `j` or beyond, for some shutdowns from `i` on. */
  ghost predicate Matching(m: map<nat, nat>, shutdowns: seq<int>, startups: seq<int>, i: nat, j: nat) {
    && (forall s | s in m :: i <= s < |shutdowns| && j <= m[s] < |startups| && startups[m[s]] > shutdowns[s])
    && (forall s, t | s in m && t in m && s != t :: m[s] != m[t])
  }

  /** Every startup usable by a matching comes at or after the first one usable by shutdown `i`. */
  lemma MatchingStartsAt(m: map<nat, nat>, shutdowns: seq<int>, startups: seq<int>, i: nat, j: nat)
    requires Sorted(shutdowns) && i < |shutdowns| && j <= |startups|
    requires Matching(m, shutdowns, startups, i, j)
    ensures var k := FirstAfter(startups, j, shutdowns[i]); Matching(m, shutdowns, startups, i, k)
  {
    var k := FirstAfter(startups, j, shutdowns[i]);
    forall s | s in m
      ensures m[s] >= k
    {
      assert shutdowns[i] <= shutdowns[s];
    }
  }

  lemma EmptyMatching(m: map<nat, nat>, shutdowns: seq<int>, startups: seq<int>, i: nat, j: nat)
    requires Matching(m, shutdowns, startups, i, j)
    requires i >= |shutdowns| || j >= |startups|
    ensures |m| == 0
  {
    if s :| s in m {
      assert false;
    }
  }

  /** Dropping one pair, so that shutdown `i` and startup `k` are unused. */
  lemma DropPair(m: map<nat, nat>, shutdowns: seq<int>, startups: seq<int>, i: nat, k: nat, x: nat)
    requires Matching(m, shutdowns, startups, i, k)
    requires x in m && forall s | s in m && s != x :: s != i && m[s] != k
    ensures Matching(m - {x}, shutdowns, startups, i + 1, k + 1)
    ensures |m| == |m - {x}| + 1
  {
    RemoveOne(m, x);
  }

  /** Shutdown `s` gives up startup `k` and takes over the startup of shutdown `i`. */
  lemma SwapPair(m: map<nat, nat>, shutdowns: seq<int>, startups: seq<int>, i: nat, k: nat, s: nat)
    returns (m': map<nat, nat>)
    requires Sorted(startups) && Matching(m, shutdowns, startups, i, k)
    requires i in m && s in m && s != i && m[s] == k
    ensures Matching(m', shutdowns, startups, i + 1, k + 1)
    ensures |m| == |m'| + 1
  {
    assert startups[k] <= startups[m[i]];
    m' := (m - {i})[s := m[i]];
    RemoveOne(m, i);
    assert m'.Keys == (m - {i}).Keys;
    assert |m'| == |m'.Keys| && |m - {i}| == |(m - {i}).Keys|;
    forall x, y | x in m' && y in m' && x != y
      ensures m'[x] != m'[y]
    {
      assert m[x] != m[y] && m[i] != m[x] && m[i] != m[y];
    }
  }

  /** Exchange step: free shutdown `i` and startup `k` at the cost of one pair. */
  lemma WithoutFirst(m: map<nat, nat>, shutdowns: seq<int>, startups: seq<int>, i: nat, k: nat)
    returns (m': map<nat, nat>)
    requires Sorted(startups)
    requires Matching(m, shutdowns, startups, i, k)
    ensures Matching(m', shutdowns, startups, i + 1, k + 1)
    ensures |m| <= |m'| + 1
  {
    if s :| s in m && m[s] == k {
      if i in m && s != i {
        m' := SwapPair(m, shutdowns, startups, i, k, s);
      } else {
        DropPair(m, shutdowns, startups, i, k, s);
        m' := m - {s};
      }
    } else if i in m {
      DropPair(m, shutdowns, startups, i, k, i);
      m' := m - {i};
    } else {
      m' := m;
    }
  }

  /** Whatever shutdown `i` and the startup the scan gives it are worth to a matching, it is one pair. */
  lemma AfterFirst(m: map<nat, nat>, shutdowns: seq<int>, startups: seq<int>, i: nat, j: nat)
    returns (m': map<nat, nat>)
    requires Sorted(shutdowns) && Sorted(startups)
    requires i < |shutdowns| && j <= |startups|
    requires Matching(m, shutdowns, startups, i, j)
    ensures var k := FirstAfter(startups, j, shutdowns[i]);
      if k == |startups| then |m| == 0
      else Matching(m', shutdowns, startups, i + 1, k + 1) && |m| <= |m'| + 1
  {
    var k := FirstAfter(startups, j, shutdowns[i]);
    MatchingStartsAt(m, shutdowns, startups, i, j);
    m' := m;
    if k == |startups| {
      EmptyMatching(m, shutdowns, startups, i, k);
    } else {
      m' := WithoutFirst(m, shutdowns, startups, i, k);
    }
  }

  lemma RemoveOne(m: map<nat, nat>, s: nat)
    requires s in m
    ensures |m| == |m - {s}| + 1
  {
    assert (m - {s}).Keys == m.Keys - {s};
    assert |m| == |m.Keys| && |m - {s}| == |(m - {s}).Keys|;
  }

  /** No matching whatsoever pairs more shutdowns than the two-pointer scan does. */
  lemma {:induction false} PairingIsMaximum(m: map<nat, nat>, shutdowns: seq<int>, startups: seq<int>, i: nat, j: nat)
    requires Sorted(shutdowns) && Sorted(startups)
    requires i <= |shutdowns| && j <= |startups|
    requires Matching(m, shutdowns, startups, i, j)
    ensures |m| <= Matched(Pairing(shutdowns, startups, i, j))
    decreases |shutdowns| - i
  {
    if i == |shutdowns| {
      EmptyMatching(m, shutdowns, startups, i, j);
    } else {
      var k := FirstAfter(startups, j, shutdowns[i]);
      var m' := AfterFirst(m, shutdowns, startups, i, j);
      if k < |startups| {
        PairingIsMaximum(m', shutdowns, startups, i + 1, k + 1);
        CompletesOneMore(shutdowns, startups, i, j);
      }
    }
  }

  /**
  An event is reported incomplete exactly when every startup later than its shutdown was
  already taken by an earlier shutdown.
  */
  lemma IncompleteExactlyWhen(shutdowns: seq<int>, startups: seq<int>, n: nat)
    requires Sorted(shutdowns) && n < |shutdowns|
    ensures var p := Pairing(shutdowns, startups, 0, 0);
      p[n] == None <==>
      forall k | 0 <= k < |startups| && startups[k] > shutdowns[n] :: exists m :: 0 <= m < n && p[m] == Some(k)
  {
    var p := Pairing(shutdowns, startups, 0, 0);
    PairingIsSound(shutdowns, startups, 0, 0);
    if p[n] == None {
      forall k | 0 <= k < |startups| && startups[k] > shutdowns[n]
        ensures exists m :: 0 <= m < n && p[m] == Some(k)
      {
        var m := TakenBefore(shutdowns, startups, 0, 0, n, k);
        assert p[m] == Some(k);
      }
    }
  }

  lemma {:induction false} TakenBefore(shutdowns: seq<int>, startups: seq<int>, i: nat, j: nat, n: nat, k: nat)
    returns (m: nat)
    requires Sorted(shutdowns)
    requires i + n < |shutdowns| && j <= k < |startups|
    requires startups[k] > shutdowns[i + n]
    requires Pairing(shutdowns, startups, i, j)[n] == None
    ensures m < n && Pairing(shutdowns, startups, i, j)[m] == Some(k)
    decreases n
  {
    var f := FirstAfter(startups, j, shutdowns[i]);
    assert shutdowns[i] <= shutdowns[i + n];
    assert f <= k;
    PairingStep(shutdowns, startups, i, j);
    if f == k {
      m := 0;
    } else {
      m := TakenBefore(shutdowns, startups, i + 1, f + 1, n - 1, k);
      m := m + 1;
    }
  }

  /** How many startups are later than `t`. */
  function LaterThan(startups: seq<int>, t: int): nat {
    if startups == [] then 0
    else LaterThan(startups[..|startups| - 1], t) + if startups[|startups| - 1] > t then 1 else 0
  }

  lemma {:induction false} LaterThanIs(startups: seq<int>, t: int, f: nat)
    requires f <= |startups|
    requires forall k | 0 <= k < f :: startups[k] <= t
    requires forall k | f <= k < |startups| :: startups[k] > t
    ensures LaterThan(startups, t) == |startups| - f
  {
    if f < |startups| {
      LaterThanIs(startups[..|startups| - 1], t, f);
    } else {
      if startups != [] {
        LaterThanIs(startups[..|startups| - 1], t, f - 1);
      }
    }
  }

  /** In sorted startups the scan stops where the later ones begin, or where it already is. */
  lemma StopsAt(startups: seq<int>, j: nat, t: int)
    requires Sorted(startups) && j <= |startups|
    ensures LaterThan(startups, t) <= |startups|
    ensures var begin := |startups| - LaterThan(startups, t);
      FirstAfter(startups, j, t) == if j < begin then begin else j
  {
    var f := FirstAfter(startups, 0, t);
    LaterThanIs(startups, t, f);
    FirstAfterIs(startups, j, t, if j < f then f else j);
  }

  /** From some shutdown `m` between `i` and `last` on, there are more shutdowns than startups later than `m`. */
  ghost predicate Crowded(shutdowns: seq<int>, startups: seq<int>, i: nat, last: nat)
    requires last < |shutdowns|
  {
    exists m | i <= m <= last :: LaterThan(startups, shutdowns[m]) <= last - m
  }

  lemma {:induction false} UnpairedExactlyWhen(shutdowns: seq<int>, startups: seq<int>, i: nat, j: nat, last: nat)
    requires Sorted(startups) && i <= last < |shutdowns| && j <= |startups|
    ensures Pairing(shutdowns, startups, i, j)[last - i] == None <==>
      j + (last - i) >= |startups| || Crowded(shutdowns, startups, i, last)
    decreases last - i
  {
    var k := FirstAfter(startups, j, shutdowns[i]);
    PairingStep(shutdowns, startups, i, j);
    StopsAt(startups, j, shutdowns[i]);
    if i < last {
      UnpairedExactlyWhen(shutdowns, startups, i + 1, Past(startups, k), last);
      assert Crowded(shutdowns, startups, i, last) <==>
        LaterThan(startups, shutdowns[i]) <= last - i || Crowded(shutdowns, startups, i + 1, last);
    } else {
      assert Crowded(shutdowns, startups, i, last) <==> LaterThan(startups, shutdowns[i]) <= 0;
    }
  }

  /**
  On the signals alone: a shutdown stays incomplete if and only if, for some shutdown `m` up to
  it, there are fewer startups later than `m` than there are shutdowns from `m` on up to it.
  */
  lemma IncompleteByCount(shutdowns: seq<int>, startups: seq<int>, n: nat)
    requires Sorted(startups) && n < |shutdowns|
    ensures Pairing(shutdowns, startups, 0, 0)[n] == None <==>
      exists m | 0 <= m <= n :: LaterThan(startups, shutdowns[m]) < n - m + 1
  {
    UnpairedExactlyWhen(shutdowns, startups, 0, 0, n);
    StopsAt(startups, 0, shutdowns[0]);
    assert n >= |startups| ==> LaterThan(startups, shutdowns[0]) <= n - 0;
    assert Crowded(shutdowns, startups, 0, n) <==>
      exists m | 0 <= m <= n :: LaterThan(startups, shutdowns[m]) < n - m + 1;
  }

  // ----- the whole analysis: merge the signals, then pair -----

  function Times(signals: seq<Signal>): seq<int> {
    seq(|signals|, i requires 0 <= i < |signals| => signals[i].timestamp)
  }

  /** Timestamps of the events that signals are merged into. */
  function MergedTimes(signals: seq<Signal>): seq<int> {
    Times(Kept(ClustersOf(SortByTime(signals))))
  }

  lemma {:induction false} SpacedIsSorted(merged: seq<Signal>)
    requires forall k | 0 < k < |merged| :: merged[k].timestamp - merged[k - 1].timestamp > DEDUP_WINDOW_MS
    ensures Sorted(Times(merged))
  {
    if merged != [] {
      var init := merged[..|merged| - 1];
      SpacedIsSorted(init);
      var t := Times(merged);
      forall i, j | 0 <= i < j < |merged|
        ensures t[i] <= t[j]
      {
        assert i < |init| && t[i] == Times(init)[i];
        if j < |init| {
          assert t[j] == Times(init)[j];
        } else {
          assert Times(init)[i] <= Times(init)[j - 1];
        }
      }
    }
  }

  /** Merged events are more than ten seconds apart. */
  lemma MergedTimesSorted(signals: seq<Signal>)
    ensures Sorted(MergedTimes(signals))
    ensures forall k | 0 < k < |MergedTimes(signals)| :: MergedTimes(signals)[k] > MergedTimes(signals)[k - 1] + 10_000
  {
    SortSorts(signals);
    ClustersRepresent(SortByTime(signals));
    SpacedIsSorted(Kept(ClustersOf(SortByTime(signals))));
  }

  lemma {:induction false} RecentSorted(shutdowns: seq<int>, since: Option<int>)
    requires Sorted(shutdowns)
    ensures Sorted(Recent(shutdowns, since))
    ensures forall t | t in Recent(shutdowns, since) :: t in shutdowns
  {
    if shutdowns != [] {
      var init, last := shutdowns[..|shutdowns| - 1], shutdowns[|shutdowns| - 1];
      RecentSorted(init, since);
      forall t | t in init
        ensures t <= last
      {
        var k :| 0 <= k < |init| && init[k] == t;
        assert shutdowns[k] <= shutdowns[|shutdowns| - 1];
      }
      var rest := Recent(init, since);
      forall k | 0 <= k < |rest|
        ensures rest[k] <= last
      {
        assert rest[k] in rest && rest[k] in init;
      }
    }
  }

  /** Collect, merge and pair, as `detect_restart_events` does. */
  method DetectRestarts(shutdownSignals: seq<Signal>, startupSignals: seq<Signal>, since: Option<int>)
    returns (events: seq<Event>)
    ensures var shutdowns, startups := Recent(MergedTimes(shutdownSignals), since), MergedTimes(startupSignals);
      var p := Pairing(shutdowns, startups, 0, 0);
      && |events| == |p|
      && forall n | 0 <= n < |p| :: Reports(events[n], shutdowns[n], startups, p[n])
  {
    var shutdowns := Dedup(shutdownSignals);
    var startups := Dedup(startupSignals);
    events := PairRestarts(Times(shutdowns), Times(startups), since);
  }

  /** Whatever signals are logged, no other assignment of later startups completes more restarts. */
  lemma DetectedIsMaximum(shutdownSignals: seq<Signal>, startupSignals: seq<Signal>, since: Option<int>, m: map<nat, nat>)
    requires Matching(m, Recent(MergedTimes(shutdownSignals), since), MergedTimes(startupSignals), 0, 0)
    ensures |m| <= Matched(Pairing(Recent(MergedTimes(shutdownSignals), since), MergedTimes(startupSignals), 0, 0))
  {
    MergedTimesSorted(shutdownSignals);
    MergedTimesSorted(startupSignals);
    RecentSorted(MergedTimes(shutdownSignals), since);
    PairingIsMaximum(m, Recent(MergedTimes(shutdownSignals), since), MergedTimes(startupSignals), 0, 0);
  }
}
