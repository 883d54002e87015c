/**
Merging of log signals that are close in time: the most informative signal of each group
represents the event.
*/
module SignalDedup {

  datatype Source = AgentLog | LogstashMessage | PipelineMetric

  datatype Signal = Signal(timestamp: int, source: Source)

  const DEDUP_WINDOW_MS := 10_000

  /** Smaller is more informative. */
  function Priority(s: Source): nat {
    match s
    case AgentLog => 0
    case LogstashMessage => 1
    case PipelineMetric => 2
  }

  ghost predicate SortedByTime(s: seq<Signal>) {
    forall i, j | 0 <= i < j < |s| :: s[i].timestamp <= s[j].timestamp
  }

  /** Insert after every signal that is not later: equal timestamps keep their order. */
  function Insert(s: seq<Signal>, x: Signal): seq<Signal> {
    if s == [] || s[|s| - 1].timestamp <= x.timestamp then s + [x]
    else Insert(s[..|s| - 1], x) + [s[|s| - 1]]
  }

  /** Python's stable `sorted(..., key=timestamp)`. */
  function SortByTime(s: seq<Signal>): seq<Signal> {
    if s == [] then [] else Insert(SortByTime(s[..|s| - 1]), s[|s| - 1])
  }

  lemma {:induction false} InsertSorts(s: seq<Signal>, x: Signal)
    requires SortedByTime(s)
    ensures SortedByTime(Insert(s, x))
    ensures |Insert(s, x)| == |s| + 1
    ensures forall i | 0 <= i <= |s| :: Insert(s, x)[i].timestamp <= x.timestamp ||
                                        (s != [] && Insert(s, x)[i].timestamp <= s[|s| - 1].timestamp)
  {
    if s != [] && s[|s| - 1].timestamp > x.timestamp {
      var init, last := s[..|s| - 1], s[|s| - 1];
      InsertSorts(init, x);
      var t := Insert(init, x);
      assert init != [] ==> init[|init| - 1].timestamp <= last.timestamp;
      assert forall i | 0 <= i < |t| :: t[i].timestamp <= last.timestamp;
      assert Insert(s, x) == t + [last];
    }
  }

  lemma {:induction false} InsertKeeps(s: seq<Signal>, x: Signal)
    ensures multiset(Insert(s, x)) == multiset(s) + multiset{x}
  {
    if s != [] && s[|s| - 1].timestamp > x.timestamp {
      InsertKeeps(s[..|s| - 1], x);
      assert s == s[..|s| - 1] + [s[|s| - 1]];
    }
  }

  lemma {:induction false} SortSorts(s: seq<Signal>)
    ensures SortedByTime(SortByTime(s)) && |SortByTime(s)| == |s|
  {
    if s != [] {
      SortSorts(s[..|s| - 1]);
      InsertSorts(SortByTime(s[..|s| - 1]), s[|s| - 1]);
    }
  }

  lemma {:induction false} SortKeeps(s: seq<Signal>)
    ensures multiset(SortByTime(s)) == multiset(s)
  {
    if s != [] {
      SortKeeps(s[..|s| - 1]);
      InsertKeeps(SortByTime(s[..|s| - 1]), s[|s| - 1]);
      assert s == s[..|s| - 1] + [s[|s| - 1]];
    }
  }

  /** Signals merged into one event, and the one that represents them. */
  datatype Cluster = Cluster(members: seq<Signal>, kept: Signal)

  function Join(c: Cluster, sig: Signal): Cluster {
    Cluster(c.members + [sig], if Priority(sig.source) < Priority(c.kept.source) then sig else c.kept)
  }

  function AddSignal(clusters: seq<Cluster>, sig: Signal): seq<Cluster> {
    if clusters == [] then [Cluster([sig], sig)]
    else
      var last := clusters[|clusters| - 1];
      if sig.timestamp - last.kept.timestamp <= DEDUP_WINDOW_MS then
        clusters[..|clusters| - 1] + [Join(last, sig)]
      else clusters + [Cluster([sig], sig)]
  }

  function ClustersOf(sorted: seq<Signal>): seq<Cluster> {
    if sorted == [] then [] else AddSignal(ClustersOf(sorted[..|sorted| - 1]), sorted[|sorted| - 1])
  }

  function Kept(clusters: seq<Cluster>): seq<Signal> {
    seq(|clusters|, i requires 0 <= i < |clusters| => clusters[i].kept)
  }

  /** `_dedup` inside `detect_restart_events`. */
  method Dedup(signals: seq<Signal>) returns (merged: seq<Signal>)
    ensures merged == Kept(ClustersOf(SortByTime(signals)))
  {
    if signals == [] {
      return [];
    }
    var sorted := SortByTime(signals);
    SortSorts(signals);
    merged := [sorted[0]];
    ghost var clusters := [Cluster([sorted[0]], sorted[0])];
    ClustersStep(sorted, 0);
    for i := 1 to |sorted|
      invariant clusters == ClustersOf(sorted[..i]) && clusters != []
      invariant merged == Kept(clusters)
    {
      var sig := sorted[i];
      ClustersStep(sorted, i);
      KeptStep(clusters, sig);
      clusters := AddSignal(clusters, sig);
      if sig.timestamp - merged[|merged| - 1].timestamp <= DEDUP_WINDOW_MS {
        if Priority(sig.source) < Priority(merged[|merged| - 1].source) {
          merged := merged[|merged| - 1 := sig];
        }
      } else {
        merged := merged + [sig];
      }
    }
    assert sorted[..|sorted|] == sorted;
  }

  lemma KeptStep(clusters: seq<Cluster>, sig: Signal)
    requires clusters != []
    ensures var merged, last := Kept(clusters), clusters[|clusters| - 1].kept;
      Kept(AddSignal(clusters, sig)) ==
        if sig.timestamp - last.timestamp > DEDUP_WINDOW_MS then merged + [sig]
        else if Priority(sig.source) < Priority(last.source) then merged[|merged| - 1 := sig]
        else merged
  {
  }

  lemma ClustersStep(sorted: seq<Signal>, i: nat)
    requires i < |sorted|
    ensures ClustersOf(sorted[..i + 1]) == AddSignal(ClustersOf(sorted[..i]), sorted[i])
    ensures ClustersOf(sorted[..0]) == []
  {
    assert sorted[..i + 1][..i] == sorted[..i];
  }

  function Flatten(clusters: seq<Cluster>): seq<Signal> {
    if clusters == [] then [] else Flatten(clusters[..|clusters| - 1]) + clusters[|clusters| - 1].members
  }

  /**
  A cluster is kept by a member of minimal priority number. Members lie at most one window
  after it, and at most one window per replacement, hence two windows, before it.
  */
  ghost predicate WellKept(c: Cluster) {
    && c.kept in c.members
    && (forall m | m in c.members ::
          && Priority(c.kept.source) <= Priority(m.source)
          && m.timestamp - c.kept.timestamp <= DEDUP_WINDOW_MS
          && c.kept.timestamp - m.timestamp <= DEDUP_WINDOW_MS * (2 - Priority(c.kept.source)))
  }

  /**
  `clusters` cut `sorted` into contiguous runs, each well kept, with consecutive kept signals
  more than a window apart.
  */
  ghost predicate Represents(clusters: seq<Cluster>, sorted: seq<Signal>) {
    && Flatten(clusters) == sorted
    && (forall k | 0 <= k < |clusters| :: WellKept(clusters[k]))
    && (forall k | 0 < k < |clusters| ::
          clusters[k].kept.timestamp - clusters[k - 1].kept.timestamp > DEDUP_WINDOW_MS)
  }

  lemma JoinKeepsWell(c: Cluster, sig: Signal)
    requires WellKept(c)
    requires 0 <= sig.timestamp - c.kept.timestamp <= DEDUP_WINDOW_MS
    ensures WellKept(Join(c, sig))
  {
    var c' := Join(c, sig);
    assert sig in c'.members && forall m :: m in c'.members <==> m in c.members || m == sig;
  }

  lemma FlattenMembers(clusters: seq<Cluster>, m: Signal)
    requires clusters != [] && m in clusters[|clusters| - 1].members
    ensures m in Flatten(clusters)
  {
  }

  lemma JoinKeeps(init: seq<Cluster>, last: Cluster, sorted: seq<Signal>, sig: Signal)
    requires Represents(init + [last], sorted)
    requires 0 <= sig.timestamp - last.kept.timestamp <= DEDUP_WINDOW_MS
    ensures Represents(init + [Join(last, sig)], sorted + [sig])
  {
    var before, after := init + [last], init + [Join(last, sig)];
    assert before[|before| - 1] == last;
    JoinKeepsWell(last, sig);
    assert before[..|before| - 1] == init == after[..|after| - 1];
    forall k | 0 < k < |after|
      ensures after[k].kept.timestamp - after[k - 1].kept.timestamp > DEDUP_WINDOW_MS
    {
      assert before[k].kept.timestamp - before[k - 1].kept.timestamp > DEDUP_WINDOW_MS;
    }
  }

  lemma OpenKeeps(clusters: seq<Cluster>, sorted: seq<Signal>, sig: Signal)
    requires Represents(clusters, sorted)
    requires clusters != [] ==> sig.timestamp - clusters[|clusters| - 1].kept.timestamp > DEDUP_WINDOW_MS
    ensures Represents(clusters + [Cluster([sig], sig)], sorted + [sig])
  {
    var after := clusters + [Cluster([sig], sig)];
    assert after[..|after| - 1] == clusters;
  }

  lemma AddSignalKeeps(clusters: seq<Cluster>, sorted: seq<Signal>, sig: Signal)
    requires Represents(clusters, sorted)
    requires forall s | s in sorted :: s.timestamp <= sig.timestamp
    ensures Represents(AddSignal(clusters, sig), sorted + [sig])
  {
    if clusters != [] && sig.timestamp - clusters[|clusters| - 1].kept.timestamp <= DEDUP_WINDOW_MS {
      var init, last := clusters[..|clusters| - 1], clusters[|clusters| - 1];
      assert WellKept(last);
      FlattenMembers(clusters, last.kept);
      assert clusters == init + [last];
      JoinKeeps(init, last, sorted, sig);
    } else {
      OpenKeeps(clusters, sorted, sig);
    }
  }

  /** What deduplication keeps and drops, for every list of signals. */
  lemma {:induction false} ClustersRepresent(sorted: seq<Signal>)
    requires SortedByTime(sorted)
    ensures Represents(ClustersOf(sorted), sorted)
  {
    if sorted != [] {
      var init, sig := sorted[..|sorted| - 1], sorted[|sorted| - 1];
      ClustersRepresent(init);
      AddSignalKeeps(ClustersOf(init), init, sig);
      assert sorted == init + [sig];
    }
  }

  /** Every reported signal is one of the inputs. */
  lemma KeptIsSignal(signals: seq<Signal>, k: nat)
    requires k < |ClustersOf(SortByTime(signals))|
    ensures Kept(ClustersOf(SortByTime(signals)))[k] in signals
  {
    var sorted := SortByTime(signals);
    SortSorts(signals);
    SortKeeps(signals);
    ClustersRepresent(sorted);
    var c := ClustersOf(sorted)[k];
    FlattenContains(ClustersOf(sorted), k, c.kept);
    assert c.kept in multiset(sorted);
  }

  /** Every input has a reported survivor that is at least as informative: an agent log is
  never replaced, a Logstash message only by an agent log. It is at most ten seconds earlier or twenty later. */
  lemma Survivor(signals: seq<Signal>, s: Signal) returns (k: nat)
    requires s in signals
    ensures k < |ClustersOf(SortByTime(signals))|
    ensures var r := Kept(ClustersOf(SortByTime(signals)))[k];
      && (s.source == AgentLog ==> r.source == AgentLog)
      && (s.source == LogstashMessage ==> r.source != PipelineMetric)
      && -10_000 <= r.timestamp - s.timestamp <= 20_000
  {
    var sorted := SortByTime(signals);
    SortSorts(signals);
    SortKeeps(signals);
    ClustersRepresent(sorted);
    assert s in multiset(signals);
    k := ClusterWith(ClustersOf(sorted), s);
    assert WellKept(ClustersOf(sorted)[k]);
    KeptIsNear(ClustersOf(sorted)[k], s);
  }

  lemma KeptIsNear(c: Cluster, m: Signal)
    requires WellKept(c) && m in c.members
    ensures -10_000 <= c.kept.timestamp - m.timestamp <= 20_000
    ensures m.source == AgentLog ==> c.kept.source == AgentLog
    ensures m.source == LogstashMessage ==> c.kept.source != PipelineMetric
  {
  }

  lemma {:induction false} FlattenContains(clusters: seq<Cluster>, k: nat, m: Signal)
    requires k < |clusters| && m in clusters[k].members
    ensures m in Flatten(clusters)
  {
    if k < |clusters| - 1 {
      FlattenContains(clusters[..|clusters| - 1], k, m);
    }
  }

  lemma {:induction false} ClusterWith(clusters: seq<Cluster>, m: Signal) returns (k: nat)
    requires m in Flatten(clusters)
    ensures k < |clusters| && m in clusters[k].members
  {
    if m in clusters[|clusters| - 1].members {
      k := |clusters| - 1;
    } else {
      k := ClusterWith(clusters[..|clusters| - 1], m);
    }
  }

  /** The two windows are reached: three signals, each one window apart, become one event. */
  lemma TwoReplacementsReachTwoWindows(t: int)
    ensures
      var a := Signal(t, PipelineMetric);
      var b := Signal(t + 10_000, LogstashMessage);
      var c := Signal(t + 20_000, AgentLog);
      ClustersOf([a, b, c]) == [Cluster([a, b, c], c)]
  {
    var a := Signal(t, PipelineMetric);
    var b := Signal(t + 10_000, LogstashMessage);
    var c := Signal(t + 20_000, AgentLog);
    var s := [a, b, c];
    ClustersStep(s, 0);
    ClustersStep(s, 1);
    ClustersStep(s, 2);
    assert s[..3] == s;
    assert ClustersOf(s[..1]) == [Cluster([a], a)];
    assert ClustersOf(s[..2]) == [Cluster([a] + [b], b)];
    assert [a] + [b] == [a, b] && [a, b] + [c] == s;
    assert ClustersOf(s) == [Cluster([a, b] + [c], c)];
  }
}
