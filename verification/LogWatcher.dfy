/**
Tailing of the Logstash JSON log: a carry buffer that splits a byte stream into lines however
it is chunked, and a watcher that collects warnings, errors and fatals between check-ins.

Text is modelled for ASCII input, where decoding and encoding change nothing.
*/
module LogWatcher {
  import opened Options

  const MAX_COLLECTED := 200

  // ----- splitting -----

  lemma AppendAssociates<T>(a: seq<T>, b: seq<T>, c: seq<T>)
    ensures a + (b + c) == (a + b) + c
  {
  }

  /** The unfinished line at the end. */
  function Partial(text: string): string {
    if text == "" || text[|text| - 1] == '\n' then ""
    else Partial(text[..|text| - 1]) + [text[|text| - 1]]
  }

  /** The finished lines, without their newlines. */
  function Complete(text: string): seq<string> {
    if text == "" then []
    else
      var init := text[..|text| - 1];
      if text[|text| - 1] == '\n' then Complete(init) + [Partial(init)] else Complete(init)
  }

  /** Joining lines with newlines, as in the stream they came from. */
  function Join(lines: seq<string>): string {
    if lines == [] then "" else Join(lines[..|lines| - 1]) + lines[|lines| - 1] + "\n"
  }

  /** Complete lines and the unfinished one are the whole text, and no line contains a newline. */
  lemma {:induction false} SplitJoins(text: string)
    ensures Join(Complete(text)) + Partial(text) == text
    ensures '\n' !in Partial(text) && forall line | line in Complete(text) :: '\n' !in line
  {
    if text != "" {
      var init := text[..|text| - 1];
      SplitJoins(init);
      assert text == init + [text[|text| - 1]];
    }
  }

  /** Carrying the unfinished line over to the next chunk splits exactly like the whole text. */
  lemma {:induction false} SplitAppend(a: string, b: string)
    ensures Complete(a + b) == Complete(a) + Complete(Partial(a) + b)
    ensures Partial(a + b) == Partial(Partial(a) + b)
    decreases |b|
  {
    if b == "" {
      assert a + b == a && Partial(a) + b == Partial(a);
      PartialIsStable(a);
    } else {
      var init, last := b[..|b| - 1], b[|b| - 1];
      assert a + b == a + init + [last];
      assert Partial(a) + b == Partial(a) + init + [last];
      SplitAppend(a, init);
      assert (a + init + [last])[..|a + init|] == a + init;
      assert (Partial(a) + init + [last])[..|Partial(a) + init|] == Partial(a) + init;
    }
  }

  lemma {:induction false} PartialIsStable(a: string)
    ensures Partial(Partial(a)) == Partial(a) && Complete(Partial(a)) == []
  {
    if a != "" && a[|a| - 1] != '\n' {
      PartialIsStable(a[..|a| - 1]);
      assert Partial(a)[..|Partial(a)| - 1] == Partial(a[..|a| - 1]);
    }
  }

  function JoinAll(chunks: seq<string>): string {
    if chunks == [] then "" else JoinAll(chunks[..|chunks| - 1]) + chunks[|chunks| - 1]
  }

  /** The lines completed so far and the one carried over. */
  datatype Split = Split(lines: seq<string>, carry: string)

  /** What the carry buffer makes of `chunks`, one by one. */
  function SplitAll(carry: string, chunks: seq<string>): Split {
    if chunks == [] then Split([], carry)
    else
      var before := SplitAll(carry, chunks[..|chunks| - 1]);
      var text := before.carry + chunks[|chunks| - 1];
      Split(before.lines + Complete(text), Partial(text))
  }

  /** The lines do not depend on how the stream was cut into chunks. */
  lemma {:induction false} ChunkingIsIrrelevant(carry: string, chunks: seq<string>)
    requires Partial(carry) == carry && Complete(carry) == []
    ensures SplitAll(carry, chunks) == Split(Complete(carry + JoinAll(chunks)), Partial(carry + JoinAll(chunks)))
  {
    if chunks == [] {
      assert carry + "" == carry;
    } else {
      var init, last := chunks[..|chunks| - 1], chunks[|chunks| - 1];
      ChunkingIsIrrelevant(carry, init);
      AppendAssociates(carry, JoinAll(init), last);
      SplitAppend(carry + JoinAll(init), last);
    }
  }

  // ----- entries -----

  datatype Level = Warn | Error | Fatal | Other

  datatype LogstashState = Unknown | Restarting | Started | Running

  /** A parsed log line; `message` is in lower case. */
  datatype Entry = Entry(level: Level, timestamp: int, message: string)

  predicate Contains(s: string, t: string) {
    t <= s || (s != "" && Contains(s[1..], t))
  }

  /** The state an entry announces: shutdown before API-ready before starting. */
  function Announced(e: Entry): Option<LogstashState> {
    if Contains(e.message, "logstash shut down") then Some(Restarting)
    else if Contains(e.message, "successfully started logstash api endpoint") then Some(Running)
    else if Contains(e.message, "starting logstash") then Some(Started)
    else None
  }

  predicate IsSpace(c: char) {
    c == ' ' || '\t' <= c <= '\r' || '\U{1C}' <= c <= '\U{1F}'
  }

  function Strip(s: string): string {
    if s == "" then ""
    else if IsSpace(s[0]) then Strip(s[1..])
    else if IsSpace(s[|s| - 1]) then Strip(s[..|s| - 1])
    else s
  }

  /**
  A line without surrounding space: not JSON, a log entry, or JSON of another shape, on which
  processing raises.
  */
  datatype Parsed = Malformed | Item(entry: Entry) | Unusable

  /** What one line gives; a blank one is skipped like a malformed one. */
  function Reading(line: string, parse: string -> Parsed): Parsed {
    if Strip(line) == "" then Malformed else parse(Strip(line))
  }

  /** The entries of the lines that hold one. */
  function EntriesOf(lines: seq<string>, parse: string -> Parsed): seq<Entry> {
    if lines == [] then []
    else
      EntriesOf(lines[..|lines| - 1], parse) + EntryIn(lines[|lines| - 1], parse)
  }

  function EntryIn(line: string, parse: string -> Parsed): seq<Entry> {
    var r := Reading(line, parse);
    if r.Item? then [r.entry] else []
  }

  /** Processing the line raises. */
  predicate Raises(line: string, parse: string -> Parsed) {
    Reading(line, parse).Unusable?
  }

  predicate AllUsable(lines: seq<string>, parse: string -> Parsed) {
    lines == [] || (AllUsable(lines[..|lines| - 1], parse) && !Raises(lines[|lines| - 1], parse))
  }

  /** The lines before the first unusable one. */
  function Usable(lines: seq<string>, parse: string -> Parsed): seq<string> {
    if lines == [] then []
    else
      var init := Usable(lines[..|lines| - 1], parse);
      if |init| < |lines| - 1 || Raises(lines[|lines| - 1], parse) then init else lines
  }

  lemma {:induction false} UsableIs(lines: seq<string>, parse: string -> Parsed, k: nat)
    requires k <= |lines| && AllUsable(lines[..k], parse)
    requires k < |lines| ==> Raises(lines[k], parse)
    ensures Usable(lines, parse) == lines[..k]
    ensures AllUsable(lines, parse) <==> k == |lines|
    decreases |lines|
  {
    if lines != [] {
      var init := lines[..|lines| - 1];
      var m := if k == |lines| then k - 1 else k;
      assert init[..m] == lines[..m];
      assert k == |lines| ==> lines[..k] == lines;
      UsableIs(init, parse, m);
    }
  }

  lemma {:induction false} EntriesAppend(a: seq<string>, b: seq<string>, parse: string -> Parsed)
    ensures EntriesOf(a + b, parse) == EntriesOf(a, parse) + EntriesOf(b, parse)
    decreases |b|
  {
    if b == [] {
      assert a + b == a;
    } else {
      EntriesAppend(a, b[..|b| - 1], parse);
      assert (a + b)[..|a + b| - 1] == a + b[..|b| - 1];
      AppendAssociates(EntriesOf(a, parse), EntriesOf(b[..|b| - 1], parse), EntryIn(b[|b| - 1], parse));
    }
  }

  function OfLevel(entries: seq<Entry>, level: Level): seq<Entry> {
    if entries == [] then []
    else
      var e := entries[|entries| - 1];
      OfLevel(entries[..|entries| - 1], level) + if e.level == level then [e] else []
  }

  /** At most the first two hundred. */
  function Capped(entries: seq<Entry>): seq<Entry> {
    if |entries| <= MAX_COLLECTED then entries else entries[..MAX_COLLECTED]
  }

  /** The last announced state, with the times of the last shutdown and start. */
  datatype Lifecycle = Lifecycle(state: LogstashState, shutdown: Option<int>, startup: Option<int>)

  function Announce(l: Lifecycle, e: Entry): Lifecycle {
    match Announced(e)
    case None => l
    case Some(Restarting) => l.(state := Restarting, shutdown := Some(e.timestamp))
    case Some(Started) => l.(state := Started, startup := Some(e.timestamp))
    case Some(s) => l.(state := s)
  }

  function LifecycleAfter(entries: seq<Entry>): Lifecycle {
    if entries == [] then Lifecycle(Unknown, None, None)
    else Announce(LifecycleAfter(entries[..|entries| - 1]), entries[|entries| - 1])
  }

  datatype Report = Report(lifecycle: Lifecycle, warnings: seq<Entry>, errors: seq<Entry>, fatals: seq<Entry>)

  /** What a check-in must report: the state after all entries, and the capped prefix of its interval per level. */
  function ReportOf(interval: seq<Entry>, all: seq<Entry>): Report {
    Report(LifecycleAfter(all), Capped(OfLevel(interval, Warn)), Capped(OfLevel(interval, Error)),
           Capped(OfLevel(interval, Fatal)))
  }

  function AppendCapped(collected: seq<Entry>, e: Entry, level: Level): seq<Entry> {
    if e.level == level && |collected| < MAX_COLLECTED then collected + [e] else collected
  }

  lemma CappedStep(interval: seq<Entry>, e: Entry, level: Level)
    ensures Capped(OfLevel(interval + [e], level)) == AppendCapped(Capped(OfLevel(interval, level)), e, level)
  {
    assert (interval + [e])[..|interval|] == interval;
    var c := OfLevel(interval, level);
    if e.level == level && |c| >= MAX_COLLECTED {
      assert (c + [e])[..MAX_COLLECTED] == c[..MAX_COLLECTED];
    }
  }

  lemma ReportStep(interval: seq<Entry>, all: seq<Entry>, e: Entry)
    ensures var r, r' := ReportOf(interval, all), ReportOf(interval + [e], all + [e]);
      && r'.lifecycle == Announce(r.lifecycle, e)
      && r'.warnings == AppendCapped(r.warnings, e, Warn)
      && r'.errors == AppendCapped(r.errors, e, Error)
      && r'.fatals == AppendCapped(r.fatals, e, Fatal)
  {
    LifecycleStep(all, e);
    CappedStep(interval, e, Warn);
    CappedStep(interval, e, Error);
    CappedStep(interval, e, Fatal);
  }

  // ----- what a report says, entry by entry -----

  ghost predicate StandsAt(t: string, s: string, i: int) {
    0 <= i <= |s| - |t| && s[i..i + |t|] == t
  }

  lemma {:induction false} ContainsMeans(s: string, t: string)
    ensures Contains(s, t) <==> exists i :: StandsAt(t, s, i)
  {
    if t <= s {
      assert StandsAt(t, s, 0);
    } else if s != "" {
      ContainsMeans(s[1..], t);
      if i :| StandsAt(t, s[1..], i) {
        assert StandsAt(t, s, i + 1);
      }
      if i :| StandsAt(t, s, i) {
        assert i > 0 && StandsAt(t, s[1..], i - 1);
      }
    }
  }

  /** `t` is the slice of `s` from `i` to `j`: only space is cut off, and none is left at either end. */
  ghost predicate StripsTo(s: string, i: int, j: int, t: string) {
    && 0 <= i <= j <= |s| && t == s[i..j]
    && (forall k | 0 <= k < i || j <= k < |s| :: IsSpace(s[k]))
    && (t != "" ==> !IsSpace(t[0]) && !IsSpace(t[|t| - 1]))
  }

  lemma StripsFront(s: string, i: int, j: int, t: string)
    requires s != "" && IsSpace(s[0]) && StripsTo(s[1..], i, j, t)
    ensures StripsTo(s, i + 1, j + 1, t)
  {
    assert forall k | 0 < k < |s| :: s[k] == s[1..][k - 1];
  }

  lemma {:induction false} StripMeans(s: string)
    ensures exists i, j :: StripsTo(s, i, j, Strip(s))
    decreases |s|
  {
    if s == "" {
      assert Strip(s) == s[0..0];
      assert StripsTo(s, 0, 0, Strip(s));
    } else if IsSpace(s[0]) {
      StripMeans(s[1..]);
      var i, j :| StripsTo(s[1..], i, j, Strip(s[1..]));
      StripsFront(s, i, j, Strip(s));
    } else if IsSpace(s[|s| - 1]) {
      StripMeans(s[..|s| - 1]);
      var i, j :| StripsTo(s[..|s| - 1], i, j, Strip(s[..|s| - 1]));
      assert StripsTo(s, i, j, Strip(s));
    } else {
      assert Strip(s) == s[0..|s|];
      assert StripsTo(s, 0, |s|, Strip(s));
    }
  }

  ghost predicate ShutsDown(e: Entry) {
    Contains(e.message, "logstash shut down")
  }

  ghost predicate Serves(e: Entry) {
    Contains(e.message, "successfully started logstash api endpoint") && !ShutsDown(e)
  }

  ghost predicate Starts(e: Entry) {
    Contains(e.message, "starting logstash") && !Serves(e) && !ShutsDown(e)
  }

  ghost predicate Announces(e: Entry) {
    ShutsDown(e) || Serves(e) || Starts(e)
  }

  /** Entry `i` is the last one for which `p` holds. */
  ghost predicate IsLast(all: seq<Entry>, i: int, p: Entry -> bool) {
    0 <= i < |all| && p(all[i]) && forall k | i < k < |all| :: !p(all[k])
  }

  ghost predicate TimeOfLast(time: Option<int>, all: seq<Entry>, p: Entry -> bool) {
    if time.None? then forall e | e in all :: !p(e)
    else exists i :: IsLast(all, i, p) && time == Some(all[i].timestamp)
  }

  ghost predicate StateOfLast(state: LogstashState, all: seq<Entry>) {
    if state.Unknown? then forall e | e in all :: !Announces(e)
    else exists i :: IsLast(all, i, Announces) && StateIs(state, all[i])
  }

  ghost predicate StateIs(state: LogstashState, e: Entry) {
    (ShutsDown(e) ==> state == Restarting) && (Serves(e) ==> state == Running) && (Starts(e) ==> state == Started)
  }

  /** The state is that of the last entry that announces one, and the times are those of the last shutdown and start. */
  ghost predicate LifecycleMeans(l: Lifecycle, all: seq<Entry>) {
    StateOfLast(l.state, all) && TimeOfLast(l.shutdown, all, ShutsDown) && TimeOfLast(l.startup, all, Starts)
  }

  lemma LastStep(all: seq<Entry>, i: int, e: Entry, p: Entry -> bool)
    ensures p(e) ==> IsLast(all + [e], |all|, p)
    ensures !p(e) && IsLast(all, i, p) ==> IsLast(all + [e], i, p) && (all + [e])[i] == all[i]
  {
  }

  lemma TimeStep(time: Option<int>, all: seq<Entry>, e: Entry, p: Entry -> bool)
    requires TimeOfLast(time, all, p)
    ensures TimeOfLast(if p(e) then Some(e.timestamp) else time, all + [e], p)
  {
    if p(e) || time.Some? {
      var i := if p(e) then 0 else var i :| IsLast(all, i, p) && time == Some(all[i].timestamp); i;
      LastStep(all, i, e, p);
    }
  }

  lemma StateStep(state: LogstashState, all: seq<Entry>, e: Entry)
    requires StateOfLast(state, all)
    ensures StateOfLast(if ShutsDown(e) then Restarting else if Serves(e) then Running else if Starts(e) then Started else state,
                        all + [e])
  {
    if Announces(e) {
      LastStep(all, 0, e, Announces);
    } else if !state.Unknown? {
      var i :| IsLast(all, i, Announces) && StateIs(state, all[i]);
      LastStep(all, i, e, Announces);
    }
  }

  lemma AnnounceMeans(l: Lifecycle, e: Entry)
    ensures Announce(l, e) == Lifecycle(
              if ShutsDown(e) then Restarting else if Serves(e) then Running else if Starts(e) then Started else l.state,
              if ShutsDown(e) then Some(e.timestamp) else l.shutdown,
              if Starts(e) then Some(e.timestamp) else l.startup)
  {
  }

  lemma LifecycleGrows(l: Lifecycle, all: seq<Entry>, e: Entry)
    requires LifecycleMeans(l, all)
    ensures LifecycleMeans(Announce(l, e), all + [e])
  {
    AnnounceMeans(l, e);
    StateStep(l.state, all, e);
    TimeStep(l.shutdown, all, e, ShutsDown);
    TimeStep(l.startup, all, e, Starts);
  }

  lemma LifecycleGrowsOn(init: seq<Entry>, e: Entry)
    requires LifecycleMeans(LifecycleAfter(init), init)
    ensures LifecycleMeans(LifecycleAfter(init + [e]), init + [e])
  {
    LifecycleStep(init, e);
    LifecycleGrows(LifecycleAfter(init), init, e);
  }

  lemma NothingAnnounced()
    ensures LifecycleMeans(LifecycleAfter([]), [])
  {
  }

  lemma {:induction false} LifecycleIs(all: seq<Entry>)
    ensures LifecycleMeans(LifecycleAfter(all), all)
  {
    if all == [] {
      NothingAnnounced();
    } else {
      var init, e := all[..|all| - 1], all[|all| - 1];
      assert all == init + [e];
      LifecycleIs(init);
      LifecycleGrowsOn(init, e);
    }
  }

  ghost function Positions(entries: seq<Entry>, level: Level): set<nat> {
    set i: nat | i < |entries| && entries[i].level == level
  }

  lemma PositionsStep(entries: seq<Entry>, e: Entry, level: Level)
    ensures Positions(entries + [e], level) == Positions(entries, level) + if e.level == level then {|entries|} else {}
    ensures |Positions(entries + [e], level)| == |Positions(entries, level)| + if e.level == level then 1 else 0
  {
    assert Positions(entries + [e], level) == Positions(entries, level) + if e.level == level then {|entries|} else {};
  }

  /** The entry at `i` is kept at the place that the number of those before it gives. */
  ghost predicate KeptAt(list: seq<Entry>, entries: seq<Entry>, i: nat, level: Level)
    requires i < |entries|
  {
    var k := |Positions(entries[..i], level)|;
    k < |list| && list[k] == entries[i]
  }

  /** Every entry of the level is kept, in its place. */
  lemma {:induction false} OfLevelKeeps(entries: seq<Entry>, level: Level)
    ensures |OfLevel(entries, level)| == |Positions(entries, level)|
    ensures forall i | i in Positions(entries, level) :: KeptAt(OfLevel(entries, level), entries, i, level)
  {
    if entries == [] {
      assert Positions(entries, level) == {};
    } else {
      var n := |entries| - 1;
      var init, e := entries[..n], entries[n];
      OfLevelKeeps(init, level);
      PositionsStep(init, e, level);
      assert entries == init + [e];
      forall i | i in Positions(entries, level)
        ensures KeptAt(OfLevel(entries, level), entries, i, level)
      {
        if i < n {
          assert entries[..i] == init[..i];
          assert KeptAt(OfLevel(init, level), init, i, level);
        }
      }
    }
  }

  /** The first two hundred entries of the level, in their order. */
  ghost predicate FirstOf(list: seq<Entry>, interval: seq<Entry>, level: Level) {
    && |list| == (if |Positions(interval, level)| <= 200 then |Positions(interval, level)| else 200)
    && forall i | i in Positions(interval, level) && |Positions(interval[..i], level)| < |list| ::
         KeptAt(list, interval, i, level)
  }

  /** What a report says about its interval and about all entries so far. */
  lemma ReportMeans(interval: seq<Entry>, all: seq<Entry>)
    ensures var r := ReportOf(interval, all);
      && FirstOf(r.warnings, interval, Warn) && FirstOf(r.errors, interval, Error) && FirstOf(r.fatals, interval, Fatal)
      && LifecycleMeans(r.lifecycle, all)
  {
    LifecycleIs(all);
    OfLevelKeeps(interval, Warn);
    OfLevelKeeps(interval, Error);
    OfLevelKeeps(interval, Fatal);
  }

  /** The entries a new chunk adds are those of the lines the carry buffer completes. */
  lemma FeedSplits(rotated: seq<string>, fed: string, chunk: string, parse: string -> Parsed)
    ensures EntriesOf(rotated + Complete(fed + chunk), parse) ==
            EntriesOf(rotated + Complete(fed), parse) + EntriesOf(Complete(Partial(fed) + chunk), parse)
    ensures Partial(fed + chunk) == Partial(Partial(fed) + chunk)
    ensures AllUsable(rotated + Complete(fed + chunk), parse) <==>
            AllUsable(rotated + Complete(fed), parse) && AllUsable(Complete(Partial(fed) + chunk), parse)
  {
    SplitAppend(fed, chunk);
    var done, added := Complete(fed), Complete(Partial(fed) + chunk);
    AppendAssociates(rotated, done, added);
    EntriesAppend(rotated + done, added, parse);
    UsableAppend(rotated + done, added, parse);
  }

  lemma ReadStep(lines: seq<string>, i: nat, parse: string -> Parsed)
    requires i < |lines|
    ensures EntriesOf(lines[..i + 1], parse) == EntriesOf(lines[..i], parse) + EntryIn(lines[i], parse)
    ensures AllUsable(lines[..i + 1], parse) <==> AllUsable(lines[..i], parse) && !Raises(lines[i], parse)
  {
    assert lines[..i + 1][..i] == lines[..i];
  }

  // ----- the carry buffer when processing may raise -----

  /** The entries processed and the carry buffer left by a list of chunks. */
  datatype Fed = Fed(entries: seq<Entry>, carry: string)

  /** A chunk that raises processes the lines before the raising one and leaves the carry buffer as it was. */
  function FeedAll(carry: string, chunks: seq<string>, parse: string -> Parsed): Fed {
    if chunks == [] then Fed([], carry)
    else
      FeedMore(FeedAll(carry, chunks[..|chunks| - 1], parse), chunks[|chunks| - 1], parse)
  }

  /** One more chunk on top of what was fed. */
  function FeedMore(before: Fed, chunk: string, parse: string -> Parsed): Fed {
    var lines := Complete(before.carry + chunk);
    Fed(before.entries + EntriesOf(Usable(lines, parse), parse),
        if AllUsable(lines, parse) then Partial(before.carry + chunk) else before.carry)
  }

  lemma FeedStep(carry: string, chunks: seq<string>, i: nat, parse: string -> Parsed)
    requires i < |chunks|
    ensures FeedAll(carry, chunks[..i + 1], parse) == FeedMore(FeedAll(carry, chunks[..i], parse), chunks[i], parse)
  {
    assert chunks[..i + 1][..i] == chunks[..i];
  }

  lemma FeedOne(carry: string, chunk: string, parse: string -> Parsed)
    ensures FeedAll(carry, [chunk], parse) == FeedMore(Fed([], carry), chunk, parse)
  {
    assert [chunk][..0] == [];
  }

  lemma FeedTwo(carry: string, one: string, two: string, parse: string -> Parsed)
    ensures FeedAll(carry, [one, two], parse) == FeedMore(FeedMore(Fed([], carry), one, parse), two, parse)
    ensures JoinAll([one, two]) == one + two && JoinAll([one]) == one
  {
    var chunks := [one, two];
    assert chunks[..2] == chunks && chunks[..1] == [one] && chunks[..0] == [];
    FeedStep(carry, chunks, 1, parse);
    FeedStep(carry, chunks, 0, parse);
    assert [one][..0] == [] && JoinAll([one]) == "" + one == one;
  }

  lemma AllUsableIs(lines: seq<string>, parse: string -> Parsed)
    requires AllUsable(lines, parse)
    ensures Usable(lines, parse) == lines
  {
    assert lines[..|lines|] == lines;
    UsableIs(lines, parse, |lines|);
  }

  /** While no line raises, feeding reads the lines of the split. */
  lemma {:induction false} FeedReadsSplit(carry: string, chunks: seq<string>, parse: string -> Parsed)
    requires AllUsable(SplitAll(carry, chunks).lines, parse)
    ensures FeedAll(carry, chunks, parse) ==
            Fed(EntriesOf(SplitAll(carry, chunks).lines, parse), SplitAll(carry, chunks).carry)
  {
    if chunks != [] {
      var before := SplitAll(carry, chunks[..|chunks| - 1]);
      var lines := Complete(before.carry + chunks[|chunks| - 1]);
      UsableAppend(before.lines, lines, parse);
      FeedReadsSplit(carry, chunks[..|chunks| - 1], parse);
      AllUsableIs(lines, parse);
      EntriesAppend(before.lines, lines, parse);
    }
  }

  /** If every line of a stream can be used, every chunking processes exactly the entries of the stream. */
  lemma UsableStreamIsChunkedFreely(chunks: seq<string>, parse: string -> Parsed)
    requires AllUsable(Complete(JoinAll(chunks)), parse)
    ensures FeedAll("", chunks, parse) == Fed(EntriesOf(Complete(JoinAll(chunks)), parse), Partial(JoinAll(chunks)))
  {
    ChunkingIsIrrelevant("", chunks);
    assert "" + JoinAll(chunks) == JoinAll(chunks);
    FeedReadsSplit("", chunks, parse);
  }

  /** A line that holds an entry. */
  ghost predicate GivesEntry(line: string, parse: string -> Parsed) {
    '\n' !in line && EntryIn(line, parse) != []
  }

  lemma {:induction false} OneLine(line: string)
    requires '\n' !in line
    ensures Complete(line) == [] && Partial(line) == line
    ensures Complete(line + "\n") == [line] && Partial(line + "\n") == ""
  {
    if line != "" {
      OneLine(line[..|line| - 1]);
    }
    assert (line + "\n")[..|line|] == line;
    assert line + "\n" != "" && (line + "\n")[|line|] == '\n';
    assert Complete(line + "\n") == Complete(line) + [Partial(line)];
  }

  lemma {:induction false} UsableOfAppend(a: seq<string>, b: seq<string>, parse: string -> Parsed)
    requires !AllUsable(a, parse)
    ensures Usable(a + b, parse) == Usable(a, parse) && |Usable(a, parse)| < |a| && !AllUsable(a + b, parse)
    decreases |a| + |b|
  {
    if b != [] {
      UsableOfAppend(a, b[..|b| - 1], parse);
      assert (a + b)[..|a + b| - 1] == a + b[..|b| - 1];
    } else {
      assert a + b == a;
      if AllUsable(a[..|a| - 1], parse) {
        AllUsableIs(a[..|a| - 1], parse);
      } else {
        UsableOfAppend(a[..|a| - 1], [], parse);
        assert a[..|a| - 1] + [] == a[..|a| - 1];
      }
    }
  }

  /**
  Once a line of the stream raised, chunkings can be told apart: after a line end and any line
  with an entry, the entry is lost in one chunk and processed in two.
  */
  lemma RaisingStreamIsChunkedDifferently(stream: string, line: string, parse: string -> Parsed)
    requires !AllUsable(Complete(stream), parse) && GivesEntry(line, parse)
    ensures var more := "\n" + line + "\n";
      && JoinAll([stream + more]) == stream + more == JoinAll([stream, more])
      && FeedAll("", [stream, more], parse).entries ==
           FeedAll("", [stream + more], parse).entries + EntryIn(line, parse)
  {
    var more := "\n" + line + "\n";
    var lines, added := Complete(stream), Complete(Partial(stream) + more);
    FeedOne("", stream + more, parse);
    FeedTwo("", stream, more, parse);
    FeedTwo("", stream + more, "", parse);
    assert "" + (stream + more) == stream + more && "" + stream == stream && "" + more == more;
    SplitAppend(stream, more);
    UsableOfAppend(lines, added, parse);
    BlankThenLine(line);
    EntryLine(line, parse);
  }

  lemma EntryLine(line: string, parse: string -> Parsed)
    requires GivesEntry(line, parse)
    ensures AllUsable([line], parse) && EntriesOf([line], parse) == EntryIn(line, parse)
    ensures AllUsable(["", line], parse) && EntriesOf(Usable(["", line], parse), parse) == EntryIn(line, parse)
  {
    assert [line][..0] == [] && ["", line][..1] == [""] && [""][..0] == [];
    assert Reading("", parse) == Malformed;
    assert AllUsable([""], parse) && EntriesOf([""], parse) == [];
    AllUsableIs(["", line], parse);
  }

  lemma LineAppend(text: string, line: string)
    requires '\n' !in line && Partial(text) == ""
    ensures Complete(text + (line + "\n")) == Complete(text) + [line]
  {
    OneLine(line);
    SplitAppend(text, line + "\n");
    assert "" + (line + "\n") == line + "\n";
  }

  lemma BlankThenLine(line: string)
    requires '\n' !in line
    ensures Complete("\n" + line + "\n") == ["", line]
  {
    OneLine("");
    assert "" + "\n" == "\n";
    LineAppend("\n", line);
    assert "\n" + line + "\n" == "\n" + (line + "\n");
    assert [""] + [line] == ["", line];
  }

  /** However the stream goes on with lines that can be used, every chunking processes exactly its entries. */
  ghost predicate Robust(stream: string, parse: string -> Parsed) {
    forall more, chunks | AllUsable(Complete(more), parse) && JoinAll(chunks) == stream + more ::
      FeedAll("", chunks, parse).entries == EntriesOf(Complete(stream + more), parse)
  }

  lemma {:induction false} NoEntries(lines: seq<string>, parse: string -> Parsed)
    requires forall l | l in lines :: EntryIn(l, parse) == []
    ensures EntriesOf(lines, parse) == [] && EntriesOf(Usable(lines, parse), parse) == []
  {
    if lines != [] {
      NoEntries(lines[..|lines| - 1], parse);
    }
  }

  lemma {:induction false} NoEntriesFed(carry: string, chunks: seq<string>, parse: string -> Parsed)
    requires forall line :: !GivesEntry(line, parse)
    ensures FeedAll(carry, chunks, parse).entries == []
  {
    if chunks != [] {
      var before := FeedAll(carry, chunks[..|chunks| - 1], parse);
      NoEntriesFed(carry, chunks[..|chunks| - 1], parse);
      var text := before.carry + chunks[|chunks| - 1];
      SplitJoins(text);
      assert forall l | l in Complete(text) :: !GivesEntry(l, parse);
      NoEntries(Complete(text), parse);
    }
  }

  /**
  Exactly when tailing does not depend on the chunking: for a stream of whole lines, no line of
  it raises, or no line whatsoever holds an entry.
  */
  lemma RobustExactlyWhen(stream: string, parse: string -> Parsed)
    requires Partial(stream) == ""
    ensures Robust(stream, parse) <==>
      AllUsable(Complete(stream), parse) || forall line :: !GivesEntry(line, parse)
  {
    if forall line :: !GivesEntry(line, parse) {
      forall more, chunks | AllUsable(Complete(more), parse) && JoinAll(chunks) == stream + more
        ensures FeedAll("", chunks, parse).entries == EntriesOf(Complete(stream + more), parse)
      {
        NoEntriesFed("", chunks, parse);
        SplitJoins(stream + more);
        assert forall l | l in Complete(stream + more) :: !GivesEntry(l, parse);
        NoEntries(Complete(stream + more), parse);
      }
    } else if AllUsable(Complete(stream), parse) {
      forall more, chunks | AllUsable(Complete(more), parse) && JoinAll(chunks) == stream + more
        ensures FeedAll("", chunks, parse).entries == EntriesOf(Complete(stream + more), parse)
      {
        SplitAppend(stream, more);
        assert "" + more == more;
        UsableAppend(Complete(stream), Complete(more), parse);
        UsableStreamIsChunkedFreely(chunks, parse);
      }
    } else {
      var line :| GivesEntry(line, parse);
      LostInOneChunk(stream, line, parse);
    }
  }

  lemma LostInOneChunk(stream: string, line: string, parse: string -> Parsed)
    requires Partial(stream) == "" && !AllUsable(Complete(stream), parse) && GivesEntry(line, parse)
    ensures !Robust(stream, parse)
  {
    var more := line + "\n";
    OneLine(line);
    EntryLine(line, parse);
    LineAppend(stream, line);
    LessThanAll(Complete(stream), line, parse);
    TellsApart(stream, more, parse);
  }

  lemma TellsApart(stream: string, more: string, parse: string -> Parsed)
    requires AllUsable(Complete(more), parse)
    requires EntriesOf(Usable(Complete(stream + more), parse), parse) != EntriesOf(Complete(stream + more), parse)
    ensures !Robust(stream, parse)
  {
    WholeChunk(stream + more, parse);
    assert FeedAll("", [stream + more], parse).entries != EntriesOf(Complete(stream + more), parse);
  }

  lemma WholeChunk(text: string, parse: string -> Parsed)
    ensures FeedAll("", [text], parse).entries == EntriesOf(Usable(Complete(text), parse), parse)
    ensures JoinAll([text]) == text
  {
    FeedOne("", text, parse);
    assert "" + text == text;
    assert [text][..0] == [];
  }

  lemma LessThanAll(lines: seq<string>, line: string, parse: string -> Parsed)
    requires !AllUsable(lines, parse) && GivesEntry(line, parse)
    ensures EntriesOf(Usable(lines + [line], parse), parse) != EntriesOf(lines + [line], parse)
  {
    UsableOfAppend(lines, [line], parse);
    EntriesAppend(lines, [line], parse);
    EntryLine(line, parse);
    RestIsSkipped(lines, parse);
    assert |EntriesOf(Usable(lines + [line], parse), parse)| <= |EntriesOf(lines, parse)|;
  }

  lemma RestIsSkipped(lines: seq<string>, parse: string -> Parsed)
    ensures |EntriesOf(Usable(lines, parse), parse)| <= |EntriesOf(lines, parse)|
  {
    UsableIsPrefix(lines, parse);
    var u := Usable(lines, parse);
    var rest := lines[|u|..];
    EntriesAppend(u, rest, parse);
    assert u + rest == lines;
  }

  lemma {:induction false} UsableIsPrefix(lines: seq<string>, parse: string -> Parsed)
    ensures Usable(lines, parse) <= lines
  {
    if lines != [] {
      UsableIsPrefix(lines[..|lines| - 1], parse);
    }
  }

  lemma {:induction false} UsableAppend(a: seq<string>, b: seq<string>, parse: string -> Parsed)
    ensures AllUsable(a + b, parse) <==> AllUsable(a, parse) && AllUsable(b, parse)
    decreases |b|
  {
    if b == [] {
      assert a + b == a;
    } else {
      UsableAppend(a, b[..|b| - 1], parse);
      assert (a + b)[..|a + b| - 1] == a + b[..|b| - 1];
    }
  }

  lemma LifecycleStep(all: seq<Entry>, e: Entry)
    ensures LifecycleAfter(all + [e]) == Announce(LifecycleAfter(all), e)
  {
    assert (all + [e])[..|all|] == all;
  }

  /** While every line of the stream can be used, the carry buffer and the entries seen are those of the stream. */
  ghost predicate Tracks(buf: string, seen: seq<Entry>, rotated: seq<string>, fed: string, parse: string -> Parsed) {
    AllUsable(rotated + Complete(fed), parse) ==>
      buf == Partial(fed) && seen == EntriesOf(rotated + Complete(fed), parse)
  }

  /** A chunk that is processed to its end is tracked; after one that raised there is nothing to track. */
  lemma TracksFeed(buf: string, seen: seq<Entry>, rotated: seq<string>, fed: string, chunk: string,
                   parse: string -> Parsed, lost: seq<Entry>)
    requires Tracks(buf, seen, rotated, fed, parse)
    ensures var lines := Complete(buf + chunk);
      if AllUsable(lines, parse) then Tracks(Partial(buf + chunk), seen + EntriesOf(lines, parse), rotated, fed + chunk, parse)
      else Tracks(buf, lost, rotated, fed + chunk, parse)
  {
    FeedSplits(rotated, fed, chunk, parse);
  }

  class Watcher {
    /** `json.loads`, as far as an entry can be read from a line. */
    const parse: string -> Parsed

    var lifecycle: Lifecycle
    var warnings: seq<Entry>
    var errors: seq<Entry>
    var fatals: seq<Entry>
    /** The carry buffer of the tailing loop. */
    var buf: string

    /** Lines of files rotated away, bytes of the current file, all entries, and those since the last check-in. */
    ghost var rotated: seq<string>
    ghost var fed: string
    ghost var before: seq<Entry>
    ghost var interval: seq<Entry>

    function Current(): Report
      reads this`lifecycle, this`warnings, this`errors, this`fatals
    {
      Report(lifecycle, warnings, errors, fatals)
    }

    /** What is collected is what the entries so far call for. */
    ghost predicate Collected()
      reads this`lifecycle, this`warnings, this`errors, this`fatals, this`before, this`interval
    {
      Current() == ReportOf(interval, before + interval)
    }

    /** Every line of the stream so far could be used. */
    ghost predicate Intact()
      reads this`rotated, this`fed
    {
      AllUsable(rotated + Complete(fed), parse)
    }

    /** Up to the first unusable line, the entries seen are those of the stream. */
    ghost predicate Valid()
      reads this
    {
      Collected() && Tracks(buf, before + interval, rotated, fed, parse)
    }

    constructor (parse: string -> Parsed)
      ensures Valid() && this.parse == parse
      ensures rotated == [] && fed == "" && before == [] && interval == []
    {
      this.parse := parse;
      lifecycle, warnings, errors, fatals, buf := Lifecycle(Unknown, None, None), [], [], [], "";
      rotated, fed, before, interval := [], "", [], [];
    }

    /** The state change an entry announces, if any. */
    method UpdateLifecycle(e: Entry)
      modifies this`lifecycle
      ensures lifecycle == Announce(old(lifecycle), e)
    {
      match Announced(e) {
        case None =>
        case Some(Restarting) =>
          lifecycle := lifecycle.(state := Restarting, shutdown := Some(e.timestamp));
        case Some(Started) =>
          lifecycle := lifecycle.(state := Started, startup := Some(e.timestamp));
        case Some(s) =>
          lifecycle := lifecycle.(state := s);
      }
    }

    /** The entry joins the list of its level while that list is below its cap. */
    method Collect(e: Entry)
      modifies this`warnings, this`errors, this`fatals
      ensures warnings == AppendCapped(old(warnings), e, Warn)
      ensures errors == AppendCapped(old(errors), e, Error)
      ensures fatals == AppendCapped(old(fatals), e, Fatal)
    {
      if e.level == Warn && |warnings| < MAX_COLLECTED {
        warnings := warnings + [e];
      }
      if e.level == Error && |errors| < MAX_COLLECTED {
        errors := errors + [e];
      }
      if e.level == Fatal && |fatals| < MAX_COLLECTED {
        fatals := fatals + [e];
      }
    }

    /** `_process_entry`. */
    method ProcessEntry(e: Entry)
      requires Collected()
      modifies this`lifecycle, this`warnings, this`errors, this`fatals, this`interval
      ensures interval == old(interval) + [e]
      ensures Collected()
    {
      ReportStep(interval, before + interval, e);
      assert before + interval + [e] == before + (interval + [e]);
      UpdateLifecycle(e);
      Collect(e);
      interval := interval + [e];
    }

    /** One line; a raised exception is `ok == false`. */
    method ProcessLine(raw: string) returns (ok: bool)
      requires Collected()
      modifies this`lifecycle, this`warnings, this`errors, this`fatals, this`interval
      ensures Collected()
      ensures ok <==> !Raises(raw, parse)
      ensures interval == old(interval) + EntryIn(raw, parse)
    {
      var line := Strip(raw);
      if line == "" {
        return true;
      }
      match parse(line) {
        case Malformed =>
          return true;
        case Item(entry) =>
          ProcessEntry(entry);
          return true;
        case Unusable =>
          return false;
      }
    }

    /** The lines of one chunk, in order, up to the first one on which processing raises. */
    method ProcessLines(lines: seq<string>) returns (ok: bool)
      requires Collected()
      modifies this`lifecycle, this`warnings, this`errors, this`fatals, this`interval
      ensures Collected()
      ensures ok <==> AllUsable(lines, parse)
      ensures interval == old(interval) + EntriesOf(Usable(lines, parse), parse)
    {
      for i := 0 to |lines|
        invariant interval == old(interval) + EntriesOf(lines[..i], parse)
        invariant AllUsable(lines[..i], parse)
        invariant Collected()
      {
        ReadStep(lines, i, parse);
        AppendAssociates(old(interval), EntriesOf(lines[..i], parse), EntryIn(lines[i], parse));
        ok := ProcessLine(lines[i]);
        if !ok {
          UsableIs(lines, parse, i);
          return false;
        }
      }
      assert lines[..|lines|] == lines;
      UsableIs(lines, parse, |lines|);
      return true;
    }

    /**
    `_process_bytes` on the carry buffer and a new chunk. When it raises, the rest of the chunk
    is lost and the carry buffer stays as it was.
    */
    method Feed(chunk: string)
      requires Valid()
      modifies this`lifecycle, this`warnings, this`errors, this`fatals, this`interval, this`buf, this`fed
      ensures Valid() && fed == old(fed) + chunk
      ensures var lines := Complete(old(buf) + chunk);
        && interval == old(interval) + EntriesOf(Usable(lines, parse), parse)
        && buf == if AllUsable(lines, parse) then Partial(old(buf) + chunk) else old(buf)
    {
      ghost var seen := before + interval;
      var ok := ProcessLines(Complete(buf + chunk));
      if ok {
        AllUsableIs(Complete(buf + chunk), parse);
        AppendAssociates(before, old(interval), EntriesOf(Complete(buf + chunk), parse));
      }
      TracksFeed(buf, seen, rotated, fed, chunk, parse, before + interval);
      if ok {
        buf := Partial(buf + chunk);
      }
      fed := fed + chunk;
    }

    /** A list of chunks goes through the carry buffer one after another. */
    method FeedChunks(chunks: seq<string>)
      requires Valid()
      modifies this`lifecycle, this`warnings, this`errors, this`fatals, this`interval, this`buf, this`fed
      ensures Valid()
      ensures FedBy(old(interval), FeedAll(old(buf), chunks, parse))
    {
      for i := 0 to |chunks|
        invariant Valid()
        invariant FedBy(old(interval), FeedAll(old(buf), chunks[..i], parse))
      {
        ghost var before := FeedAll(old(buf), chunks[..i], parse);
        FeedStep(old(buf), chunks, i, parse);
        Feed(chunks[i]);
        AppendAssociates(old(interval), before.entries, EntriesOf(Usable(Complete(before.carry + chunks[i]), parse), parse));
      }
      assert chunks[..|chunks|] == chunks;
    }

    /** Where feeding leaves the watcher, if it started with `before`. */
    ghost predicate FedBy(before: seq<Entry>, f: Fed)
      reads this`interval, this`buf
    {
      interval == before + f.entries && buf == f.carry
    }

    /** The log was rotated: drain the old file, then start over with an empty carry buffer. */
    method Rotate(remaining: string)
      requires Valid()
      modifies this
      ensures Valid() && before == old(before)
      ensures interval == old(interval) + EntriesOf(Usable(Complete(old(buf) + remaining), parse), parse)
      ensures rotated == old(rotated) + Complete(old(fed) + remaining) && fed == ""
    {
      Feed(remaining);
      Vanish();
    }

    /** The log file is gone: what is unread of it and its unfinished line are given up. */
    method Vanish()
      requires Valid()
      modifies this`rotated, this`fed, this`buf
      ensures Valid()
      ensures rotated == old(rotated) + Complete(old(fed)) && fed == "" && buf == ""
    {
      rotated := rotated + Complete(fed);
      assert rotated + Complete("") == rotated;
      fed, buf := "", "";
    }

    /** `consume_for_checkin`: report and clear in one step. */
    method ConsumeForCheckin() returns (r: Report)
      requires Valid()
      modifies this`warnings, this`errors, this`fatals, this`before, this`interval
      ensures Valid()
      ensures r == ReportOf(old(interval), old(before + interval))
      ensures before == old(before + interval) && interval == []
    {
      r := Report(lifecycle, warnings, errors, fatals);
      warnings, errors, fatals := [], [], [];
      before, interval := before + interval, [];
      assert before + interval == before;
    }
  }

  /** What happens to a watcher from outside. */
  datatype Event = Chunk(bytes: string) | Rotation(remaining: string) | Loss | CheckIn

  ghost function Flatten(intervals: seq<seq<Entry>>): seq<Entry> {
    if intervals == [] then [] else Flatten(intervals[..|intervals| - 1]) + intervals[|intervals| - 1]
  }

  /** Every report is the one due for its interval. */
  ghost predicate AllDue(reports: seq<Report>, intervals: seq<seq<Entry>>)
    requires |reports| == |intervals|
  {
    reports == [] ||
    (&& AllDue(reports[..|reports| - 1], intervals[..|intervals| - 1])
     && reports[|reports| - 1] == ReportOf(intervals[|intervals| - 1], Flatten(intervals)))
  }

  lemma AllDueStep(reports: seq<Report>, intervals: seq<seq<Entry>>, r: Report, interval: seq<Entry>)
    requires |reports| == |intervals| && AllDue(reports, intervals)
    requires r == ReportOf(interval, Flatten(intervals) + interval)
    ensures AllDue(reports + [r], intervals + [interval])
    ensures Flatten(intervals + [interval]) == Flatten(intervals) + interval
  {
    assert (reports + [r])[..|reports|] == reports && (intervals + [interval])[..|intervals|] == intervals;
  }

  /**
  Over any interleaving of chunks, rotations and check-ins: each check-in reports the first two
  hundred warnings, errors and fatals of its own interval, and as long as every line can be used
  the intervals partition the entries of the whole stream, whatever the chunking.
  */
  method RunWatcher(w: Watcher, events: seq<Event>) returns (reports: seq<Report>, ghost intervals: seq<seq<Entry>>)
    requires w.Valid() && w.before == [] && w.interval == []
    modifies w
    ensures w.Valid() && |reports| == |intervals|
    ensures w.Intact() ==> Flatten(intervals) + w.interval == EntriesOf(w.rotated + Complete(w.fed), w.parse)
    ensures AllDue(reports, intervals)
  {
    reports, intervals := [], [];
    for n := 0 to |events|
      invariant w.Valid() && |reports| == |intervals| && w.before == Flatten(intervals)
      invariant AllDue(reports, intervals)
    {
      match events[n] {
        case Chunk(bytes) =>
          w.Feed(bytes);
        case Rotation(remaining) =>
          w.Rotate(remaining);
        case Loss =>
          w.Vanish();
        case CheckIn =>
          ghost var interval := w.interval;
          var r := w.ConsumeForCheckin();
          AllDueStep(reports, intervals, r, interval);
          reports := reports + [r];
          intervals := intervals + [interval];
      }
    }
  }
}
