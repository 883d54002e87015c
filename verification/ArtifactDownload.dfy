/**
The resumable artifact download through the UI proxy: a `.part` file that survives process
death, Range requests, retries with back-off, and checksum verification before extraction.

`Downloader.journal` records every content the `.part` file durably had; a process death
leaves it at one of them.
*/
module ArtifactDownload {
  import opened Options

  type Bytes = seq<bv8>

  /** How the transfer of a body ended: end of stream, or an error part way. */
  datatype Ending = EndOfStream | Interrupted

  datatype Response =
    | Body(status: nat, chunks: seq<Bytes>, ending: Ending)
    | HttpError(code: nat, retryAfter: Option<real>)
    | ConnectionError
    | UnexpectedError

  /** One iteration of the retry loop: the clock, what the server answers to a request from `offset`, and staging. */
  datatype Turn = Turn(now: real, reply: nat -> Response, later: real, stageOk: bool)

  datatype Nap = Nap(start: real, duration: real)

  datatype Outcome = Staged | Failed | DeadlineExceeded | Killed

  /** What the retry loop does after one request. */
  datatype Next = Done | Abort | Discard | Retry(delay: real)

  const BACKOFF_START := 15.0
  const BACKOFF_CEILING := 300.0
  const RETRYABLE: set<nat> := {429, 502, 503}

  function Concat(chunks: seq<Bytes>): Bytes {
    if chunks == [] then [] else Concat(chunks[..|chunks| - 1]) + chunks[|chunks| - 1]
  }

  // ----- delays -----

  function Min(a: real, b: real): real {
    if a <= b then a else b
  }

  function Pow2(n: nat): nat {
    if n == 0 then 1 else 2 * Pow2(n - 1)
  }

  /** `_own_backoff`. */
  function OwnBackoff(attempt: nat): real {
    Min(BACKOFF_START * Pow2(attempt) as real, BACKOFF_CEILING)
  }

  /** `_retry_after_seconds` on the parsed header value. */
  function RetryAfter(header: Option<real>): Option<real> {
    match header
    case None => None
    case Some(v) => if v < 0.0 then None else Some(Min(v, BACKOFF_CEILING * 2.0))
  }

  function Delay(header: Option<real>, attempt: nat): real {
    match RetryAfter(header)
    case Some(d) => d
    case None => OwnBackoff(attempt)
  }

  lemma {:induction false} Pow2Grows(m: nat, n: nat)
    requires m <= n
    ensures 1 <= Pow2(m) <= Pow2(n)
    decreases n
  {
    if m < n {
      Pow2Grows(m, n - 1);
    } else if n > 0 {
      Pow2Grows(n - 1, n - 1);
    }
  }

  /** The wait that follows one without a usable header: 15 s at first, doubled up to 300 s. */
  lemma BackoffDoubles(attempt: nat)
    ensures OwnBackoff(0) == 15.0
    ensures OwnBackoff(attempt + 1) == if 2.0 * OwnBackoff(attempt) <= 300.0 then 2.0 * OwnBackoff(attempt) else 300.0
  {
    Pow2Grows(0, attempt);
    assert Pow2(attempt + 1) as real == 2.0 * Pow2(attempt) as real;
  }

  /** The schedule never shrinks, and sits at its ceiling exactly from the sixth attempt on. */
  lemma BackoffSchedule(m: nat, n: nat)
    requires m <= n
    ensures 15.0 <= OwnBackoff(m) <= OwnBackoff(n) <= 300.0
    ensures OwnBackoff(n) == 300.0 <==> n >= 5
  {
    Pow2Grows(0, m);
    Pow2Grows(m, n);
    assert Pow2(4) == 16 && Pow2(5) == 32;
    if n >= 5 {
      Pow2Grows(5, n);
    } else {
      Pow2Grows(n, 4);
    }
  }

  lemma DelayBounds(header: Option<real>, attempt: nat)
    ensures 0.0 <= Delay(header, attempt) <= 2.0 * BACKOFF_CEILING
  {
    BackoffSchedule(attempt, attempt);
  }

  // ----- what the peer promises and what the part file keeps -----

  /**
  RFC 9110: a 206 answers the requested range (section 15.3.7), any other success carries the
  representation from its start; either may be cut short.
  */
  ghost predicate Honest(artifact: Bytes, reply: nat -> Response) {
    forall offset: nat | reply(offset).Body? ::
      if reply(offset).status == 206 then
        offset <= |artifact| && Concat(reply(offset).chunks) <= artifact[offset..]
      else Concat(reply(offset).chunks) <= artifact
  }

  /** A peer whose bodies end cleanly only when they are complete. */
  ghost predicate EndsComplete(artifact: Bytes, reply: nat -> Response) {
    forall offset: nat | reply(offset).Body? && reply(offset).ending == EndOfStream ::
      if reply(offset).status == 206 then
        offset <= |artifact| && Concat(reply(offset).chunks) == artifact[offset..]
      else Concat(reply(offset).chunks) == artifact
  }

  function Content(part: Option<Bytes>): Bytes {
    if part.Some? then part.value else []
  }

  /** The resume offset. */
  function Length(part: Option<Bytes>): nat {
    |Content(part)|
  }

  /** Only bytes of the artifact, from its start. */
  ghost predicate Clean(part: Option<Bytes>, artifact: Bytes) {
    part.Some? ==> part.value <= artifact
  }

  /** Clean, or the bytes found at the start followed by the artifact's bytes from that offset. */
  ghost predicate Resumed(part: Option<Bytes>, found: Option<Bytes>, artifact: Bytes) {
    || Clean(part, artifact)
    || part == found
    || (&& found.Some? && part.Some? && |found.value| <= |artifact|
        && found.value <= part.value && part.value[|found.value|..] <= artifact[|found.value|..])
  }

  lemma {:induction false} ConcatPrefix(chunks: seq<Bytes>, i: nat)
    requires i <= |chunks|
    ensures Concat(chunks[..i]) <= Concat(chunks)
    decreases |chunks| - i
  {
    if i < |chunks| {
      ConcatPrefix(chunks, i + 1);
      assert chunks[..i + 1][..i] == chunks[..i];
    } else {
      assert chunks[..i] == chunks;
    }
  }

  /** Bytes of the requested range keep the part file a resumption of what was found. */
  lemma AppendKeeps(part: Option<Bytes>, found: Option<Bytes>, artifact: Bytes, data: Bytes)
    requires Resumed(part, found, artifact)
    requires Length(part) <= |artifact| && data <= artifact[Length(part)..]
    ensures Resumed(Some(Content(part) + data), found, artifact)
  {
    var b := Content(part);
    if Clean(part, artifact) {
      assert artifact[..|b|] == b;
    } else if part != found {
      var f := |found.value|;
      assert (b + data)[f..] == b[f..] + data;
      assert artifact[f..][|b| - f..] == artifact[|b|..];
    }
  }

  lemma SpliceOnClean(b: Bytes, f: Bytes, artifact: Bytes)
    requires f <= b && f <= artifact && b[|f|..] <= artifact[|f|..]
    ensures b <= artifact
  {
    assert artifact == artifact[..|f|] + artifact[|f|..];
    assert b == b[..|f|] + b[|f|..];
  }

  /** The part file after the first `i` chunks of a body written behind `from`. */
  function Received(from: Option<Bytes>, chunks: seq<Bytes>, i: nat): Bytes
    requires i <= |chunks|
  {
    Content(from) + Concat(chunks[..i])
  }

  lemma ReceivedStep(from: Option<Bytes>, chunks: seq<Bytes>, i: nat)
    requires i < |chunks|
    ensures Received(from, chunks, i) + chunks[i] == Received(from, chunks, i + 1)
  {
    assert chunks[..i + 1][..i] == chunks[..i];
  }

  lemma ReceivedEnds(from: Option<Bytes>, chunks: seq<Bytes>)
    ensures Received(from, chunks, 0) == Content(from)
    ensures Received(from, chunks, |chunks|) == Content(from) + Concat(chunks)
  {
    assert chunks[..|chunks|] == chunks;
  }

  /** After any chunks of a fitting body the part file is a resumption of what was found. */
  lemma {:induction false} ReceivedKeeps(from: Option<Bytes>, found: Option<Bytes>, artifact: Bytes, chunks: seq<Bytes>, i: nat)
    requires i <= |chunks| && Resumed(from, found, artifact)
    requires Length(from) <= |artifact| && Concat(chunks) <= artifact[Length(from)..]
    ensures Resumed(Some(Received(from, chunks, i)), found, artifact)
  {
    ConcatPrefix(chunks, i);
    AppendKeeps(from, found, artifact, Concat(chunks[..i]));
  }

  /** Resuming a clean part file only ever gives clean ones. */
  lemma ResumedFromClean(part: Option<Bytes>, found: Option<Bytes>, artifact: Bytes)
    requires Resumed(part, found, artifact) && Clean(found, artifact)
    ensures Clean(part, artifact)
  {
    if found.Some? && part.Some? && found.value <= part.value && part.value[|found.value|..] <= artifact[|found.value|..] {
      SpliceOnClean(part.value, found.value, artifact);
    }
  }

  /** A body for a request from the end of `part`, as an honest peer sends it. */
  ghost predicate Fits(body: Response, part: Option<Bytes>, artifact: Bytes)
    requires body.Body?
  {
    if body.status == 206 then
      Length(part) <= |artifact| && Concat(body.chunks) <= artifact[Length(part)..]
    else Concat(body.chunks) <= artifact
  }

  /** What the retry loop does after one response, on its `attempt`-th try. */
  function Verdict(r: Response, stageOk: bool, attempt: nat): Next {
    match r
    case Body(_, _, Interrupted) => Retry(OwnBackoff(attempt))
    case Body(_, _, EndOfStream) => if stageOk then Done else Abort
    case HttpError(code, retryAfter) =>
      if code == 416 then Discard
      else if code in RETRYABLE then Retry(Delay(retryAfter, attempt))
      else Abort
    case ConnectionError => Retry(OwnBackoff(attempt))
    case UnexpectedError => Abort
  }

  /** How long to wait: what the header says, up to 600 s, or else what the own schedule says. */
  function WaitAfter(r: Response, attempt: nat): real {
    if r.HttpError? && r.retryAfter.Some? && r.retryAfter.value >= 0.0 then Min(r.retryAfter.value, 600.0)
    else OwnBackoff(attempt)
  }

  lemma RetryWaits(r: Response, stageOk: bool, attempt: nat)
    ensures Verdict(r, stageOk, attempt).Retry? ==> Verdict(r, stageOk, attempt).delay == WaitAfter(r, attempt)
  {
  }

  /** The part file after a response was written to it. */
  function PartAfter(part: Option<Bytes>, r: Response): Option<Bytes> {
    if r.Body? then Some((if r.status == 206 then Content(part) else []) + Concat(r.chunks)) else part
  }

  /** How the loop goes on after a turn. */
  datatype After = Stop(outcome: Outcome) | Go(attempt: nat, discard: bool)

  /** The part file and the staged file after a turn, and how the loop goes on. */
  datatype TurnEnd = TurnEnd(part: Option<Bytes>, staged: Option<Bytes>, after: After)

  /** One request and its answer. */
  function Exchanged(part: Option<Bytes>, attempt: nat, t: Turn, deadline: real): TurnEnd {
    var r := t.reply(Length(part));
    match Verdict(r, t.stageOk, attempt)
    case Done => TurnEnd(None, PartAfter(part, r), Stop(Staged))
    case Abort => TurnEnd(PartAfter(part, r), None, Stop(Failed))
    case Discard => TurnEnd(part, None, Go(attempt, true))
    case Retry(_) => TurnEnd(PartAfter(part, r), None, Go(if t.later < deadline then attempt + 1 else attempt, false))
  }

  /** One turn of the retry loop. */
  function Turned(part: Option<Bytes>, attempt: nat, discard: bool, t: Turn, deadline: real): TurnEnd {
    if t.now >= deadline then TurnEnd(part, None, Stop(DeadlineExceeded))
    else if discard then Exchanged(None, 0, t, deadline)
    else Exchanged(part, attempt, t, deadline)
  }

  /** How a download ends: the part file left behind and the file staged, if one is. */
  datatype Ended = Ended(outcome: Outcome, part: Option<Bytes>, staged: Option<Bytes>)

  /** The whole retry loop over the turns the process lives to see. */
  function Downloaded(part: Option<Bytes>, attempt: nat, discard: bool, turns: seq<Turn>, deadline: real): Ended
    decreases |turns|
  {
    if turns == [] then Ended(Killed, part, None)
    else
      var e := Turned(part, attempt, discard, turns[0], deadline);
      match e.after
      case Stop(outcome) => Ended(outcome, e.part, e.staged)
      case Go(n, d) => Downloaded(e.part, n, d, turns[1..], deadline)
  }

  lemma DownloadedStep(part: Option<Bytes>, attempt: nat, discard: bool, turns: seq<Turn>, i: nat, deadline: real)
    requires i < |turns|
    ensures var e := Turned(part, attempt, discard, turns[i], deadline);
      Downloaded(part, attempt, discard, turns[i..], deadline) ==
        match e.after
        case Stop(outcome) => Ended(outcome, e.part, e.staged)
        case Go(n, d) => Downloaded(e.part, n, d, turns[i + 1..], deadline)
  {
    assert turns[i..][1..] == turns[i + 1..];
  }

  class Downloader {
    const artifact: Bytes
    var part: Option<Bytes>
    var dest: Option<Bytes>
    var journal: seq<Option<Bytes>>
    /** The waits of the current download. */
    var naps: seq<Nap>

    /** The part file at the start of the current download, and the journal position of that start. */
    var found: Option<Bytes>
    var begun: nat

    ghost predicate Valid()
      reads this
    {
      && begun < |journal|
      && journal[begun] == found
      && journal[|journal| - 1] == part
      && forall k | begun <= k < |journal| :: Resumed(journal[k], found, artifact)
    }

    constructor (artifact: Bytes, part: Option<Bytes>)
      ensures Valid() && this.artifact == artifact && this.part == part
      ensures dest == None && journal == [part] && naps == []
    {
      this.artifact := artifact;
      this.part := part;
      dest, journal, naps := None, [part], [];
      found, begun := part, 0;
    }

    /** One durable change of the part file. */
    method SetPart(p: Option<Bytes>)
      requires Valid() && Resumed(p, found, artifact)
      modifies this`part, this`journal
      ensures Valid() && part == p && journal == old(journal) + [p]
    {
      part := p;
      journal := journal + [p];
    }

    /** Opens the part file, truncated unless it continues `from`, and writes a body chunk by chunk. */
    method Write(from: Option<Bytes>, chunks: seq<Bytes>)
      requires Valid() && Resumed(from, found, artifact)
      requires Length(from) <= |artifact| && Concat(chunks) <= artifact[Length(from)..]
      modifies this`part, this`journal
      ensures Valid() && old(journal) <= journal
      ensures part == Some(Content(from) + Concat(chunks))
    {
      ReceivedEnds(from, chunks);
      ReceivedKeeps(from, found, artifact, chunks, 0);
      SetPart(Some(Content(from)));
      for i := 0 to |chunks|
        invariant Valid() && old(journal) <= journal
        invariant part == Some(Received(from, chunks, i))
      {
        ReceivedStep(from, chunks, i);
        ReceivedKeeps(from, found, artifact, chunks, i + 1);
        SetPart(Some(part.value + chunks[i]));
      }
    }

    /** A 206 is appended to the part file, any other success replaces it. */
    method Receive(body: Response)
      requires Valid() && body.Body? && Fits(body, part, artifact)
      modifies this`part, this`journal
      ensures Valid() && old(journal) <= journal
      ensures part == Some((if body.status == 206 then Content(old(part)) else []) + Concat(body.chunks))
    {
      Write(if body.status == 206 then part else None, body.chunks);
    }

    /** Sleeps for the delay, but never past the deadline. */
    method Sleep(delay: real, now: real, deadline: real) returns (slept: bool)
      requires 0.0 <= delay <= 2.0 * BACKOFF_CEILING
      modifies this`naps
      ensures slept <==> now < deadline
      ensures naps == old(naps) + if slept then [Nap(now, Min(delay, deadline - now))] else []
    {
      var remaining := deadline - now;
      if remaining <= 0.0 {
        return false;
      }
      naps := naps + [Nap(now, Min(delay, remaining))];
      return true;
    }

    /** One request and what becomes of its answer. */
    method Request(t: Turn, attempt: nat) returns (next: Next)
      requires Valid() && Honest(artifact, t.reply)
      modifies this`part, this`journal, this`dest
      ensures Valid() && old(journal) <= journal
      ensures var r := t.reply(Length(old(part)));
        && next == Verdict(r, t.stageOk, attempt)
        && part == (if next == Done then None else PartAfter(old(part), r))
        && dest == (if next == Done then PartAfter(old(part), r) else old(dest))
      ensures next == Done ==> dest.Some? && Resumed(dest, found, artifact)
      ensures next == Done && Clean(found, artifact) && EndsComplete(artifact, t.reply) ==> dest == Some(artifact)
      ensures next.Retry? ==> 0.0 <= next.delay <= 2.0 * BACKOFF_CEILING
    {
      ghost var before := part;
      var r := t.reply(Length(part));
      DelayBounds(None, attempt);
      match r {
        case Body(status, chunks, ending) =>
          Receive(r);
          if ending == Interrupted {
            return Retry(OwnBackoff(attempt));
          }
          if !t.stageOk {
            return Abort;
          }
          dest := part;
          if Clean(found, artifact) {
            ResumedFromClean(before, found, artifact);
            CompleteBody(before, artifact, r);
          }
          SetPart(None);
          return Done;
        case HttpError(code, retryAfter) =>
          if code == 416 {
            return Discard;
          } else if code in RETRYABLE {
            DelayBounds(retryAfter, attempt);
            return Retry(Delay(retryAfter, attempt));
          } else {
            return Abort;
          }
        case ConnectionError =>
          return Retry(OwnBackoff(attempt));
        case UnexpectedError =>
          return Abort;
      }
    }

    /** A request, what becomes of its answer, and the wait before the next one. */
    method Exchange(t: Turn, attempt: nat, deadline: real) returns (after: After)
      requires Valid() && Honest(artifact, t.reply) && NapsWithin(naps, deadline)
      modifies this`part, this`journal, this`dest, this`naps
      ensures Valid() && old(journal) <= journal && NapsWithin(naps, deadline)
      ensures var e := Exchanged(old(part), attempt, t, deadline);
        && after == e.after && part == e.part
        && dest == if after == Stop(Staged) then e.staged else old(dest)
      ensures after == Stop(Staged) ==> part == None && dest.Some? && Resumed(dest, found, artifact)
      ensures after == Stop(Staged) && Clean(found, artifact) && EndsComplete(artifact, t.reply) ==> dest == Some(artifact)
      // it waits before it tries again
      ensures var r := t.reply(Length(old(part)));
        naps == old(naps) +
          if !(after.Go? && !after.discard && t.later < deadline) then []
          else [Nap(t.later, Min(WaitAfter(r, attempt), deadline - t.later))]
    {
      RetryWaits(t.reply(Length(part)), t.stageOk, attempt);
      var next := Request(t, attempt);
      match next {
        case Done =>
          return Stop(Staged);
        case Abort =>
          return Stop(Failed);
        case Discard =>
          return Go(attempt, true);
        case Retry(delay) =>
          var slept := Sleep(delay, t.later, deadline);
          return Go(if slept then attempt + 1 else attempt, false);
      }
    }

    /** One iteration of the retry loop: deadline, discard, exchange. */
    method TakeTurn(t: Turn, attempt: nat, discard: bool, deadline: real) returns (after: After)
      requires Valid() && Honest(artifact, t.reply) && NapsWithin(naps, deadline)
      modifies this`part, this`journal, this`dest, this`naps
      ensures Valid() && old(journal) <= journal && NapsWithin(naps, deadline)
      ensures var e := Turned(old(part), attempt, discard, t, deadline);
        && after == e.after && part == e.part
        && dest == if after == Stop(Staged) then e.staged else old(dest)
      ensures after == Stop(Staged) ==> part == None && dest.Some? && Resumed(dest, found, artifact)
      ensures after == Stop(Staged) && Clean(found, artifact) && EndsComplete(artifact, t.reply) ==> dest == Some(artifact)
    {
      if t.now >= deadline {
        return Stop(DeadlineExceeded);
      }
      if discard {
        SetPart(None);
      }
      after := Exchange(t, if discard then 0 else attempt, deadline);
    }

    /**
    `_download_file` via the UI proxy. `turns` are the loop iterations the process lives to
    see; when they run out it is killed.
    */
    method DownloadFile(turns: seq<Turn>, deadline: real) returns (outcome: Outcome)
      requires Valid()
      requires forall t | t in turns :: Honest(artifact, t.reply)
      modifies this
      ensures Valid() && old(journal) <= journal
      ensures found == old(part) && begun == |old(journal)| - 1
      ensures var e := Downloaded(old(part), 0, false, turns, deadline);
        && outcome == e.outcome && part == e.part
        && dest == if outcome == Staged then e.staged else old(dest)
      // a completed transfer hands over the part file and leaves none behind
      ensures outcome == Staged ==> part == None && dest.Some? && Resumed(dest, found, artifact)
      // if bodies end cleanly only when they are complete, a clean resume stages exactly the artifact
      ensures outcome == Staged && Clean(found, artifact) && (forall t | t in turns :: EndsComplete(artifact, t.reply)) ==>
                dest == Some(artifact)
      // every wait is bounded and ends by the deadline
      ensures NapsWithin(naps, deadline)
    {
      found, begun, naps := part, |journal| - 1, [];
      var attempt: nat, discard := 0, false;
      assert turns[0..] == turns;
      for i := 0 to |turns|
        invariant Valid() && old(journal) <= journal && dest == old(dest)
        invariant found == old(part) && begun == |old(journal)| - 1
        invariant NapsWithin(naps, deadline)
        invariant Downloaded(part, attempt, discard, turns[i..], deadline) == Downloaded(old(part), 0, false, turns, deadline)
      {
        DownloadedStep(part, attempt, discard, turns, i, deadline);
        assert turns[i] in turns;
        var after := TakeTurn(turns[i], attempt, discard, deadline);
        if after.Stop? {
          return after.outcome;
        }
        attempt, discard := after.attempt, after.discard;
      }
      return Killed;
    }
  }

  /** How the loop takes an answer to a request. */
  datatype Kind = Fetched | Hopeless | PastEnd | Passing

  /**
  Every answer is of one kind: a body to its end that can be staged; one that cannot, an error
  nobody retries, or a failure that is none of the network's; an offset past the end; and what
  passes: a body cut short, a connection error, and a busy proxy.
  */
  ghost predicate IsKind(r: Response, stageOk: bool, kind: Kind) {
    match kind
    case Fetched => r.Body? && r.ending == EndOfStream && stageOk
    case Hopeless =>
      || (r.Body? && r.ending == EndOfStream && !stageOk)
      || r == UnexpectedError
      || (r.HttpError? && r.code != 416 && r.code != 429 && r.code != 502 && r.code != 503)
    case PastEnd => r.HttpError? && r.code == 416
    case Passing =>
      || (r.Body? && r.ending == Interrupted)
      || r == ConnectionError
      || (r.HttpError? && (r.code == 429 || r.code == 502 || r.code == 503))
  }

  /** A turn too late ends the download. */
  lemma TooLate(part: Option<Bytes>, attempt: nat, discard: bool, t: Turn, deadline: real)
    requires t.now >= deadline
    ensures Turned(part, attempt, discard, t, deadline) == TurnEnd(part, None, Stop(DeadlineExceeded))
  {
  }

  /** What a turn in time asks for, and what each kind of answer means. */
  lemma TurnByKind(part: Option<Bytes>, attempt: nat, discard: bool, t: Turn, deadline: real)
    requires t.now < deadline
    ensures var from := if discard || part.None? then [] else part.value;
      var r, e := t.reply(|from|), Turned(part, attempt, discard, t, deadline);
      var now := if r.Body? then (if r.status == 206 then from else []) + Concat(r.chunks) else from;
      && (IsKind(r, t.stageOk, Fetched) ==> e == TurnEnd(None, Some(now), Stop(Staged)))
      && (IsKind(r, t.stageOk, Hopeless) ==> e.after == Stop(Failed) && Content(e.part) == now && e.staged == None)
      && (IsKind(r, t.stageOk, PastEnd) ==> e.after.Go? && e.after.discard && Content(e.part) == from && e.staged == None)
      && (IsKind(r, t.stageOk, Passing) ==>
            && Content(e.part) == now && e.staged == None && e.after.Go? && !e.after.discard
            && e.after.attempt == (if discard then 0 else attempt) + if t.later < deadline then 1 else 0)
  {
  }

  /** A download gives up on its own only after an answer that is hopeless. */
  lemma {:induction false} FailsOnlyIfHopeless(part: Option<Bytes>, attempt: nat, discard: bool, turns: seq<Turn>, deadline: real)
    requires Downloaded(part, attempt, discard, turns, deadline).outcome == Failed
    ensures exists k, o: nat :: 0 <= k < |turns| && turns[k].now < deadline && IsKind(turns[k].reply(o), turns[k].stageOk, Hopeless)
    decreases |turns|
  {
    var t := turns[0];
    var e := Turned(part, attempt, discard, t, deadline);
    match e.after
    case Stop(_) =>
      TurnByKind(part, attempt, discard, t, deadline);
      var o := if discard then 0 else Length(part);
      assert IsKind(turns[0].reply(o), turns[0].stageOk, Hopeless);
    case Go(n, d) =>
      FailsOnlyIfHopeless(e.part, n, d, turns[1..], deadline);
      var k, o: nat :| 0 <= k < |turns[1..]| && turns[1..][k].now < deadline
        && IsKind(turns[1..][k].reply(o), turns[1..][k].stageOk, Hopeless);
      assert IsKind(turns[k + 1].reply(o), turns[k + 1].stageOk, Hopeless);
  }

  /** An undisturbed peer, as sections 14.2, 15.3.7 and 15.5.17 of RFC 9110 have it. */
  function Undisturbed(artifact: Bytes, offset: nat): Response {
    if offset == 0 then Body(200, [artifact], EndOfStream)
    else if offset < |artifact| then Body(206, [artifact[offset..]], EndOfStream)
    else HttpError(416, None)
  }

  /** A turn in time with an undisturbed peer, and a file that can be staged. */
  ghost predicate GoesWell(t: Turn, artifact: Bytes, deadline: real) {
    t.now < deadline && t.stageOk && forall o: nat :: t.reply(o) == Undisturbed(artifact, o)
  }

  /**
  From any part file, two undisturbed turns complete the transfer. The staged file is the
  artifact if and only if the part file was a prefix of it or not shorter than it.
  */
  lemma TwoTurnsSuffice(artifact: Bytes, part: Option<Bytes>, attempt: nat, turns: seq<Turn>, deadline: real)
    requires |turns| >= 2 && GoesWell(turns[0], artifact, deadline) && GoesWell(turns[1], artifact, deadline)
    ensures var e := Downloaded(part, attempt, false, turns, deadline);
      && e.outcome == Staged && e.part == None && e.staged.Some?
      && (e.staged.value == artifact <==> Clean(part, artifact) || |artifact| <= Length(part))
  {
    UndisturbedTurn(artifact, part, attempt, turns[0], deadline);
    DownloadedStep(part, attempt, false, turns, 0, deadline);
    assert turns[0..] == turns;
    if 0 < Length(part) < |artifact| {
      SpliceIsArtifact(Content(part), artifact);
    } else if Length(part) > 0 {
      UndisturbedTurn(artifact, None, 0, turns[1], deadline);
      DownloadedStep(part, attempt, true, turns, 1, deadline);
    }
  }

  /**
  Whatever passes is overcome: after any number of turns in time whose answers are bodies of the
  artifact cut short, connection errors or a busy proxy, two undisturbed turns stage exactly
  the artifact, if the part file began as a prefix of it.
  */
  lemma {:induction false} InterruptionsAreOvercome(artifact: Bytes, part: Option<Bytes>, attempt: nat,
                                                    turns: seq<Turn>, deadline: real)
    requires |turns| >= 2 && Clean(part, artifact)
    requires forall k | 0 <= k < |turns| - 2 :: turns[k].now < deadline && Honest(artifact, turns[k].reply)
    requires forall k, o: nat | 0 <= k < |turns| - 2 :: IsKind(turns[k].reply(o), turns[k].stageOk, Passing)
    requires GoesWell(turns[|turns| - 2], artifact, deadline) && GoesWell(turns[|turns| - 1], artifact, deadline)
    ensures Downloaded(part, attempt, false, turns, deadline) == Ended(Staged, None, Some(artifact))
    decreases |turns|
  {
    if |turns| == 2 {
      TwoTurnsSuffice(artifact, part, attempt, turns, deadline);
    } else {
      var t := turns[0];
      TurnByKind(part, attempt, false, t, deadline);
      assert IsKind(t.reply(Length(part)), t.stageOk, Passing);
      var e := Turned(part, attempt, false, t, deadline);
      PassingKeepsClean(artifact, part, t.reply(Length(part)));
      InterruptionsAreOvercome(artifact, e.part, e.after.attempt, turns[1..], deadline);
    }
  }

  lemma PassingKeepsClean(artifact: Bytes, part: Option<Bytes>, r: Response)
    requires Clean(part, artifact) && (r.Body? ==> Fits(r, part, artifact))
    ensures Clean(PartAfter(part, r), artifact)
  {
    assert artifact[..Length(part)] + artifact[Length(part)..] == artifact;
  }

  /** Bytes followed by the artifact's rest are the artifact exactly when they are its beginning. */
  lemma SpliceIsArtifact(b: Bytes, artifact: Bytes)
    requires |b| <= |artifact|
    ensures b + artifact[|b|..] == artifact <==> b <= artifact
  {
    assert (b + artifact[|b|..])[..|b|] == b;
    assert artifact == artifact[..|b|] + artifact[|b|..];
  }

  lemma UndisturbedTurn(artifact: Bytes, part: Option<Bytes>, attempt: nat, t: Turn, deadline: real)
    requires GoesWell(t, artifact, deadline)
    ensures Turned(part, attempt, false, t, deadline) ==
      if Length(part) == 0 then TurnEnd(None, Some(artifact), Stop(Staged))
      else if Length(part) < |artifact| then TurnEnd(None, Some(Content(part) + artifact[Length(part)..]), Stop(Staged))
      else TurnEnd(part, None, Go(attempt, true))
  {
    var data := if Length(part) < |artifact| then artifact[Length(part)..] else artifact;
    assert Concat([data]) == Concat([data][..0]) + data == data;
  }

  /**
  A part file that already holds the whole artifact is thrown away: the request past its end
  is answered with 416, and the artifact is transferred again from the start.
  */
  lemma WholePartIsFetchedAgain(artifact: Bytes, first: Turn, turns: seq<Turn>, deadline: real)
    requires artifact != [] && first.now < deadline
    requires forall o: nat :: first.reply(o) == Undisturbed(artifact, o)
    ensures Downloaded(Some(artifact), 0, false, [first] + turns, deadline) ==
            Downloaded(Some(artifact), 0, true, turns, deadline)
  {
    assert ([first] + turns)[1..] == turns;
    assert first.reply(|artifact|) == HttpError(416, None);
  }

  /** What the checksum sidecar answers; `Text` is its first word. */
  datatype SidecarReply = Text(hex: string) | SidecarError(code: nat, retryAfter: Option<real>) | SidecarFailure

  datatype SidecarTurn = SidecarTurn(now: real, reply: SidecarReply, later: real)

  ghost predicate HonestSidecar(turns: seq<SidecarTurn>, hex: string) {
    forall t | t in turns && t.reply.Text? :: t.reply.hex == hex
  }

  /** No other content has the digest of the artifact. */
  ghost predicate CollisionFree(digest: Bytes -> string, artifact: Bytes) {
    forall b :: digest(b) == digest(artifact) ==> b == artifact
  }

  ghost predicate Retryable(reply: SidecarReply) {
    reply.SidecarError? && (reply.code == 429 || reply.code == 502 || reply.code == 503)
  }

  /** Turn `i` fetches the digest `hex` in time, after nothing but retryable errors. */
  ghost predicate FetchedAt(turns: seq<SidecarTurn>, i: nat, hex: string, deadline: real) {
    && i < |turns| && turns[i].reply == Text(hex)
    && (forall k | 0 <= k <= i :: turns[k].now < deadline)
    && (forall k | 0 <= k < i :: Retryable(turns[k].reply))
  }

  /** `_verify_sha512` with `required=True`: the tarball passes exactly against a digest fetched in time. */
  method VerifySha512(tarball: Bytes, digest: Bytes -> string, turns: seq<SidecarTurn>, deadline: real)
    returns (ok: bool)
    ensures ok <==> exists i :: FetchedAt(turns, i, digest(tarball), deadline)
  {
    for i := 0 to |turns|
      invariant forall k | 0 <= k < i :: turns[k].now < deadline && Retryable(turns[k].reply)
    {
      if turns[i].now >= deadline {
        return false;
      }
      match turns[i].reply {
        case Text(hex) =>
          assert hex == digest(tarball) ==> FetchedAt(turns, i, digest(tarball), deadline);
          return hex == digest(tarball);
        case SidecarError(code, _) =>
          if code !in RETRYABLE {
            return false;
          }
        case SidecarFailure =>
          return false;
      }
    }
    return false;
  }

  /** One `ensure_logstash_version`: sweep of stale partials, download, verification; `kill` picks a journal entry. */
  datatype Attempt = Attempt(
    sweep: bool, turns: seq<Turn>, deadline: real, sidecar: seq<SidecarTurn>, sidecarDeadline: real, kill: Option<nat>)

  ghost predicate HonestAttempt(a: Attempt, artifact: Bytes, hex: string) {
    && (forall t | t in a.turns :: Honest(artifact, t.reply))
    && HonestSidecar(a.sidecar, hex)
  }

  /** Downloads, verifies, and hands a tarball to extraction only after verification. */
  method EnsureVersion(d: Downloader, digest: Bytes -> string, a: Attempt)
    returns (extracted: Option<Bytes>, staged: bool)
    requires d.Valid() && HonestAttempt(a, d.artifact, digest(d.artifact))
    modifies d
    ensures d.Valid() && old(d.journal) <= d.journal
    ensures d.found == old(d.part) || d.found == None
    ensures |old(d.journal)| <= d.begun + 1
    ensures staged ==> d.part == None && d.dest.Some?
    ensures extracted.Some? <==> staged && exists i :: FetchedAt(a.sidecar, i, digest(d.dest.value), a.sidecarDeadline)
    ensures extracted.Some? ==> extracted == d.dest && digest(extracted.value) == digest(d.artifact)
    ensures extracted.Some? && CollisionFree(digest, d.artifact) ==> extracted.value == d.artifact
  {
    d.dest := None;
    if a.sweep {
      d.begun, d.found := |d.journal| - 1, d.part;
      d.SetPart(None);
    }
    var outcome := d.DownloadFile(a.turns, a.deadline);
    if outcome != Staged {
      return None, false;
    }
    var ok := VerifySha512(d.dest.value, digest, a.sidecar, a.sidecarDeadline);
    if !ok {
      return None, true;
    }
    return d.dest, true;
  }

  lemma ResumedTransitive(p: Option<Bytes>, q: Option<Bytes>, r: Option<Bytes>, artifact: Bytes)
    requires Resumed(q, p, artifact) && Resumed(r, q, artifact)
    ensures Resumed(r, p, artifact)
  {
    if Clean(q, artifact) {
      ResumedFromClean(r, q, artifact);
    } else if q != p && r != q && !Clean(r, artifact) {
      assert r.value[|p.value|..][..|q.value| - |p.value|] == q.value[|p.value|..];
      assert r.value[|p.value|..] == q.value[|p.value|..] + r.value[|q.value|..];
      assert artifact[|p.value|..] == artifact[|p.value|..|q.value|] + artifact[|q.value|..];
    }
  }

  /**
  Any run of attempts from any initial part file, each possibly killed at any point: only the
  exact artifact is ever extracted, and bad bytes survive at most one completed transfer.
  */
  method RunAttempts(d: Downloader, digest: Bytes -> string, attempts: seq<Attempt>)
    returns (extracted: seq<Bytes>, transfers: nat)
    requires d.Valid() && CollisionFree(digest, d.artifact)
    requires forall a | a in attempts :: HonestAttempt(a, d.artifact, digest(d.artifact))
    modifies d
    ensures d.Valid() && old(d.journal) <= d.journal
    ensures forall b | b in extracted :: b == d.artifact
    ensures Resumed(d.part, old(d.part), d.artifact)
    ensures old(Clean(d.part, d.artifact)) || transfers > 0 ==> Clean(d.part, d.artifact)
  {
    extracted, transfers := [], 0;
    for i := 0 to |attempts|
      invariant d.Valid() && old(d.journal) <= d.journal
      invariant forall b | b in extracted :: b == d.artifact
      invariant Resumed(d.part, old(d.part), d.artifact)
      invariant old(Clean(d.part, d.artifact)) || transfers > 0 ==> Clean(d.part, d.artifact)
    {
      assert attempts[i] in attempts;
      ghost var before := d.part;
      var result, staged := EnsureVersion(d, digest, attempts[i]);
      if result.Some? {
        extracted := extracted + [result.value];
      }
      var kill := attempts[i].kill;
      if kill.Some? && d.begun <= kill.value < |d.journal| {
        d.SetPart(d.journal[kill.value]);
      } else if staged {
        transfers := transfers + 1;
      }
      assert Resumed(d.part, d.found, d.artifact);
      assert Resumed(d.found, before, d.artifact);
      ResumedTransitive(before, d.found, d.part, d.artifact);
      ResumedTransitive(old(d.part), before, d.part, d.artifact);
      if Clean(before, d.artifact) {
        ResumedFromClean(d.part, before, d.artifact);
      }
    }
  }

  ghost predicate NapsWithin(naps: seq<Nap>, deadline: real) {
    forall n | n in naps :: 0.0 <= n.duration <= 2.0 * BACKOFF_CEILING && n.start + n.duration <= deadline
  }

  /** A complete body on top of a clean part file is the artifact. */
  lemma CompleteBody(part: Option<Bytes>, artifact: Bytes, body: Response)
    requires body.Body? && Clean(part, artifact)
    ensures
      (if body.status == 206 then Length(part) <= |artifact| && Concat(body.chunks) == artifact[Length(part)..]
       else Concat(body.chunks) == artifact) ==>
      (if body.status == 206 then Content(part) else []) + Concat(body.chunks) == artifact
  {
  }
}
