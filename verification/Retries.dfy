/**
 The retry loop every catalog request goes through. The network, the clock and the random
 jitter are a `World`: what each attempt meets. Times are nanoseconds.
 */
module Retries {
  import opened Common
  import opened Backoff

  datatype Policy = Policy(attempts: nat, readTimeout: nat, retryWindow: nat, backoffBase: nat)

  datatype Request = Request(content: string, clonable: bool)
  {
    /** `try_clone` */
    function TryClone(): (r: Option<Request>)
    {
      if clonable then Some(this) else None
    }
  }

  datatype IoKind = ConnectionRefused | ConnectionReset | ConnectionAborted | BrokenPipe | UnexpectedEof | OtherKind

  datatype Cause = TlsFailure | Io(kind: IoKind) | IncompleteMessage | OtherCause

  datatype TransportError = TransportError(timedOut: bool, causes: seq<Cause>)

  datatype Outcome =
    | Answer(status: nat, statedWait: Option<nat>, body: seq<int>, cut: bool)
    | Failed(error: TransportError, brokenOff: Option<nat>)

  /** What the peer sends: nothing, or a status, headers and body chunks that may break off. */
  datatype Reply =
    | NoReply(error: TransportError)
    | Reply(status: nat, statedWait: Option<nat>, chunks: seq<seq<int>>, breaks: Option<TransportError>)

  /** What one attempt meets: the reply, how long it takes, the jitter drawn, and how late the sleep ends. */
  datatype Turn = Turn(reply: Reply, took: nat, jitter: Jitter, overslept: nat)

  type Jitter = j: nat | j <= U32_MAX

  type World = nat -> Turn

  // ----- reading one answer

  function Flat(chunks: seq<seq<int>>): (r: seq<int>)
  {
    if chunks == [] then [] else chunks[0] + Flat(chunks[1..])
  }

  lemma {:induction false} FlatConcat(a: seq<seq<int>>, b: seq<seq<int>>)
    ensures Flat(a + b) == Flat(a) + Flat(b)
  {
    if a == [] {
      assert a + b == b;
    } else {
      assert (a + b)[1..] == a[1..] + b;
      FlatConcat(a[1..], b);
    }
  }

  /**
   `read_body`: the first `max` bytes of what arrives, cut exactly if more than `max` arrive; an
   answer that breaks off is an error unless the cap was passed before.
   */
  method ReadBody(chunks: seq<seq<int>>, breaks: Option<TransportError>, max: nat)
    returns (result: Option<(seq<int>, bool)>)
    ensures |Flat(chunks)| > max ==> result == Some((Flat(chunks)[..max], true))
    ensures |Flat(chunks)| <= max ==> result == if breaks.Some? then None else Some((Flat(chunks), false))
  {
    var body: seq<int> := [];
    for k := 0 to |chunks|
      invariant body == Flat(chunks[..k]) && |body| <= max
    {
      var chunk := chunks[k];
      var room := max - |body|;
      assert chunks == chunks[..k] + ([chunk] + chunks[k + 1..]);
      FlatConcat(chunks[..k], [chunk] + chunks[k + 1..]);
      assert ([chunk] + chunks[k + 1..])[1..] == chunks[k + 1..];
      if |chunk| > room {
        assert Flat(chunks)[..max] == body + chunk[..room];
        return Some((body + chunk[..room], true));
      }
      FlatConcat(chunks[..k], [chunk]);
      assert [chunk][1..] == [];
      assert chunks[..k] + [chunk] == chunks[..k + 1];
      body := body + chunk;
    }
    assert chunks[..|chunks|] == chunks;
    if breaks.Some? {
      return None;
    }
    return Some((body, false));
  }

  /** The outcome of one exchange. */
  function Exchange(reply: Reply, max: nat): (r: Outcome)
  {
    match reply
    case NoReply(error) => Failed(error, None)
    case Reply(status, wait, chunks, breaks) =>
      if |Flat(chunks)| > max then Answer(status, wait, Flat(chunks)[..max], true)
      else if breaks.Some? then Failed(breaks.value, Some(status))
      else Answer(status, wait, Flat(chunks), false)
  }

  /** `exchange` */
  method DoExchange(reply: Reply, max: nat) returns (outcome: Outcome)
    ensures outcome == Exchange(reply, max)
  {
    match reply
    case NoReply(error) => outcome := Failed(error, None);
    case Reply(status, wait, chunks, breaks) =>
      var read := ReadBody(chunks, breaks, max);
      match read {
        case Some(body) => outcome := Answer(status, wait, body.0, body.1);
        case None => outcome := Failed(breaks.value, Some(status));
      }
  }

  // ----- which failures are transient

  predicate CutsConnection(cause: Cause)
  {
    cause == IncompleteMessage || (cause.Io? && cause.kind != OtherKind)
  }

  /** A connection was cut, and no TLS error is anywhere in the chain. */
  predicate TransientCauses(causes: seq<Cause>)
  {
    TlsFailure !in causes && exists k :: 0 <= k < |causes| && CutsConnection(causes[k])
  }

  /** `is_transient_cause_chain` */
  method IsTransientCauseChain(causes: seq<Cause>) returns (transient: bool)
    ensures transient <==> TransientCauses(causes)
  {
    transient := false;
    for k := 0 to |causes|
      invariant TlsFailure !in causes[..k]
      invariant transient <==> exists j :: 0 <= j < k && CutsConnection(causes[j])
    {
      if causes[k] == TlsFailure {
        return false;
      }
      transient := transient || CutsConnection(causes[k]);
    }
  }

  predicate Transient(outcome: Outcome)
  {
    match outcome
    case Answer(status, _, _, _) => status in {408, 429, 502, 503, 504}
    case Failed(error, brokenOff) => brokenOff.None? && (error.timedOut || TransientCauses(error.causes))
  }

  // ----- the same read off the peer's reply

  /** What an attempt reports of a reply: a reply's own status and wait with its first bytes, or how it failed. */
  ghost predicate Reports(outcome: Outcome, reply: Reply, max: nat)
  {
    match reply
    case NoReply(error) => outcome.Failed? && outcome.error == error && outcome.brokenOff.None?
    case Reply(status, wait, chunks, breaks) =>
      if breaks.Some? && |Flat(chunks)| <= max then
        outcome.Failed? && outcome.error == breaks.value && outcome.brokenOff == Some(status)
      else
        && outcome.Answer? && outcome.status == status && outcome.statedWait == wait
        && (outcome.cut <==> |Flat(chunks)| > max)
        && outcome.body <= Flat(chunks) && |outcome.body| == if outcome.cut then max else |Flat(chunks)|
  }

  /**
   Another attempt may succeed: none of this one's answer came, by a timeout or a cut connection and
   no TLS error, or an answer with one of five statuses came and did not break off within the cap.
   */
  predicate Repeatable(reply: Reply, max: nat)
  {
    match reply
    case NoReply(error) =>
      error.timedOut || (TlsFailure !in error.causes && exists c | c in error.causes :: c in CUTS)
    case Reply(status, _, chunks, breaks) =>
      (|Flat(chunks)| > max || breaks.None?) && (status == 408 || status == 429 || 502 <= status <= 504)
  }

  const CUTS: set<Cause> :=
    {IncompleteMessage, Io(ConnectionRefused), Io(ConnectionReset), Io(ConnectionAborted), Io(BrokenPipe),
     Io(UnexpectedEof)}

  /** The wait the reply states, or else the backoff */
  function WaitAfter(policy: Policy, retry: nat, reply: Reply, jitter: Jitter): (r: nat)
  {
    if reply.Reply? && reply.statedWait.Some? then reply.statedWait.value
    else BackoffWait(policy.backoffBase, retry, jitter)
  }

  /** An exchange reports the reply, and its outcome is transient exactly if another attempt may succeed. */
  lemma ExchangeExactly(reply: Reply, max: nat)
    ensures Reports(Exchange(reply, max), reply, max)
    ensures Transient(Exchange(reply, max)) <==> Repeatable(reply, max)
  {
    if reply.NoReply? {
      CausesExactly(reply.error.causes);
    }
  }

  lemma CausesExactly(causes: seq<Cause>)
    ensures TransientCauses(causes) <==> TlsFailure !in causes && exists c | c in causes :: c in CUTS
  {
    forall k | 0 <= k < |causes| ensures CutsConnection(causes[k]) <==> causes[k] in CUTS {
    }
    if exists c | c in causes :: c in CUTS {
      var c :| c in causes && c in CUTS;
      var k :| 0 <= k < |causes| && causes[k] == c;
      assert CutsConnection(causes[k]);
    }
  }

  // ----- the wait before a retry

  /** `chosen_wait` */
  function ChosenWait(requested: Option<nat>, backoff: nat, timeLeft: nat, attemptRoom: nat): (r: Option<nat>)
  {
    var wait := if requested.Some? then requested.value else backoff;
    if wait <= timeLeft && timeLeft - wait >= attemptRoom then Some(wait) else None
  }

  /** `wait_before_retry`, with the clock at `now` */
  function WaitBeforeRetry(policy: Policy, retry: nat, outcome: Outcome, windowEnd: nat, now: nat, jitter: Jitter):
    (r: Option<nat>)
  {
    if !Transient(outcome) then None
    else
      ChosenWait(
        if outcome.Answer? then outcome.statedWait else None,
        BackoffWait(policy.backoffBase, retry, jitter),
        if now <= windowEnd then windowEnd - now else 0,
        policy.readTimeout)
  }

  // ----- the loop

  datatype Attempt = Attempt(request: Request, startedAt: nat, endedAt: nat, outcome: Outcome)

  /** One call: its policy, its request, its byte cap, the end of its window, and the world it meets. */
  datatype Call = Call(policy: Policy, request: Request, max: nat, windowEnd: nat, world: World)
  {
    /** The attempt after `made` others, started at `now` */
    function Next(made: nat, now: nat): (a: Attempt)
    {
      Attempt(request, now, now + world(made).took, Exchange(world(made).reply, max))
    }

    /** How long the loop then waits for the attempt after it, or `None` if it ends */
    function Wait(made: nat, a: Attempt): (r: Option<nat>)
    {
      if made + 1 < policy.attempts && request.clonable
      then WaitBeforeRetry(policy, made + 1, a.outcome, windowEnd, a.endedAt, world(made).jitter)
      else None
    }

    /** The attempts made after `made` others, the next one starting at `now` */
    function Run(made: nat, now: nat): (log: seq<Attempt>)
      ensures log != []
      decreases policy.attempts - made
    {
      var a := Next(made, now);
      var wait := Wait(made, a);
      [a] + if wait.Some? then Run(made + 1, a.endedAt + wait.value + world(made).overslept) else []
    }
  }

  lemma RunUnfolds(call: Call, made: nat, now: nat)
    ensures var a := call.Next(made, now);
      var wait := call.Wait(made, a);
      call.Run(made, now)
      == if wait.Some? then [a] + call.Run(made + 1, a.endedAt + wait.value + call.world(made).overslept) else [a]
  {
  }

  /** `send_capped` */
  method SendCapped(policy: Policy, original: Request, max: nat, world: World, start: nat)
    returns (outcome: Outcome, log: seq<Attempt>)
    ensures log == Call(policy, original, max, start + policy.retryWindow, world).Run(0, start)
    ensures outcome == log[|log| - 1].outcome
  {
    hide WaitBeforeRetry, Exchange, Call.Run;
    var windowEnd := start + policy.retryWindow;
    ghost var call := Call(policy, original, max, windowEnd, world);
    var request := original;
    var now: nat, made: nat := start, 0;
    log := [];
    while true
      invariant made <= policy.attempts && request == original
      invariant log + call.Run(made, now) == call.Run(0, start)
      decreases policy.attempts - made
    {
      var turn := world(made);
      RunUnfolds(call, made, now);
      ghost var before := log;
      made := made + 1;
      var resend := if made < policy.attempts then request.TryClone() else None;
      outcome := DoExchange(turn.reply, max);
      log := log + [Attempt(request, now, now + turn.took, outcome)];
      now := now + turn.took;
      if resend.None? {
        return;
      }
      var wait := WaitBeforeRetry(policy, made, outcome, windowEnd, now, turn.jitter);
      if wait.None? {
        return;
      }
      now := now + wait.value + turn.overslept;
      request := resend.value;
      assert before + ([log[|before|]] + call.Run(made, now)) == log + call.Run(made, now);
    }
  }

  // ----- what every run keeps

  /** Attempt `k` of a run that starts after `made` others sent the request and met the world's turn. */
  ghost predicate Faithful(call: Call, made: nat, log: seq<Attempt>, k: nat)
    requires k < |log|
  {
    var turn := call.world(made + k);
    && log[k].request == call.request
    && log[k].outcome == Exchange(turn.reply, call.max)
    && log[k].endedAt == log[k].startedAt + turn.took
  }

  /** The wait the answer states, or else the backoff */
  function DueWait(policy: Policy, retry: nat, outcome: Outcome, jitter: Jitter): (r: nat)
  {
    if outcome.Answer? && outcome.statedWait.Some? then outcome.statedWait.value
    else BackoffWait(policy.backoffBase, retry, jitter)
  }

  function TimeLeft(windowEnd: nat, now: nat): (r: nat) { if now <= windowEnd then windowEnd - now else 0 }

  /**
   What lets attempt `k + 1` follow attempt `k`: a transient outcome, and a wait, the stated one or
   else the backoff, that leaves one read timeout of the window.
   */
  ghost predicate Justified(call: Call, made: nat, log: seq<Attempt>, k: nat)
    requires k + 1 < |log|
  {
    var turn, before := call.world(made + k), log[k];
    var wait := log[k + 1].startedAt - before.endedAt - turn.overslept;
    && Transient(before.outcome)
    && wait == DueWait(call.policy, made + k + 1, before.outcome, turn.jitter)
    && wait + call.policy.readTimeout <= TimeLeft(call.windowEnd, before.endedAt)
  }

  lemma WaitJustifies(call: Call, made: nat, a: Attempt)
    ensures var wait := call.Wait(made, a);
      wait.Some? ==>
        && made + 1 < call.policy.attempts && call.request.clonable
        && Transient(a.outcome)
        && wait.value == DueWait(call.policy, made + 1, a.outcome, call.world(made).jitter)
        && wait.value + call.policy.readTimeout <= TimeLeft(call.windowEnd, a.endedAt)
  {
    hide Transient, BackoffWait;
  }

  ghost predicate Lawful(call: Call, made: nat, log: seq<Attempt>)
  {
    && (forall k: nat :: k < |log| ==> Faithful(call, made, log, k))
    && (forall k: nat :: k + 1 < |log| ==> Justified(call, made, log, k))
  }

  lemma Prepend(call: Call, made: nat, now: nat, wait: nat, rest: seq<Attempt>)
    requires call.Wait(made, call.Next(made, now)) == Some(wait)
    requires Lawful(call, made + 1, rest) && rest != []
    requires rest[0].startedAt == now + call.world(made).took + wait + call.world(made).overslept
    ensures Lawful(call, made, [call.Next(made, now)] + rest)
  {
    hide Exchange, Transient, BackoffWait, WaitBeforeRetry;
    var log := [call.Next(made, now)] + rest;
    WaitJustifies(call, made, call.Next(made, now));
    forall k: nat | k < |log| ensures Faithful(call, made, log, k) {
      assert k > 0 ==> Faithful(call, made + 1, rest, k - 1);
    }
    forall k: nat | k + 1 < |log| ensures Justified(call, made, log, k) {
      assert k > 0 ==> Justified(call, made + 1, rest, k - 1);
    }
  }

  lemma {:induction false} RunLawful(call: Call, made: nat, now: nat)
    ensures call.Run(made, now)[0].startedAt == now && Lawful(call, made, call.Run(made, now))
    decreases call.policy.attempts - made
  {
    hide Lawful, WaitBeforeRetry, Exchange;
    var a := call.Next(made, now);
    var wait := call.Wait(made, a);
    if wait.Some? {
      var next := a.endedAt + wait.value + call.world(made).overslept;
      RunLawful(call, made + 1, next);
      Prepend(call, made, now, wait.value, call.Run(made + 1, next));
    } else {
      assert call.Run(made, now) == [a];
      Alone(call, made, now);
    }
  }

  lemma Alone(call: Call, made: nat, now: nat)
    ensures Lawful(call, made, [call.Next(made, now)])
  {
  }

  /** The loop stops only when it must: out of attempts, no clone, or no wait that is due and fits. */
  lemma {:induction false} RunStops(call: Call, made: nat, now: nat)
    ensures var log := call.Run(made, now);
      && call.Wait(made + |log| - 1, log[|log| - 1]) == None
      && (made < call.policy.attempts ==> |log| <= call.policy.attempts - made)
      && (made + 1 >= call.policy.attempts || !call.request.clonable ==> |log| == 1)
    decreases call.policy.attempts - made
  {
    hide WaitBeforeRetry, Exchange;
    var a := call.Next(made, now);
    var wait := call.Wait(made, a);
    if wait.Some? {
      var next := a.endedAt + wait.value + call.world(made).overslept;
      RunStops(call, made + 1, next);
      var rest := call.Run(made + 1, next);
      assert call.Run(made, now) == [a] + rest;
    }
  }

  // ----- the laws of `send_capped`

  function Attempts(policy: Policy, request: Request, max: nat, world: World, start: nat): (log: seq<Attempt>)
    ensures log != []
  {
    Call(policy, request, max, start + policy.retryWindow, world).Run(0, start)
  }

  /**
   At most max(1, attempts) requests go out, each equal to the original, and one alone if it cannot
   be cloned. Each attempt reports the reply it met, and one that is followed by another met a reply
   after which another may succeed. With attempts left, such a reply to the last attempt means that
   the wait it asks for and a read timeout no longer fit.
   */
  lemma EveryRun(policy: Policy, request: Request, max: nat, world: World, start: nat)
    ensures var log := Attempts(policy, request, max, world, start);
      && |log| <= (if policy.attempts > 1 then policy.attempts else 1)
      && (!request.clonable ==> |log| == 1)
      && (forall k :: 0 <= k < |log| ==> log[k].request == request && Reports(log[k].outcome, world(k).reply, max))
      && (forall k :: 0 <= k < |log| - 1 ==> Repeatable(world(k).reply, max))
      && (var last := |log| - 1;
          |log| < policy.attempts && request.clonable && Repeatable(world(last).reply, max) ==>
            WaitAfter(policy, |log|, world(last).reply, world(last).jitter) + policy.readTimeout
            > TimeLeft(start + policy.retryWindow, log[last].endedAt))
  {
    hide WaitBeforeRetry, Exchange, Transient, BackoffWait, Call.Run, Reports, Repeatable;
    var call := Call(policy, request, max, start + policy.retryWindow, world);
    RunLawful(call, 0, start);
    RunStops(call, 0, start);
    var log := call.Run(0, start);
    LawfulOutcomes(call, log);
    forall k | 0 <= k < |log|
      ensures log[k].request == request && Reports(log[k].outcome, world(k).reply, max)
      ensures k < |log| - 1 ==> Repeatable(world(k).reply, max)
    {
      ExchangeExactly(world(k).reply, max);
    }
    var last := |log| - 1;
    ExchangeExactly(world(last).reply, max);
    if Repeatable(world(last).reply, max) {
      WaitIsDue(policy, |log|, world(last).reply, max, world(last).jitter);
    }
    NoRoom(policy, |log|, log[last].outcome, call.windowEnd, log[last].endedAt, world(last).jitter);
  }

  lemma WaitIsDue(policy: Policy, retry: nat, reply: Reply, max: nat, jitter: Jitter)
    requires Repeatable(reply, max)
    ensures DueWait(policy, retry, Exchange(reply, max), jitter) == WaitAfter(policy, retry, reply, jitter)
  {
    hide BackoffWait;
  }

  lemma LawfulOutcomes(call: Call, log: seq<Attempt>)
    requires Lawful(call, 0, log)
    ensures forall k :: 0 <= k < |log| ==>
      log[k].request == call.request && log[k].outcome == Exchange(call.world(k).reply, call.max)
    ensures forall k :: 0 <= k < |log| - 1 ==>
      Transient(log[k].outcome) && !(log[k].outcome.Failed? && log[k].outcome.brokenOff.Some?)
  {
    hide Exchange, TransientCauses, BackoffWait;
    forall k | 0 <= k < |log|
      ensures log[k].request == call.request && log[k].outcome == Exchange(call.world(k).reply, call.max)
    {
      assert Faithful(call, 0, log, k);
    }
    forall k | 0 <= k < |log| - 1
      ensures Transient(log[k].outcome) && !(log[k].outcome.Failed? && log[k].outcome.brokenOff.Some?)
    {
      assert Justified(call, 0, log, k);
    }
  }

  /** A transient outcome goes without a retry only if its wait and a read timeout do not fit. */
  lemma NoRoom(policy: Policy, retry: nat, outcome: Outcome, windowEnd: nat, now: nat, jitter: Jitter)
    ensures Transient(outcome) ==>
      (WaitBeforeRetry(policy, retry, outcome, windowEnd, now, jitter).None?
       <==> DueWait(policy, retry, outcome, jitter) + policy.readTimeout > TimeLeft(windowEnd, now))
  {
    hide BackoffWait, Transient;
  }

  /** Every retry starts, late waking aside, at least one read timeout before the window's end. */
  ghost predicate InTime(policy: Policy, request: Request, max: nat, world: World, start: nat)
  {
    var log := Attempts(policy, request, max, world, start);
    forall k :: 1 <= k < |log| ==>
      log[k].startedAt - world(k - 1).overslept + policy.readTimeout <= start + policy.retryWindow
  }

  lemma InTimeWithReadTimeout(policy: Policy, request: Request, max: nat, world: World, start: nat)
    requires policy.readTimeout > 0 || policy.attempts < 2 || !request.clonable
    ensures InTime(policy, request, max, world, start)
  {
    hide WaitBeforeRetry, Exchange, Transient, BackoffWait;
    var call := Call(policy, request, max, start + policy.retryWindow, world);
    RunLawful(call, 0, start);
    RunStops(call, 0, start);
    var log := call.Run(0, start);
    forall k | 1 <= k < |log|
      ensures log[k].startedAt - world(k - 1).overslept + policy.readTimeout <= start + policy.retryWindow
    {
      assert Justified(call, 0, log, k - 1);
    }
  }

  /** An answer that comes after the window and asks for no wait */
  function TooLate(policy: Policy): (w: World)
  {
    k => Turn(Reply(503, Some(0), [], None), policy.retryWindow + 1, 0, 0)
  }

  lemma LateRetry(policy: Policy, request: Request, max: nat, start: nat)
    requires policy.readTimeout == 0 && policy.attempts >= 2 && request.clonable
    ensures !InTime(policy, request, max, TooLate(policy), start)
  {
    hide BackoffWait;
    var world := TooLate(policy);
    var call := Call(policy, request, max, start + policy.retryWindow, world);
    var a := call.Next(0, start);
    assert a.outcome == Answer(503, Some(0), [], false);
    assert call.Wait(0, a) == Some(0);
    RunLawful(call, 1, a.endedAt);
    assert call.Run(0, start) == [a] + call.Run(1, a.endedAt);
    var log := Attempts(policy, request, max, world, start);
    assert log[1].startedAt - world(0).overslept == start + policy.retryWindow + 1;
  }

  /** Five attempts, a read timeout of ten seconds, a window of thirty and a base of a quarter second */
  const CATALOG_POLICY := Policy(5, 10_000_000_000, 30_000_000_000, 250_000_000)

  /** The window's promise holds in every run exactly for a policy with a read timeout, or where nothing is retried. */
  lemma WindowKeptExactly(policy: Policy, request: Request, max: nat, start: nat)
    ensures (forall world :: InTime(policy, request, max, world, start))
       <==> policy.readTimeout > 0 || policy.attempts < 2 || !request.clonable
  {
    hide InTime, TooLate;
    if policy.readTimeout > 0 || policy.attempts < 2 || !request.clonable {
      forall world ensures InTime(policy, request, max, world, start) {
        InTimeWithReadTimeout(policy, request, max, world, start);
      }
    } else {
      LateRetry(policy, request, max, start);
    }
  }

  /** Under the engine's own policy at most five requests go out, and no retry starts later than 20 seconds in. */
  lemma CatalogRuns(request: Request, max: nat, world: World, start: nat)
    ensures var log := Attempts(CATALOG_POLICY, request, max, world, start);
      && |log| <= 5
      && forall k :: 1 <= k < |log| ==> log[k].startedAt - world(k - 1).overslept <= start + 20_000_000_000
  {
    hide Attempts;
    EveryRun(CATALOG_POLICY, request, max, world, start);
    InTimeWithReadTimeout(CATALOG_POLICY, request, max, world, start);
  }
}
