/**
 The OAuth token source of a Unity Catalog session: one cache behind a lock that is released
 while a token is minted, and any number of callers. Times are nanoseconds.
 */
module TokenCache {
  import opened Common

  const SECOND: nat := 1_000_000_000
  const REFRESH_SKEW_SECS: nat := 60

  datatype Cached = Cached(token: string, refreshAt: nat)

  /** What the token endpoint answered: a token and, maybe, its lifetime in seconds */
  datatype TokenReply = TokenReply(accessToken: string, expiresIn: Option<nat>)

  /** `mint`, after its request: no reply, no token and no positive lifetime are errors. */
  function Mint(reply: Option<TokenReply>): (r: Result<(string, nat)>)
    ensures r.Ok? <==> reply.Some? && reply.value.accessToken != "" && reply.value.expiresIn.Some?
                       && reply.value.expiresIn.value > 0
    ensures r.Ok? ==> r.value == (reply.value.accessToken, reply.value.expiresIn.value)
  {
    match reply
    case None => Err
    case Some(TokenReply(token, lifetime)) =>
      if token == "" then Err
      else if lifetime.Some? && lifetime.value > 0 then Ok((token, lifetime.value))
      else Err
  }

  function RefreshAt(readAt: nat, expiresIn: nat): (r: nat)
  {
    readAt + (if expiresIn <= REFRESH_SKEW_SECS then 0 else expiresIn - REFRESH_SKEW_SECS) * SECOND
  }

  /** The lock scope that looks the token up */
  function Lookup(cache: Option<Cached>, now: nat): (r: Option<string>)
  {
    if cache.Some? && now < cache.value.refreshAt then Some(cache.value.token) else None
  }

  // ----- one caller

  /** `OAuthTokenSource`, called by one caller at a time */
  class OAuthTokenSource {
    var cache: Option<Cached>

    constructor ()
      ensures cache == None
    {
      cache := None;
    }

    /** `bearer`: the clock reads `now` at the lookup and `later` after the mint. */
    method Bearer(now: nat, reply: Option<TokenReply>, later: nat) returns (token: Result<string>)
      modifies this
      ensures old(cache).Some? && now < old(cache).value.refreshAt ==>
                cache == old(cache) && token == Ok(old(cache).value.token)
      ensures (old(cache).None? || old(cache).value.refreshAt <= now) && Mint(reply).Err? ==>
                cache == old(cache) && token == Err
      ensures (old(cache).None? || old(cache).value.refreshAt <= now) && Mint(reply).Ok? ==>
                && token == Ok(reply.value.accessToken)
                && cache.Some? && cache.value.token == reply.value.accessToken
                && cache.value.refreshAt >= later
                && (reply.value.expiresIn.value <= 60 ==> cache.value.refreshAt == later)
                && (reply.value.expiresIn.value > 60 ==>
                      cache.value.refreshAt + 60_000_000_000 == later + reply.value.expiresIn.value * 1_000_000_000)
    {
      if cache.Some? && now < cache.value.refreshAt {
        return Ok(cache.value.token);
      }
      var minted := Mint(reply);
      if minted.Err? {
        return Err;
      }
      var refreshAt := RefreshAt(later, minted.value.1);
      cache := Some(Cached(minted.value.0, refreshAt));
      return Ok(minted.value.0);
    }
  }

  // ----- any number of callers

  /** Where a caller stands; `looked` numbers the event of its missed lookup. */
  datatype Phase =
    | Idle
    | Minting(looked: nat)
    | Minted(looked: nat, token: string, expiresIn: nat)
    | Dated(looked: nat, token: string, expiresIn: nat, readAt: nat)

  /** What callers did, in order; `Hit` and `Stored` return their token. */
  datatype Event =
    | Hit(caller: nat, at: nat, token: string)
    | Missed(caller: nat, at: nat)
    | Stored(caller: nat, token: string, expiresIn: nat, readAt: nat, looked: nat)
    | Refused(caller: nat)

  datatype State = State(now: nat, cache: Option<Cached>, phases: map<nat, Phase>, log: seq<Event>)
  {
    function PhaseOf(c: nat): (p: Phase)
    {
      if c in phases then phases[c] else Idle
    }
  }

  function Start(now: nat): (s: State) { State(now, None, map[], []) }

  /** One atomic step: time passes, a caller looks up, gets its reply, reads the clock, or stores. */
  ghost predicate Step(s: State, t: State)
  {
    || (s.now <= t.now && t == s.(now := t.now))
    || (exists c: nat :: LookupStep(s, t, c))
    || (exists c: nat, reply: Option<TokenReply> :: ReplyStep(s, t, c, reply))
    || (exists c: nat :: ClockStep(s, t, c))
    || (exists c: nat :: StoreStep(s, t, c))
  }

  predicate LookupStep(s: State, t: State, c: nat)
  {
    && s.PhaseOf(c).Idle?
    && match Lookup(s.cache, s.now)
       case Some(token) => t == s.(log := s.log + [Hit(c, s.now, token)])
       case None => t == s.(phases := s.phases[c := Minting(|s.log|)], log := s.log + [Missed(c, s.now)])
  }

  predicate ReplyStep(s: State, t: State, c: nat, reply: Option<TokenReply>)
  {
    && s.PhaseOf(c).Minting?
    && match Mint(reply)
       case Ok(minted) => t == s.(phases := s.phases[c := Minted(s.PhaseOf(c).looked, minted.0, minted.1)])
       case Err => t == s.(phases := s.phases[c := Idle], log := s.log + [Refused(c)])
  }

  predicate ClockStep(s: State, t: State, c: nat)
  {
    && s.PhaseOf(c).Minted?
    && var p := s.PhaseOf(c);
       t == s.(phases := s.phases[c := Dated(p.looked, p.token, p.expiresIn, s.now)])
  }

  predicate StoreStep(s: State, t: State, c: nat)
  {
    && s.PhaseOf(c).Dated?
    && var p := s.PhaseOf(c);
       t == s.(
         cache := Some(Cached(p.token, RefreshAt(p.readAt, p.expiresIn))),
         phases := s.phases[c := Idle],
         log := s.log + [Stored(c, p.token, p.expiresIn, p.readAt, p.looked)])
  }

  /** A finite run: each state follows from the one before. */
  ghost predicate Run(states: seq<State>)
  {
    && states != [] && (exists now: nat :: states[0] == Start(now))
    && forall k :: 0 <= k < |states| - 1 ==> Step(states[k], states[k + 1])
  }

  // ----- what a log must look like

  /** The last store before event `i` */
  function LastStored(log: seq<Event>, i: nat): (r: Option<nat>)
    requires i <= |log|
    ensures r.Some? ==> r.value < i && log[r.value].Stored? && forall k :: r.value < k < i ==> !log[k].Stored?
    ensures r.None? ==> forall k :: 0 <= k < i ==> !log[k].Stored?
  {
    if i == 0 then None else if log[i - 1].Stored? then Some(i - 1) else LastStored(log, i - 1)
  }

  function Refresh(e: Event): (r: nat)
    requires e.Stored?
  {
    RefreshAt(e.readAt, e.expiresIn)
  }

  predicate IsLookup(e: Event) { e.Hit? || e.Missed? }

  predicate LegalEvent(log: seq<Event>, i: nat)
    requires i < |log|
  {
    match log[i]
    case Hit(_, at, token) =>
      var last := LastStored(log, i);
      last.Some? && log[last.value].token == token && at < Refresh(log[last.value])
    case Missed(_, at) =>
      var last := LastStored(log, i);
      last.Some? ==> Refresh(log[last.value]) <= at
    case Stored(c, token, expiresIn, readAt, looked) =>
      && token != "" && expiresIn > 0
      && looked < i && log[looked].Missed? && log[looked].caller == c && log[looked].at <= readAt
    case Refused(_) => true
  }

  /** The clock never runs back: a lookup reads no earlier time than what came before it. */
  predicate InOrder(log: seq<Event>, i: nat, j: nat)
    requires i < j < |log|
  {
    IsLookup(log[j]) ==>
      && (IsLookup(log[i]) ==> log[i].at <= log[j].at)
      && (log[i].Stored? ==> log[i].readAt <= log[j].at)
  }

  ghost predicate Legal(log: seq<Event>)
  {
    && (forall i: nat :: i < |log| ==> LegalEvent(log, i))
    && (forall i: nat, j: nat :: i < j < |log| ==> InOrder(log, i, j))
  }

  predicate PhaseFits(s: State, c: nat, p: Phase)
  {
    p.Idle? || (
      && p.looked < |s.log| && s.log[p.looked].Missed? && s.log[p.looked].caller == c
      && (!p.Minting? ==> p.token != "" && p.expiresIn > 0)
      && (p.Dated? ==> s.log[p.looked].at <= p.readAt <= s.now))
  }

  predicate Past(e: Event, now: nat)
  {
    (IsLookup(e) ==> e.at <= now) && (e.Stored? ==> e.readAt <= now)
  }

  function CacheOf(log: seq<Event>): (r: Option<Cached>)
  {
    var last := LastStored(log, |log|);
    if last.None? then None else Some(Cached(log[last.value].token, Refresh(log[last.value])))
  }

  ghost predicate Inv(s: State)
  {
    && Legal(s.log)
    && (forall i :: 0 <= i < |s.log| ==> Past(s.log[i], s.now))
    && (forall c: nat :: PhaseFits(s, c, s.PhaseOf(c)))
    && s.cache == CacheOf(s.log)
  }

  lemma {:induction false} LastStoredExtends(log: seq<Event>, e: Event, i: nat)
    requires i <= |log|
    ensures LastStored(log + [e], i) == LastStored(log, i)
  {
    if i > 0 {
      LastStoredExtends(log, e, i - 1);
    }
  }

  lemma LegalEventExtends(log: seq<Event>, e: Event, i: nat)
    requires i < |log|
    ensures LegalEvent(log + [e], i) <==> LegalEvent(log, i)
  {
    LastStoredExtends(log, e, i);
  }

  lemma LegalExtends(log: seq<Event>, e: Event, now: nat)
    requires Legal(log) && LegalEvent(log + [e], |log|)
    requires forall i :: 0 <= i < |log| ==> Past(log[i], now)
    requires IsLookup(e) ==> e.at == now
    ensures Legal(log + [e])
  {
    hide LegalEvent;
    var next := log + [e];
    forall i: nat | i < |next| ensures LegalEvent(next, i) {
      if i < |log| {
        LegalEventExtends(log, e, i);
      }
    }
    forall i: nat, j: nat | i < j < |next| ensures InOrder(next, i, j) {
      assert next[i] == log[i];
      if j < |log| {
        assert InOrder(log, i, j);
      }
    }
  }

  /** Everything but the log's last event and one caller's phase as before */
  lemma InvExtends(s: State, t: State, c: nat, p: Phase, e: Event)
    requires Inv(s) && t.log == s.log + [e] && t.now == s.now && t.phases == s.phases[c := p]
    requires PhaseFits(t, c, p) && Past(e, s.now) && LegalEvent(t.log, |s.log|) && (IsLookup(e) ==> e.at == s.now)
    requires t.cache == if e.Stored? then Some(Cached(e.token, Refresh(e))) else s.cache
    ensures Inv(t)
  {
    hide LegalEvent, Legal;
    LegalExtends(s.log, e, s.now);
    LastStoredExtends(s.log, e, |s.log|);
    forall d: nat ensures PhaseFits(t, d, t.PhaseOf(d)) {
      assert PhaseFits(s, d, s.PhaseOf(d));
    }
  }

  lemma LookupKeeps(s: State, t: State, c: nat)
    requires Inv(s) && LookupStep(s, t, c)
    ensures Inv(t)
  {
    var e := if Lookup(s.cache, s.now).Some? then Hit(c, s.now, Lookup(s.cache, s.now).value) else Missed(c, s.now);
    LastStoredExtends(s.log, e, |s.log|);
    if e.Hit? {
      LegalExtends(s.log, e, s.now);
      forall d: nat ensures PhaseFits(t, d, t.PhaseOf(d)) {
        assert PhaseFits(s, d, s.PhaseOf(d));
      }
    } else {
      InvExtends(s, t, c, Minting(|s.log|), e);
    }
  }

  lemma PhaseKeeps(s: State, t: State, c: nat, p: Phase)
    requires Inv(s) && t == s.(phases := s.phases[c := p]) && PhaseFits(s, c, p)
    ensures Inv(t)
  {
    hide LegalEvent, Legal, CacheOf;
    forall d: nat ensures PhaseFits(t, d, t.PhaseOf(d)) {
      assert PhaseFits(s, d, s.PhaseOf(d));
    }
  }

  lemma ReplyKeeps(s: State, t: State, c: nat, reply: Option<TokenReply>)
    requires Inv(s) && ReplyStep(s, t, c, reply)
    ensures Inv(t)
  {
    hide Legal, CacheOf;
    var p := s.PhaseOf(c);
    assert PhaseFits(s, c, p);
    match Mint(reply)
    case Ok(minted) => PhaseKeeps(s, t, c, Minted(p.looked, minted.0, minted.1));
    case Err => InvExtends(s, t, c, Idle, Refused(c));
  }

  lemma ClockKeeps(s: State, t: State, c: nat)
    requires Inv(s) && ClockStep(s, t, c)
    ensures Inv(t)
  {
    hide Legal, CacheOf;
    var p := s.PhaseOf(c);
    assert PhaseFits(s, c, p) && Past(s.log[p.looked], s.now);
    PhaseKeeps(s, t, c, Dated(p.looked, p.token, p.expiresIn, s.now));
  }

  lemma StoreKeeps(s: State, t: State, c: nat)
    requires Inv(s) && StoreStep(s, t, c)
    ensures Inv(t)
  {
    hide Legal, CacheOf;
    var p := s.PhaseOf(c);
    assert PhaseFits(s, c, p);
    InvExtends(s, t, c, Idle, Stored(c, p.token, p.expiresIn, p.readAt, p.looked));
  }

  lemma StepKeeps(s: State, t: State)
    requires Inv(s) && Step(s, t)
    ensures Inv(t)
  {
    hide Legal, CacheOf, LookupStep, ReplyStep, ClockStep, StoreStep;
    if s.now <= t.now && t == s.(now := t.now) {
      forall c: nat ensures PhaseFits(t, c, t.PhaseOf(c)) {
        assert PhaseFits(s, c, s.PhaseOf(c));
      }
      forall i | 0 <= i < |t.log| ensures Past(t.log[i], t.now) {
        assert Past(s.log[i], s.now);
      }
    } else if c: nat :| LookupStep(s, t, c) {
      LookupKeeps(s, t, c);
    } else if c: nat, reply: Option<TokenReply> :| ReplyStep(s, t, c, reply) {
      ReplyKeeps(s, t, c, reply);
    } else if c: nat :| ClockStep(s, t, c) {
      ClockKeeps(s, t, c);
    } else {
      var c: nat :| StoreStep(s, t, c);
      StoreKeeps(s, t, c);
    }
  }

  lemma {:induction false} RunKeeps(states: seq<State>, k: nat)
    requires Run(states) && k < |states|
    ensures Inv(states[k])
  {
    hide Step, Inv;
    if k == 0 {
      assert Inv(states[0]) by {
        var now: nat :| states[0] == Start(now);
        StartsWell(now);
      }
    } else {
      RunKeeps(states, k - 1);
      assert Step(states[k - 1], states[k - 1 + 1]);
      StepKeeps(states[k - 1], states[k]);
    }
  }

  lemma StartsWell(now: nat)
    ensures Inv(Start(now))
  {
  }

  // ----- the laws of the token source

  /** A returned bearer was minted, with a non-empty token and a positive lifetime. */
  lemma ReturnedWasMinted(states: seq<State>, i: nat)
    requires Run(states)
    requires var log := states[|states| - 1].log; i < |log| && (log[i].Hit? || log[i].Stored?)
    ensures var log := states[|states| - 1].log;
      exists m: nat :: m <= i && log[m].Stored? && log[m].token == log[i].token != "" && log[m].expiresIn > 0
  {
    RunKeeps(states, |states| - 1);
    var log := states[|states| - 1].log;
    assert LegalEvent(log, i);
    if log[i].Hit? {
      var m := LastStored(log, i).value;
      assert LegalEvent(log, m);
    }
  }

  /**
   A bearer served from the cache is that of the last store, and more than 60 seconds remain of its
   lifetime, counted from the clock read after its mint.
   */
  lemma ServedInTime(states: seq<State>, i: nat)
    requires Run(states)
    requires var log := states[|states| - 1].log; i < |log| && log[i].Hit?
    ensures var log := states[|states| - 1].log;
      exists m: nat :: m < i && log[m].Stored? && log[m].token == log[i].token
        && (forall k :: m < k < i ==> !log[k].Stored?)
        && log[m].readAt <= log[i].at
        && log[i].at + 60_000_000_000 < log[m].readAt + log[m].expiresIn * 1_000_000_000
  {
    RunKeeps(states, |states| - 1);
    var log := states[|states| - 1].log;
    assert LegalEvent(log, i);
    var m := LastStored(log, i).value;
    assert InOrder(log, m, i);
  }

  /** On a legal log, a miss before a stored token's refresh point needs a store by an overlapping call. */
  lemma {:induction false} MissNeedsOverlap(log: seq<Event>, m: nat, i: nat) returns (n: nat)
    requires Legal(log) && m < i < |log| && log[m].Stored? && log[i].Missed? && log[i].at < Refresh(log[m])
    ensures m < n < i && log[n].Stored? && log[n].looked < m
    decreases i
  {
    assert LegalEvent(log, i);
    n := LastStored(log, i).value;
    assert LegalEvent(log, n);
    var j := log[n].looked;
    if j > m {
      assert InOrder(log, j, i);
      n := MissNeedsOverlap(log, m, j);
    }
  }

  /**
   A caller mints while more than 60 seconds remain of a stored token only if a call that was already
   under way when that token was stored has overwritten it since.
   */
  lemma NoNeedlessMint(states: seq<State>, m: nat, i: nat)
    requires Run(states)
    requires var log := states[|states| - 1].log;
      && m < i < |log| && log[m].Stored? && log[i].Missed?
      && log[i].at + 60_000_000_000 < log[m].readAt + log[m].expiresIn * 1_000_000_000
    ensures var log := states[|states| - 1].log;
      exists n: nat :: m < n < i && log[n].Stored? && log[n].looked < m
  {
    RunKeeps(states, |states| - 1);
    var n := MissNeedsOverlap(states[|states| - 1].log, m, i);
  }

  /** No store falls between another call's lookup and its store. */
  ghost predicate Sequential(log: seq<Event>)
  {
    forall m: nat, n: nat :: m < n < |log| && log[m].Stored? && log[n].Stored? ==> m < log[n].looked
  }

  /** Calls that do not overlap never mint again while more than 60 seconds remain of any token stored before. */
  lemma SequentialCallsReuse(states: seq<State>, m: nat, i: nat)
    requires Run(states) && Sequential(states[|states| - 1].log)
    requires var log := states[|states| - 1].log;
      && m < i < |log| && log[m].Stored? && IsLookup(log[i])
      && log[i].at + 60_000_000_000 < log[m].readAt + log[m].expiresIn * 1_000_000_000
    ensures states[|states| - 1].log[i].Hit?
  {
    RunKeeps(states, |states| - 1);
    assert InOrder(states[|states| - 1].log, m, i);
    if states[|states| - 1].log[i].Missed? {
      NoNeedlessMint(states, m, i);
    }
  }
}
