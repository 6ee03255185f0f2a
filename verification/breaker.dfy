/** The circuit breaker: its state machine, its history, and when it can lock callers out for ever. */
module Breaker {
  import opened Common

  datatype State = Closed | Open | HalfOpen

  datatype Config = Config(failureThreshold: int, successThreshold: int, openTimeout: int, halfOpenRequests: int)

  predicate Normal(cfg: Config) {
    cfg.failureThreshold > 0 && cfg.successThreshold > 0 && cfg.openTimeout > 0 && cfg.halfOpenRequests > 0
  }

  datatype Fields = Fields(state: State, failures: int, successes: int, openedAt: int)

  const FRESH: Fields := Fields(Closed, 0, 0, 0)

  predicate Allows(cfg: Config, b: Fields, now: int) {
    match b.state
    case Closed => true
    case Open => now - b.openedAt >= cfg.openTimeout
    case HalfOpen => b.successes < cfg.halfOpenRequests
  }

  function AfterAllow(cfg: Config, b: Fields, now: int): (r: Fields) {
    if b.state.Open? && Allows(cfg, b, now) then Fields(HalfOpen, 0, 0, b.openedAt) else b
  }

  function AfterSuccess(cfg: Config, b: Fields): (r: Fields) {
    match b.state
    case HalfOpen =>
      if b.successes + 1 >= cfg.successThreshold then b.(state := Closed, failures := 0, successes := 0)
      else b.(successes := b.successes + 1)
    case Closed => b.(failures := 0)
    case Open => b
  }

  function AfterFailure(cfg: Config, b: Fields, now: int): (r: Fields) {
    match b.state
    case Closed =>
      if b.failures + 1 >= cfg.failureThreshold then b.(state := Open, failures := b.failures + 1, openedAt := now)
      else b.(failures := b.failures + 1)
    case HalfOpen => Fields(Open, 0, 0, now)
    case Open => b
  }

  class Breaker {
    const cfg: Config
    var state: State
    var failures: int
    var successes: int
    var openedAt: int

    function Value(): (b: Fields)
      reads this
    {
      Fields(state, failures, successes, openedAt)
    }

    constructor (given: Config)
      ensures Normal(cfg) && Value() == FRESH
      ensures cfg.failureThreshold == if given.failureThreshold <= 0 then 5 else given.failureThreshold
      ensures cfg.successThreshold == if given.successThreshold <= 0 then 2 else given.successThreshold
      ensures cfg.openTimeout == if given.openTimeout <= 0 then 60 * SECOND else given.openTimeout
      ensures cfg.halfOpenRequests == if given.halfOpenRequests <= 0 then 1 else given.halfOpenRequests
    {
      var c := given;
      if c.failureThreshold <= 0 {
        c := c.(failureThreshold := 5);
      }
      if c.successThreshold <= 0 {
        c := c.(successThreshold := 2);
      }
      if c.openTimeout <= 0 {
        c := c.(openTimeout := 60 * SECOND);
      }
      if c.halfOpenRequests <= 0 {
        c := c.(halfOpenRequests := 1);
      }
      cfg := c;
      state, failures, successes, openedAt := Closed, 0, 0, 0;
    }

    method Allow(now: int) returns (allowed: bool)
      modifies this
      ensures openedAt == old(openedAt) && (!allowed || !old(state).Open? ==> Value() == old(Value()))
      ensures old(state).Closed? ==> allowed
      ensures old(state).Open? ==> (allowed <==> now >= openedAt + cfg.openTimeout)
      ensures old(state).Open? && allowed ==> state.HalfOpen? && failures == 0 && successes == 0
      ensures old(state).HalfOpen? ==> (allowed <==> successes < cfg.halfOpenRequests)
      ensures allowed == Allows(cfg, old(Value()), now) && Value() == AfterAllow(cfg, old(Value()), now)
    {
      if state == Closed {
        return true;
      }
      if state == Open {
        if now - openedAt >= cfg.openTimeout {
          state, failures, successes := HalfOpen, 0, 0;
          return true;
        }
        return false;
      }
      return successes < cfg.halfOpenRequests;
    }

    method RecordSuccess()
      modifies this
      ensures openedAt == old(openedAt) && (state.Open? <==> old(state).Open?)
      ensures old(state).Open? ==> Value() == old(Value())
      ensures old(state).Closed? ==> state.Closed? && failures == 0
      ensures old(state).HalfOpen? ==> (state.Closed? <==> old(successes) + 1 >= cfg.successThreshold)
      ensures Value() == AfterSuccess(cfg, old(Value()))
    {
      if state == HalfOpen {
        successes := successes + 1;
        if successes >= cfg.successThreshold {
          state, failures, successes := Closed, 0, 0;
        }
      } else if state == Closed {
        failures := 0;
      }
    }

    method RecordFailure(now: int)
      modifies this
      ensures state.Closed? || state.Open?
      ensures old(state).Open? ==> Value() == old(Value())
      ensures old(state).HalfOpen? ==> state.Open? && openedAt == now
      ensures old(state).Closed? ==> failures == old(failures) + 1
      ensures old(state).Closed? ==> (state.Open? <==> failures >= cfg.failureThreshold)
      ensures old(state).Closed? && state.Open? ==> openedAt == now
      ensures Value() == AfterFailure(cfg, old(Value()), now)
    {
      if state == Closed {
        failures := failures + 1;
        if failures >= cfg.failureThreshold {
          state, openedAt := Open, now;
        }
      } else if state == HalfOpen {
        state, openedAt, failures, successes := Open, now, 0, 0;
      }
    }
  }

  // ---------------------------------------------------------------------------------------------
  // Histories of calls, in any order and at any times

  datatype Event = Ask(at: int) | Succeeded | Failed(at: int)

  function Apply(cfg: Config, b: Fields, e: Event): (r: Fields) {
    match e
    case Ask(at) => AfterAllow(cfg, b, at)
    case Succeeded => AfterSuccess(cfg, b)
    case Failed(at) => AfterFailure(cfg, b, at)
  }

  function After(cfg: Config, events: seq<Event>): (b: Fields) {
    if events == [] then FRESH else Apply(cfg, After(cfg, events[..|events| - 1]), events[|events| - 1])
  }

  /** How many failures were recorded after the last success. */
  function TrailingFailures(events: seq<Event>): (n: nat) {
    if events == [] then 0
    else
      var front := TrailingFailures(events[..|events| - 1]);
      match events[|events| - 1]
      case Ask(_) => front
      case Succeeded => 0
      case Failed(_) => front + 1
  }

  /** While closed, `failures` is the run of failures since the last success, and that run is under the threshold. */
  lemma {:induction false} ClosedCountsTheTrail(cfg: Config, events: seq<Event>)
    requires Normal(cfg)
    ensures var b := After(cfg, events);
            && (b.state.Closed? ==> b.failures == TrailingFailures(events) < cfg.failureThreshold)
            && (b.state.HalfOpen? ==> b.failures == 0 && 0 <= b.successes < cfg.successThreshold)
  {
    if events != [] {
      ClosedCountsTheTrail(cfg, events[..|events| - 1]);
    }
  }

  /** A closed breaker opens exactly at the failure that completes the threshold, and records its time. */
  lemma OpensAtTheThreshold(cfg: Config, events: seq<Event>, e: Event)
    requires Normal(cfg) && After(cfg, events).state.Closed?
    ensures After(cfg, events + [e]).state.Open? <==>
            e.Failed? && TrailingFailures(events + [e]) == cfg.failureThreshold
    ensures After(cfg, events + [e]).state.Open? ==> After(cfg, events + [e]).openedAt == e.at
  {
    ClosedCountsTheTrail(cfg, events);
    assert (events + [e])[..|events|] == events;
  }

  /** From opening until the timeout has passed every call is refused and nothing recorded changes that. */
  lemma {:induction false} OpenRefusesUntilTimeout(cfg: Config, events: seq<Event>, i: nat)
    requires Normal(cfg) && i <= |events| && After(cfg, events[..i]).state.Open?
    requires forall k | i <= k < |events| && events[k].Ask? ::
               events[k].at < After(cfg, events[..i]).openedAt + cfg.openTimeout
    ensures After(cfg, events) == After(cfg, events[..i])
    ensures forall k | i <= k < |events| && events[k].Ask? :: !Allows(cfg, After(cfg, events[..k]), events[k].at)
    decreases |events|
  {
    if i == |events| {
      assert events[..i] == events;
    } else {
      var n := |events| - 1;
      var front := events[..n];
      assert front[..i] == events[..i];
      OpenRefusesUntilTimeout(cfg, front, i);
      forall k | i <= k < |events| && events[k].Ask? ensures !Allows(cfg, After(cfg, events[..k]), events[k].at) {
        if k < n {
          assert front[..k] == events[..k] && front[k] == events[k];
        }
      }
    }
  }

  // ---------------------------------------------------------------------------------------------
  // Lock-out

  /** The breaker with its users: a result is recorded only for a call that was let through. */
  datatype System = System(b: Fields, outstanding: nat)

  predicate Enabled(s: System, e: Event) {
    e.Ask? || s.outstanding > 0
  }

  function Use(cfg: Config, s: System, e: Event): (r: System)
    requires Enabled(s, e)
  {
    match e
    case Ask(at) => System(Apply(cfg, s.b, e), if Allows(cfg, s.b, at) then s.outstanding + 1 else s.outstanding)
    case _ => System(Apply(cfg, s.b, e), s.outstanding - 1)
  }

  /** Uses from a given state on. */
  predicate CanUse(cfg: Config, s: System, events: seq<Event>)
    decreases |events|
  {
    events == [] || (Enabled(s, events[0]) && CanUse(cfg, Use(cfg, s, events[0]), events[1..]))
  }

  function UseAll(cfg: Config, s: System, events: seq<Event>): (r: System)
    requires CanUse(cfg, s, events)
    decreases |events|
  {
    if events == [] then s else UseAll(cfg, Use(cfg, s, events[0]), events[1..])
  }

  lemma {:induction false} UseMore(cfg: Config, s: System, events: seq<Event>, more: seq<Event>)
    requires CanUse(cfg, s, events) && CanUse(cfg, UseAll(cfg, s, events), more)
    ensures CanUse(cfg, s, events + more) && UseAll(cfg, s, events + more) == UseAll(cfg, UseAll(cfg, s, events), more)
    decreases |events|
  {
    if events == [] {
      assert events + more == more;
    } else {
      UseMore(cfg, Use(cfg, s, events[0]), events[1..], more);
      assert (events + more)[1..] == events[1..] + more;
    }
  }

  const UNUSED: System := System(FRESH, 0)

  /** Whatever its users do from here on, no call is ever let through again. */
  ghost predicate LockedOut(cfg: Config, s: System) {
    forall events: seq<Event>, at: int | CanUse(cfg, s, events) :: !Allows(cfg, UseAll(cfg, s, events).b, at)
  }

  predicate Wedged(cfg: Config, s: System) {
    s.b.state.HalfOpen? && s.b.successes >= cfg.halfOpenRequests && s.outstanding == 0
  }

  lemma {:induction false} WedgedStays(cfg: Config, s: System, events: seq<Event>)
    requires Wedged(cfg, s) && CanUse(cfg, s, events)
    ensures UseAll(cfg, s, events) == s
    decreases |events|
  {
    if events != [] {
      WedgedStays(cfg, s, events[1..]);
    }
  }

  lemma {:induction false} UseKeepsBounds(cfg: Config, s: System, events: seq<Event>)
    requires Normal(cfg) && CanUse(cfg, s, events)
    requires s.b.state.HalfOpen? ==> 0 <= s.b.successes < cfg.successThreshold
    ensures var r := UseAll(cfg, s, events).b; r.state.HalfOpen? ==> 0 <= r.successes < cfg.successThreshold
    decreases |events|
  {
    if events != [] {
      UseKeepsBounds(cfg, Use(cfg, s, events[0]), events[1..]);
    }
  }

  /** `n` calls let through one after the other while closed, each failing. */
  lemma {:induction false} FailRepeatedly(cfg: Config, n: nat) returns (events: seq<Event>)
    requires Normal(cfg) && n <= cfg.failureThreshold
    ensures CanUse(cfg, UNUSED, events) && UseAll(cfg, UNUSED, events).outstanding == 0
    ensures UseAll(cfg, UNUSED, events).b ==
            (if n < cfg.failureThreshold then Fields(Closed, n, 0, 0) else Fields(Open, n, 0, 0))
  {
    if n == 0 {
      events := [];
    } else {
      events := FailRepeatedly(cfg, n - 1);
      var s, pair := UseAll(cfg, UNUSED, events), [Ask(0), Failed(0)];
      Pair(cfg, s, pair);
      UseMore(cfg, UNUSED, events, pair);
      events := events + pair;
    }
  }

  lemma Pair(cfg: Config, s: System, pair: seq<Event>)
    requires |pair| == 2 && pair[0].Ask? && Allows(cfg, s.b, pair[0].at) && !pair[1].Ask?
    ensures CanUse(cfg, s, pair)
    ensures UseAll(cfg, s, pair) == System(Apply(cfg, Apply(cfg, s.b, pair[0]), pair[1]), s.outstanding)
  {
    var s1, tail := Use(cfg, s, pair[0]), pair[1..];
    assert tail[0] == pair[1] && tail[1..] == [];
    assert CanUse(cfg, s1, tail) && UseAll(cfg, s1, tail) == UseAll(cfg, Use(cfg, s1, tail[0]), tail[1..]);
  }

  /** After opening, `n` trial calls let through one after the other, each succeeding. */
  lemma {:induction false} SucceedRepeatedly(cfg: Config, n: nat) returns (events: seq<Event>)
    requires Normal(cfg) && 1 <= n <= cfg.halfOpenRequests && n < cfg.successThreshold
    ensures CanUse(cfg, UNUSED, events) && UseAll(cfg, UNUSED, events) == System(Fields(HalfOpen, 0, n, 0), 0)
  {
    if n == 1 {
      events := FailRepeatedly(cfg, cfg.failureThreshold);
    } else {
      events := SucceedRepeatedly(cfg, n - 1);
    }
    var s, pair := UseAll(cfg, UNUSED, events), [Ask(cfg.openTimeout), Succeeded];
    Pair(cfg, s, pair);
    UseMore(cfg, UNUSED, events, pair);
    events := events + pair;
  }

  ghost predicate CanRefuseHalfOpen(cfg: Config) {
    exists events: seq<Event>, at: int :: CanUse(cfg, UNUSED, events)
      && UseAll(cfg, UNUSED, events).b.state.HalfOpen? && !Allows(cfg, UseAll(cfg, UNUSED, events).b, at)
  }

  ghost predicate CanLockOut(cfg: Config) {
    exists events: seq<Event> :: CanUse(cfg, UNUSED, events) && LockedOut(cfg, UseAll(cfg, UNUSED, events))
  }

  lemma WedgedIsLockedOut(cfg: Config, s: System)
    requires Wedged(cfg, s)
    ensures LockedOut(cfg, s)
  {
    forall events: seq<Event>, at: int | CanUse(cfg, s, events) ensures !Allows(cfg, UseAll(cfg, s, events).b, at) {
      WedgedStays(cfg, s, events);
    }
  }

  lemma WedgeIsReachable(cfg: Config) returns (events: seq<Event>)
    requires Normal(cfg) && cfg.halfOpenRequests < cfg.successThreshold
    ensures CanUse(cfg, UNUSED, events) && Wedged(cfg, UseAll(cfg, UNUSED, events))
  {
    events := SucceedRepeatedly(cfg, cfg.halfOpenRequests);
  }

  /** A half-open breaker can refuse a call exactly when it admits fewer trials than it needs successes to close. */
  lemma HalfOpenRefusesIff(cfg: Config)
    requires Normal(cfg)
    ensures CanRefuseHalfOpen(cfg) <==> cfg.halfOpenRequests < cfg.successThreshold
  {
    if cfg.halfOpenRequests < cfg.successThreshold {
      var events := WedgeIsReachable(cfg);
      assert !Allows(cfg, UseAll(cfg, UNUSED, events).b, 0);
    } else {
      forall events: seq<Event>, at: int | CanUse(cfg, UNUSED, events) && UseAll(cfg, UNUSED, events).b.state.HalfOpen?
        ensures Allows(cfg, UseAll(cfg, UNUSED, events).b, at)
      {
        UseKeepsBounds(cfg, UNUSED, events);
      }
    }
  }

  /** An open breaker lets a call through once the timeout is over; with enough trials a half-open one always does. */
  lemma NeverLockedOut(cfg: Config, events: seq<Event>)
    requires Normal(cfg) && cfg.halfOpenRequests >= cfg.successThreshold && CanUse(cfg, UNUSED, events)
    ensures !LockedOut(cfg, UseAll(cfg, UNUSED, events))
  {
    UseKeepsBounds(cfg, UNUSED, events);
    var s := UseAll(cfg, UNUSED, events);
    assert CanUse(cfg, s, []) && UseAll(cfg, s, []) == s;
    assert Allows(cfg, UseAll(cfg, s, []).b, s.b.openedAt + cfg.openTimeout);
  }

  /** In that case, and only then, the breaker can come to refuse every call for ever. */
  lemma LockOutIff(cfg: Config)
    requires Normal(cfg)
    ensures CanLockOut(cfg) <==> cfg.halfOpenRequests < cfg.successThreshold
  {
    if cfg.halfOpenRequests < cfg.successThreshold {
      var events := WedgeIsReachable(cfg);
      WedgedIsLockedOut(cfg, UseAll(cfg, UNUSED, events));
    } else {
      forall events: seq<Event> | CanUse(cfg, UNUSED, events) ensures !LockedOut(cfg, UseAll(cfg, UNUSED, events)) {
        NeverLockedOut(cfg, events);
      }
    }
  }

  /** The settings of the server: one trial, two successes. */
  lemma ServerCanLockItselfOut()
    ensures CanLockOut(Config(5, 2, 30 * SECOND, 1))
  {
    LockOutIff(Config(5, 2, 30 * SECOND, 1));
  }
}
