/**
 * The timing of lease renewal: the loop started by startLeaseRenewal against the expiry test of
 * RequeueExpiredRunning, as a timed step system over the database's clock.
 */
module LeaseRenewal {
  import opened Common

  /** jobWorker.effectiveLease. */
  function EffectiveLease(configured: int): (lease: int)
    ensures lease > 0
  {
    if configured > 0 then configured else 300 * SECOND
  }

  /** The time between renewals. */
  function Interval(lease: int): (interval: int) {
    if lease / 2 < SECOND then SECOND else lease / 2
  }

  /**
   * A store call takes effect and returns within `latency` of its start, and the loop starts within
   * `startDelay` of the clock reading the claim's expiry was computed from.
   */
  datatype Timing = Timing(lease: int, latency: int, startDelay: int)

  predicate Sane(t: Timing) {
    t.lease > 0 && t.latency >= 0 && t.startDelay >= 0
  }

  datatype Phase =
    | Claimed(at: int)
    | Sleeping(until: int)
    | Calling(since: int, written: bool)

  datatype State = State(now: int, expiresAt: int, phase: Phase)

  datatype Step = Pass(span: int) | Begin | Fire | Write | Return

  function Init(t: Timing, at: int): (s: State) {
    State(at, at + t.lease, Claimed(at))
  }

  /** Time cannot pass the moment by which the loop must have moved on. */
  function Deadline(t: Timing, p: Phase): (time: int) {
    match p
    case Claimed(at) => at + t.startDelay
    case Sleeping(until) => until
    case Calling(since, _) => since + t.latency
  }

  predicate Enabled(t: Timing, s: State, step: Step) {
    match step
    case Pass(span) => 0 <= span && s.now + span <= Deadline(t, s.phase)
    case Begin => s.phase.Claimed?
    case Fire => s.phase.Sleeping? && s.now == s.phase.until
    case Write => s.phase.Calling? && !s.phase.written
    case Return => s.phase.Calling? && s.phase.written
  }

  function Apply(t: Timing, s: State, step: Step): (r: State)
    requires Enabled(t, s, step)
  {
    match step
    case Pass(span) => s.(now := s.now + span)
    case Begin => s.(phase := Sleeping(s.now + Interval(t.lease)))
    case Fire => s.(phase := Calling(s.now, false))
    case Write => s.(expiresAt := s.phase.since + t.lease, phase := s.phase.(written := true))
    case Return => s.(phase := Sleeping(s.now + Interval(t.lease)))
  }

  /** The state a run of these steps ends in, or nothing when some step is not enabled. */
  predicate IsRun(t: Timing, at: int, steps: seq<Step>)
    decreases |steps|, 0
  {
    steps == [] ||
    (IsRun(t, at, steps[..|steps| - 1]) && Enabled(t, After(t, at, steps[..|steps| - 1]), steps[|steps| - 1]))
  }

  function After(t: Timing, at: int, steps: seq<Step>): (s: State)
    requires IsRun(t, at, steps)
    decreases |steps|, 1
  {
    if steps == [] then Init(t, at) else Apply(t, After(t, at, steps[..|steps| - 1]), steps[|steps| - 1])
  }

  /** RequeueExpiredRunning would take the row now. */
  predicate Takeable(s: State) {
    s.expiresAt <= s.now
  }

  /** Whatever the run, the row is not taken while the loop runs. */
  ghost predicate LeaseHolds(t: Timing) {
    forall at: int, steps: seq<Step> | IsRun(t, at, steps) :: !Takeable(After(t, at, steps))
  }

  predicate InTime(t: Timing) {
    t.startDelay + Interval(t.lease) + t.latency < t.lease && Interval(t.lease) + 2 * t.latency < t.lease
  }

  predicate Inv(t: Timing, s: State) {
    && s.now <= Deadline(t, s.phase)
    && match s.phase
       case Claimed(at) => s.expiresAt == at + t.lease
       case Sleeping(until) => until + t.latency < s.expiresAt
       case Calling(since, written) =>
         since <= s.now && since + t.latency < s.expiresAt && (written ==> s.expiresAt == since + t.lease)
  }

  lemma {:induction false} RunKeepsInv(t: Timing, at: int, steps: seq<Step>)
    requires Sane(t) && InTime(t) && IsRun(t, at, steps)
    ensures Inv(t, After(t, at, steps))
  {
    if steps != [] {
      RunKeepsInv(t, at, steps[..|steps| - 1]);
    }
  }

  lemma Extend(t: Timing, at: int, steps: seq<Step>, step: Step) returns (more: seq<Step>)
    requires IsRun(t, at, steps) && Enabled(t, After(t, at, steps), step)
    ensures IsRun(t, at, more) && After(t, at, more) == Apply(t, After(t, at, steps), step)
  {
    more := steps + [step];
    assert more[..|steps|] == steps;
  }

  /** A slow start: the first renewal lands after the claim's own lease ran out. */
  lemma LateStart(t: Timing) returns (steps: seq<Step>)
    requires Sane(t) && t.startDelay + Interval(t.lease) + t.latency >= t.lease
    ensures IsRun(t, 0, steps) && Takeable(After(t, 0, steps))
  {
    steps := Extend(t, 0, [], Pass(t.startDelay));
    steps := Extend(t, 0, steps, Begin);
    steps := Extend(t, 0, steps, Pass(Interval(t.lease)));
    steps := Extend(t, 0, steps, Fire);
    steps := Extend(t, 0, steps, Pass(t.latency));
  }

  /** A fast renewal that returns late, followed by one that lands late. */
  lemma LateRenewal(t: Timing) returns (steps: seq<Step>)
    requires Sane(t) && Interval(t.lease) + 2 * t.latency >= t.lease
    ensures IsRun(t, 0, steps) && Takeable(After(t, 0, steps))
  {
    steps := Extend(t, 0, [], Begin);
    steps := Extend(t, 0, steps, Pass(Interval(t.lease)));
    steps := Extend(t, 0, steps, Fire);
    steps := Extend(t, 0, steps, Write);
    steps := Extend(t, 0, steps, Pass(t.latency));
    steps := Extend(t, 0, steps, Return);
    steps := Extend(t, 0, steps, Pass(Interval(t.lease)));
    steps := Extend(t, 0, steps, Fire);
    steps := Extend(t, 0, steps, Pass(t.latency));
  }

  /** The lease survives every run, with any number of renewals, exactly when both delays fit into it. */
  lemma LeaseHoldsIff(t: Timing)
    requires Sane(t)
    ensures LeaseHolds(t) <==> InTime(t)
  {
    if InTime(t) {
      forall at: int, steps: seq<Step> | IsRun(t, at, steps) ensures !Takeable(After(t, at, steps)) {
        RunKeepsInv(t, at, steps);
      }
    } else if t.startDelay + Interval(t.lease) + t.latency >= t.lease {
      var steps := LateStart(t);
    } else {
      var steps := LateRenewal(t);
    }
  }

  /** Because the interval is never under a second, a lease of a second or less cannot be kept alive at all. */
  lemma ShortLeaseIsLost(t: Timing)
    requires Sane(t) && t.lease <= SECOND
    ensures !LeaseHolds(t)
  {
    LeaseHoldsIff(t);
  }
}
