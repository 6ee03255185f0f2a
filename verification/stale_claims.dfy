/** The other half of the bound on handler starts: any Kafka claim that is not harmless breaks it. */
module StaleClaims {
  import opened Common
  import opened Jobs
  import opened LeaseProtocol
  import opened Fencing
  import opened BoundedExecution

  /** How many messages the run delivers. */
  function Deliveries(steps: seq<Step>): (n: nat) {
    if steps == [] then 0
    else Deliveries(steps[..|steps| - 1]) + if steps[|steps| - 1].Deliver? then 1 else 0
  }

  /** A run under the policy with `n` starts of the job "j" and `d` deliveries. */
  ghost predicate Trace(policy: Policy, init: System, steps: seq<Step>, n: nat, d: nat) {
    && IsRun(init, steps) && Admits(policy, init, steps, "j")
    && |Starts(init, steps, "j")| == n && Deliveries(steps) == d
  }

  function Count(b: bool): (n: nat) {
    if b then 1 else 0
  }

  lemma Then(policy: Policy, init: System, steps: seq<Step>, step: Step, n: nat, d: nat) returns (more: seq<Step>)
    requires Trace(policy, init, steps, n, d)
    requires Enabled(After(init, steps), step) && AdmitsStep(policy, After(init, steps), step, "j")
    ensures IsRun(init, more) && After(init, more) == Apply(After(init, steps), step)
    ensures var starts := step.Start? && After(init, steps).workers[step.w].job.id == "j";
            Trace(policy, init, more, n + Count(starts), d + Count(step.Deliver?))
  {
    more := Extend(init, steps, step);
    assert more[..|steps|] == steps;
  }

  function TokenOf(k: nat): (t: Token) {
    seq(k + 1, _ => 'a')
  }

  /** A message for the job, due at `at`, whose claim will write the attempt count `attempt`. */
  function Message(attempt: int, m: int, at: Time): (job: Job) {
    Job("j", "", 0, m, Pending, attempt - 1, Some(at), None, None, "", None)
  }

  /** Nobody works on the job, `k` tokens have been used, and the row may be claimed. */
  ghost predicate Waiting(s: System, attempt: int, m: int, k: nat) {
    && s.workers == map[] && "j" in s.rows && s.config.lease > 0
    && Due(s.rows["j"], s.now) && s.rows["j"].leaseToken.None?
    && s.rows["j"].attempt == attempt && s.rows["j"].maxRetries == m
    && forall t | t in s.issued :: |t| <= k
  }

  /** The claimed row, with a whole lease ahead. */
  ghost predicate Taken(s: System, attempt: int, m: int, k: nat) {
    && "j" in s.rows && s.config.lease > 0 && s.rows["j"].state.Running?
    && (s.rows["j"].scheduledAt.None? || s.rows["j"].scheduledAt.value <= s.now)
    && s.rows["j"].leaseExpiresAt == Some(s.now + s.config.lease)
    && s.rows["j"].attempt == attempt && s.rows["j"].maxRetries == m
    && forall t | t in s.issued :: |t| <= k
  }

  /** Worker 0 holds the claim and has not started. */
  ghost predicate InHand(s: System, attempt: int, m: int, k: nat) {
    && Taken(s, attempt, m, k) && s.workers.Keys == {0} && s.workers[0].job.id == "j"
    && Enabled(s, Start(0)) && Holding(s.rows, s.workers[0].job)
  }

  /** Worker 0 was delivered the message, found the row claimable and is about to write its claim. */
  ghost predicate Writing(s: System, before: int, attempt: int, m: int, k: nat) {
    && s.workers.Keys == {0} && s.workers[0].phase.Claiming? && s.config.lease > 0
    && "j" in s.rows && s.rows["j"].state.Pending? && s.rows["j"].leaseToken.None?
    && s.rows["j"].attempt == before && s.rows["j"].maxRetries == m
    && s.workers[0].job.leaseToken != ""
    && s.workers[0].job == Message(attempt, m, s.now).(attempt := attempt, state := Running, startedAt := Some(s.now),
         leaseExpiresAt := Some(s.now + s.config.lease), leaseToken := s.workers[0].job.leaseToken)
    && forall t | t in s.issued :: |t| <= k
  }

  // ---------------------------------------------------------------------------------------------
  // Single steps

  lemma ClaimStep(s: System, attempt: int, m: int, k: nat)
    requires Waiting(s, attempt, m, k)
    ensures var step := ClaimNext(0, "j", TokenOf(k));
            Enabled(s, step) && InHand(Apply(s, step), attempt + 1, m, k + 1)
  {
  }

  lemma ReleaseStep(s: System, attempt: int, m: int, k: nat)
    requires InHand(s, attempt, m, k) && s.workers[0].phase.Queued?
    ensures Enabled(s, Release(0)) && Waiting(Apply(s, Release(0)), attempt, m, k)
  {
  }

  lemma StartStep(s: System, attempt: int, m: int, k: nat)
    requires InHand(s, attempt, m, k)
    ensures Taken(Apply(s, Start(0)), attempt, m, k) && Apply(s, Start(0)).workers.Keys == {0}
  {
  }

  lemma CrashStep(s: System, attempt: int, m: int, k: nat)
    requires Taken(s, attempt, m, k) && s.workers.Keys == {0}
    ensures Enabled(s, Crash(0)) && Taken(Apply(s, Crash(0)), attempt, m, k)
    ensures Apply(s, Crash(0)).workers == map[]
  {
  }

  lemma ExpireStep(s: System, attempt: int, m: int, k: nat)
    requires Taken(s, attempt, m, k) && s.workers == map[] && attempt < m
    ensures var tick := Tick(s.now + s.config.lease);
            Enabled(s, tick) && Enabled(Apply(s, tick), Requeue({"j"}))
            && Waiting(Apply(Apply(s, tick), Requeue({"j"})), attempt, m, k)
  {
  }

  lemma ReadStep(s: System, before: int, attempt: int, m: int, k: nat)
    requires Waiting(s, before, m, k)
    ensures var deliver := Deliver(0, Message(attempt, m, s.now));
            Enabled(s, deliver) && Enabled(Apply(s, deliver), KafkaRead(0, TokenOf(k)))
            && Writing(Apply(Apply(s, deliver), KafkaRead(0, TokenOf(k))), before, attempt, m, k + 1)
  {
  }

  lemma WriteStep(policy: Policy, s: System, before: int, attempt: int, m: int, k: nat)
    requires Writing(s, before, attempt, m, k) && policy(before, attempt)
    ensures Enabled(s, KafkaWrite(0)) && AdmitsStep(policy, s, KafkaWrite(0), "j")
    ensures InHand(Apply(s, KafkaWrite(0)), attempt, m, k)
  {
  }

  // ---------------------------------------------------------------------------------------------
  // Stretches of a run

  lemma Claim(policy: Policy, init: System, steps: seq<Step>, attempt: int, m: int, k: nat, n: nat, d: nat)
    returns (more: seq<Step>)
    requires Trace(policy, init, steps, n, d) && Waiting(After(init, steps), attempt, m, k)
    ensures Trace(policy, init, more, n, d) && InHand(After(init, more), attempt + 1, m, k + 1)
    ensures After(init, more).workers[0].phase.Queued?
  {
    ClaimStep(After(init, steps), attempt, m, k);
    more := Then(policy, init, steps, ClaimNext(0, "j", TokenOf(k)), n, d);
  }

  lemma KafkaClaim(policy: Policy, init: System, steps: seq<Step>, before: int, attempt: int, m: int, k: nat, n: nat,
                   d: nat)
    returns (more: seq<Step>)
    requires Trace(policy, init, steps, n, d) && Waiting(After(init, steps), before, m, k) && policy(before, attempt)
    ensures Trace(policy, init, more, n, d + 1) && InHand(After(init, more), attempt, m, k + 1)
  {
    ReadStep(After(init, steps), before, attempt, m, k);
    more := Then(policy, init, steps, Deliver(0, Message(attempt, m, After(init, steps).now)), n, d);
    more := Then(policy, init, more, KafkaRead(0, TokenOf(k)), n, d + 1);
    WriteStep(policy, After(init, more), before, attempt, m, k + 1);
    more := Then(policy, init, more, KafkaWrite(0), n, d + 1);
  }

  lemma GoOn(policy: Policy, init: System, steps: seq<Step>, attempt: int, m: int, k: nat, n: nat, d: nat)
    returns (more: seq<Step>)
    requires Trace(policy, init, steps, n, d) && InHand(After(init, steps), attempt, m, k)
    ensures Trace(policy, init, more, n + 1, d) && Taken(After(init, more), attempt, m, k)
    ensures After(init, more).workers.Keys == {0}
  {
    StartStep(After(init, steps), attempt, m, k);
    more := Then(policy, init, steps, Start(0), n, d);
  }

  /** Start, crash, and the lease runs out. */
  lemma StartAndCrash(policy: Policy, init: System, steps: seq<Step>, attempt: int, m: int, k: nat, n: nat, d: nat)
    returns (more: seq<Step>)
    requires Trace(policy, init, steps, n, d) && InHand(After(init, steps), attempt, m, k) && attempt < m
    ensures Trace(policy, init, more, n + 1, d) && Waiting(After(init, more), attempt, m, k)
  {
    more := GoOn(policy, init, steps, attempt, m, k, n, d);
    CrashStep(After(init, more), attempt, m, k);
    more := Then(policy, init, more, Crash(0), n + 1, d);
    var s := After(init, more);
    ExpireStep(s, attempt, m, k);
    more := Then(policy, init, more, Tick(s.now + s.config.lease), n + 1, d);
    more := Then(policy, init, more, Requeue({"j"}), n + 1, d);
  }

  /** `times` more attempts, all below m, each started. */
  lemma {:induction false} CrashRepeatedly(policy: Policy, init: System, steps: seq<Step>, from: int, times: nat,
                                           m: int, k: nat, n: nat, d: nat)
    returns (more: seq<Step>, used: nat)
    requires Trace(policy, init, steps, n, d) && Waiting(After(init, steps), from, m, k) && from + times < m
    ensures Trace(policy, init, more, n + times, d) && Waiting(After(init, more), from + times, m, used)
    decreases times
  {
    if times == 0 {
      more, used := steps, k;
    } else {
      more := Claim(policy, init, steps, from, m, k, n, d);
      more := StartAndCrash(policy, init, more, from + 1, m, k + 1, n, d);
      more, used := CrashRepeatedly(policy, init, more, from + 1, times - 1, m, k + 1, n + 1, d);
    }
  }

  /** `times` more attempts that are given back unstarted. */
  lemma {:induction false} ReleaseRepeatedly(policy: Policy, init: System, steps: seq<Step>, from: int, times: nat,
                                             m: int, k: nat, n: nat, d: nat)
    returns (more: seq<Step>, used: nat)
    requires Trace(policy, init, steps, n, d) && Waiting(After(init, steps), from, m, k)
    ensures Trace(policy, init, more, n, d) && Waiting(After(init, more), from + times, m, used)
    decreases times
  {
    if times == 0 {
      more, used := steps, k;
    } else {
      more := Claim(policy, init, steps, from, m, k, n, d);
      ReleaseStep(After(init, more), from + 1, m, k + 1);
      more := Then(policy, init, more, Release(0), n, d);
      more, used := ReleaseRepeatedly(policy, init, more, from + 1, times - 1, m, k + 1, n, d);
    }
  }

  lemma Created(policy: Policy, init: System, m: int) returns (steps: seq<Step>)
    requires Init(init) && init.config.lease > 0
    ensures Trace(policy, init, steps, 0, 0) && Waiting(After(init, steps), 0, m, 0)
  {
    assert IsRun(init, []) && After(init, []) == init;
    steps := Then(policy, init, [], Create("j", None, 0, m, Some(init.now)), 0, 0);
  }

  // ---------------------------------------------------------------------------------------------
  // The bound and its exact condition

  /** The row stands at `before`, with as many starts as that allows. */
  lemma Reach(policy: Policy, init: System, before: nat, m: int) returns (steps: seq<Step>, k: nat, n: nat)
    requires Init(init) && init.config.lease > 0 && m > 0
    ensures n == (if before < m then before else m - 1)
    ensures Trace(policy, init, steps, n, 0) && Waiting(After(init, steps), before, m, k)
  {
    n := if before < m then before else m - 1;
    steps := Created(policy, init, m);
    steps, k := CrashRepeatedly(policy, init, steps, 0, n, m, 0, 0, 0);
    steps, k := ReleaseRepeatedly(policy, init, steps, n, before - n, m, k, n, 0);
  }

  /** All the attempts the row still allows, the last one included. */
  lemma UseUp(policy: Policy, init: System, steps: seq<Step>, from: int, left: nat, m: int, k: nat, n: nat, d: nat)
    returns (more: seq<Step>)
    requires Trace(policy, init, steps, n, d) && Waiting(After(init, steps), from, m, k) && from + left == m && left > 0
    ensures Trace(policy, init, more, n + left, d)
    ensures "j" in After(init, more).rows && After(init, more).rows["j"].maxRetries == m
  {
    var used;
    more, used := CrashRepeatedly(policy, init, steps, from, left - 1, m, k, n, d);
    more := Claim(policy, init, more, m - 1, m, used, n + (left - 1), d);
    more := GoOn(policy, init, more, m, m, used + 1, n + (left - 1), d);
  }

  /** The stale claim has run once, and the row stands at the count it wrote. */
  lemma SetBack(policy: Policy, init: System, before: nat, after: int, m: int)
    returns (steps: seq<Step>, k: nat, n: nat)
    requires Init(init) && init.config.lease > 0 && m > 0 && policy(before, after) && after < m
    ensures n == 1 + (if before < m then before else m - 1)
    ensures Trace(policy, init, steps, n, 1) && Waiting(After(init, steps), after, m, k)
  {
    steps, k, n := Reach(policy, init, before, m);
    steps := KafkaClaim(policy, init, steps, before, after, m, k, n, 0);
    steps := StartAndCrash(policy, init, steps, after, m, k + 1, n, 1);
    k, n := k + 1, n + 1;
  }

  /** One message, delivered once but late, is enough: its claim sets the count back and the rest is repeated. */
  lemma OneStaleClaimBreaksTheBound(policy: Policy, init: System, before: nat, after: int, m: int)
    returns (steps: seq<Step>, n: nat)
    requires Init(init) && init.config.lease > 0 && m > 0 && policy(before, after) && !Harmless(m, before, after)
    ensures Trace(policy, init, steps, n, 1) && n > m
    ensures "j" in After(init, steps).rows && After(init, steps).rows["j"].maxRetries == m
  {
    var k;
    steps, k, n := SetBack(policy, init, before, after, m);
    steps := UseUp(policy, init, steps, after, m - after, m, k, n, 1);
    n := n + (m - after);
  }

  /** Every job with this MaxRetries starts its handler at most that often, in every run under the policy. */
  ghost predicate KeepsBound(policy: Policy, m: int) {
    forall init: System, steps: seq<Step>, id: Id
      | IsRun(init, steps) && Admits(policy, init, steps, id)
        && id in After(init, steps).rows && After(init, steps).rows[id].maxRetries == m ::
      |Starts(init, steps, id)| <= m
  }

  /**
   * The bound holds in every run under a policy exactly when the policy lets through no claim that leaves the row's
   * attempt count where it is or sets it back, other than a last attempt.
   */
  lemma BoundHoldsIff(policy: Policy, m: int)
    requires m > 0
    ensures KeepsBound(policy, m) <==> LetsOnlyHarmless(policy, m)
  {
    if LetsOnlyHarmless(policy, m) {
      forall init: System, steps: seq<Step>, id: Id
        | IsRun(init, steps) && Admits(policy, init, steps, id)
          && id in After(init, steps).rows && After(init, steps).rows[id].maxRetries == m
        ensures |Starts(init, steps, id)| <= m
      {
        HandlerStartsAtMostMaxRetries(policy, init, steps, id);
      }
    } else {
      var before: nat, after: int :| policy(before, after) && !Harmless(m, before, after);
      var init := System(Config(1, 0, (attempt, delay) => true), 0, map[], map[], map[], {});
      var steps, n := OneStaleClaimBreaksTheBound(policy, init, before, after, m);
      assert |Starts(init, steps, "j")| > m;
    }
  }

  /** The code lets every claim through: with messages numbered from 0 the bound holds exactly for one attempt. */
  lemma BoundWithEveryMessage(m: int)
    requires m > 0
    ensures KeepsBound((before, after) => after >= 1, m) <==> m == 1
  {
    var policy: Policy := (before, after) => after >= 1;
    BoundHoldsIff(policy, m);
    assert m > 1 ==> policy(1, 1) && !Harmless(m, 1, 1);
  }

  // ---------------------------------------------------------------------------------------------
  // No bound at all

  lemma {:induction false} Redeliver(policy: Policy, init: System, n: nat) returns (steps: seq<Step>, k: nat, at: int)
    requires Init(init) && init.config.lease > 0 && forall before, after :: policy(before, after)
    ensures Trace(policy, init, steps, n, n) && Waiting(After(init, steps), at, 2, k)
  {
    if n == 0 {
      steps := Created(policy, init, 2);
      k, at := 0, 0;
    } else {
      steps, k, at := Redeliver(policy, init, n - 1);
      steps := KafkaClaim(policy, init, steps, at, 1, 2, k, n - 1, n - 1);
      steps := StartAndCrash(policy, init, steps, 1, 2, k + 1, n - 1, n);
      k, at := k + 1, 1;
    }
  }

  /** With a message delivered again and again there is no bound: MaxRetries = 2 and exactly n starts, for every n. */
  lemma RedeliveryBreaksEveryBound(init: System, n: nat) returns (steps: seq<Step>)
    requires Init(init) && init.config.lease > 0
    ensures IsRun(init, steps) && |Starts(init, steps, "j")| == n
    ensures "j" in After(init, steps).rows && After(init, steps).rows["j"].maxRetries == 2
  {
    var k, at;
    steps, k, at := Redeliver((before, after) => true, init, n);
  }
}
