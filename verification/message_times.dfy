/** When a resting row is left alone until it is due: a matter of the times its job's messages carry. */
module MessageTimes {
  import opened Common
  import opened Jobs
  import opened LeaseProtocol
  import opened Fencing
  import opened BoundedExecution
  import opened RetrySpacing

  /** Which scheduled times messages for the job may carry. */
  type Rule = Option<Time> -> bool

  /** Every message delivered for the job carries a time the rule lets through. */
  ghost predicate Obeys(rule: Rule, steps: seq<Step>, id: Id) {
    forall i | 0 <= i < |steps| && steps[i].Deliver? && steps[i].message.id == id :: rule(steps[i].message.scheduledAt)
  }

  predicate IsLate(t: Option<Time>, at: Time) {
    t.Some? && at <= t.value
  }

  ghost predicate LetsOnlyLate(rule: Rule, at: Time) {
    forall t | rule(t) :: IsLate(t, at)
  }

  // ---------------------------------------------------------------------------------------------
  // With late messages the rest is kept

  /** A worker that has not claimed yet carries a late time, and has waited for it before it reads the row. */
  predicate Waits(w: Worker, now: Time, at: Time) {
    !HasClaimed(w) ==> IsLate(w.job.scheduledAt, at) && (w.phase.Claiming? ==> w.job.scheduledAt.value <= now)
  }

  ghost predicate AllWait(s: System, id: Id, at: Time) {
    forall w | w in s.workers && s.workers[w].job.id == id :: Waits(s.workers[w], s.now, at)
  }

  lemma StepKeepsWaiting(s: System, step: Step, id: Id, at: Time, w: WorkerId)
    requires Enabled(s, step) && AllWait(s, id, at)
    requires step.Deliver? && step.message.id == id ==> IsLate(step.message.scheduledAt, at)
    requires w in Apply(s, step).workers && Apply(s, step).workers[w].job.id == id
    ensures Waits(Apply(s, step).workers[w], Apply(s, step).now, at)
  {
    assert w in s.workers && s.workers[w].job.id == id ==> Waits(s.workers[w], s.now, at);
  }

  lemma {:induction false} RunKeepsWaiting(rule: Rule, init: System, steps: seq<Step>, id: Id, at: Time)
    requires IsRun(init, steps) && Obeys(rule, steps, id) && LetsOnlyLate(rule, at)
    ensures AllWait(After(init, steps), id, at)
  {
    if steps != [] {
      var front, last := steps[..|steps| - 1], steps[|steps| - 1];
      var s := After(init, front);
      RunKeepsWaiting(rule, init, front, id, at);
      forall w | w in Apply(s, last).workers && Apply(s, last).workers[w].job.id == id
        ensures Waits(Apply(s, last).workers[w], Apply(s, last).now, at)
      {
        StepKeepsWaiting(s, last, id, at, w);
      }
    }
  }

  lemma WaitingAt(rule: Rule, init: System, steps: seq<Step>, k: nat, id: Id, at: Time)
    requires IsRun(init, steps) && Obeys(rule, steps, id) && LetsOnlyLate(rule, at) && k <= |steps|
    ensures AllWait(At(init, steps, k), id, at)
  {
    PrefixIsRun(init, steps, k);
    RunKeepsWaiting(rule, init, steps[..k], id, at);
  }

  /** A Kafka claim of the row comes only when time `at` has come. */
  lemma KafkaTakesLate(s: System, step: Step, id: Id, at: Time)
    requires Enabled(s, step) && AllWait(s, id, at) && KafkaTakes(s, step, id)
    ensures at <= s.now
  {
    assert Waits(s.workers[step.w], s.now, at);
  }

  lemma RestStep(s: System, step: Step, id: Id, at: Time)
    requires Inv(s) && Enabled(s, step) && AllWait(s, id, at) && id in s.rows && Resting(s.now, s.rows[id], at)
    ensures id in Apply(s, step).rows && Resting(Apply(s, step).now, Apply(s, step).rows[id], at)
  {
    if KafkaTakes(s, step, id) {
      KafkaTakesLate(s, step, id, at);
    } else {
      StepKeepsResting(s, step, id, at);
    }
  }

  lemma {:induction false} RestLasts(rule: Rule, init: System, steps: seq<Step>, i: nat, j: nat, id: Id, at: Time)
    requires IsRun(init, steps) && Obeys(rule, steps, id) && LetsOnlyLate(rule, at) && i <= j <= |steps|
    requires RestsAt(init, steps, i, id, at)
    ensures RestsAt(init, steps, j, id, at)
    decreases j - i
  {
    if i < j {
      AtStep(init, steps, i);
      WaitingAt(rule, init, steps, i, id, at);
      RestStep(At(init, steps, i), steps[i], id, at);
      RestLasts(rule, init, steps, i + 1, j, id, at);
    }
  }

  lemma ClaimIsLate(s: System, step: Step, id: Id, at: Time)
    requires Enabled(s, step) && AllWait(s, id, at) && id in s.rows && Resting(s.now, s.rows[id], at)
    requires (step.ClaimNext? && step.id == id) || KafkaTakes(s, step, id)
    ensures at <= s.now
  {
    if KafkaTakes(s, step, id) {
      KafkaTakesLate(s, step, id, at);
    }
  }

  lemma {:induction false} RestIsKeptUnder(
    rule: Rule, init: System, steps: seq<Step>, i: nat, j: nat, id: Id, at: Time)
    requires IsRun(init, steps) && Obeys(rule, steps, id) && LetsOnlyLate(rule, at) && i <= j < |steps|
    requires RestsAt(init, steps, i, id, at) && ClaimsAt(init, steps, j, id)
    ensures HasCome(init, steps, j, at)
  {
    RestLasts(rule, init, steps, i, j, id, at);
    WaitingAt(rule, init, steps, j, id, at);
    AtStep(init, steps, j);
    ClaimIsLate(At(init, steps, j), steps[j], id, at);
  }

  // ---------------------------------------------------------------------------------------------
  // With an early message it is not

  /** The message published for the job when it was created. */
  function Snapshot(at: Option<Time>): (job: Job) {
    JobOf("j", CreatedRow(at))
  }

  /** The job was tried once at time `now`, failed, and rests until the next moment; its workers are gone. */
  lemma RetriedIsReachable(init: System, t: Option<Time>) returns (steps: seq<Step>)
    requires Init(init) && (t.None? || t.value <= init.now) && init.config.delays(1, 1)
    ensures IsRun(init, steps) && forall i | 0 <= i < |steps| :: !steps[i].Deliver?
    ensures var s := After(init, steps);
            && s.now == init.now && s.workers == map[] && s.issued == {"t"} && "j" in s.rows
            && s.rows["j"].state.Pending? && s.rows["j"].scheduledAt == Some(init.now + 1)
            && s.rows["j"].leaseToken.None?
  {
    var retrying := RetryingIsReachable(init, t, 1);
    steps := WriteBack(init, retrying, 0);
  }

  /** A retried row, and the old message of its job, which is itself due: the row is claimed before its time. */
  lemma OldMessageClaimsEarly(rule: Rule, init: System, t: Option<Time>) returns (steps: seq<Step>, i: nat)
    requires Init(init) && rule(t) && (t.None? || t.value <= init.now) && init.config.delays(1, 1)
    ensures IsRun(init, steps) && Obeys(rule, steps, "j") && i + 2 < |steps|
    ensures RestsAt(init, steps, i, "j", init.now + 1) && ClaimsAt(init, steps, i + 2, "j")
    ensures !HasCome(init, steps, i + 2, init.now + 1)
  {
    var retried := RetriedIsReachable(init, t);
    i := |retried|;
    steps := KafkaClaimsEarly(init, retried, "j", init.now + 1, 0, Snapshot(t), "u");
    ObeysOne(rule, retried, Snapshot(t));
  }

  lemma ObeysOne(rule: Rule, steps: seq<Step>, message: Job)
    requires (forall k | 0 <= k < |steps| :: !steps[k].Deliver?) && rule(message.scheduledAt)
    ensures Obeys(rule, steps + [Deliver(0, message), KafkaRead(0, "u"), KafkaWrite(0)], "j")
  {
  }

  /** Whatever runs, a row that rests until `at` is claimed by nobody before. */
  ghost predicate RestIsKept(rule: Rule, at: Time) {
    forall init: System, steps: seq<Step>, i: nat, j: nat, id: Id
      | IsRun(init, steps) && Obeys(rule, steps, id) && i <= j < |steps|
        && RestsAt(init, steps, i, id, at) && ClaimsAt(init, steps, j, id) ::
      HasCome(init, steps, j, at)
  }

  /**
   * The rest until `at` is kept in every run under a rule on the messages' own times exactly when the rule lets through
   * only times that are not before `at`.
   */
  lemma RestIsKeptIff(rule: Rule, at: Time)
    ensures RestIsKept(rule, at) <==> LetsOnlyLate(rule, at)
  {
    if LetsOnlyLate(rule, at) {
      forall init: System, steps: seq<Step>, i: nat, j: nat, id: Id
        | IsRun(init, steps) && Obeys(rule, steps, id) && i <= j < |steps|
          && RestsAt(init, steps, i, id, at) && ClaimsAt(init, steps, j, id)
        ensures HasCome(init, steps, j, at)
      {
        RestIsKeptUnder(rule, init, steps, i, j, id, at);
      }
    } else {
      var t :| rule(t) && !IsLate(t, at);
      var init := System(Config(1, 0, (attempt, delay) => true), at - 1, map[], map[], map[], {});
      var steps, i := OldMessageClaimsEarly(rule, init, t);
      assert !HasCome(init, steps, i + 2, at);
    }
  }
}
