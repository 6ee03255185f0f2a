/**
 * How often a job's handler can start. A job with MaxRetries = m > 0 starts its handler at most m times, unless a claim
 * made from a Kafka message sets the row's attempt count back below m.
 */
module BoundedExecution {
  import opened Common
  import opened Jobs
  import opened LeaseProtocol
  import opened Fencing

  /** The attempt numbers with which the job's handler was started, in order. */
  ghost function Starts(init: System, steps: seq<Step>, id: Id): (log: seq<int>)
    requires IsRun(init, steps)
  {
    if steps == [] then []
    else
      var front := steps[..|steps| - 1];
      LogAfter(After(init, front), Starts(init, front, id), steps[|steps| - 1], id)
  }

  ghost function LogAfter(s: System, log: seq<int>, step: Step, id: Id): (r: seq<int>)
    requires Enabled(s, step)
  {
    if step.Start? && s.workers[step.w].job.id == id then log + [s.workers[step.w].job.attempt] else log
  }

  /** The step is the write of a Kafka claim that takes the row. */
  ghost predicate KafkaTakes(s: System, step: Step, id: Id)
    requires Enabled(s, step)
  {
    step.KafkaWrite? && s.workers[step.w].job.id == id && Takes(s.rows, s.workers[step.w].job)
  }

  /** Which Kafka claims are let through, by the row's attempt count and the one the claim writes. */
  type Policy = (int, int) -> bool

  /** A Kafka claim that takes the row is let through by the policy and knows the job's MaxRetries. */
  ghost predicate AdmitsStep(policy: Policy, s: System, step: Step, id: Id)
    requires Enabled(s, step)
  {
    KafkaTakes(s, step, id) ==>
      var job := s.workers[step.w].job;
      policy(s.rows[id].attempt, job.attempt) && job.maxRetries == s.rows[id].maxRetries
  }

  ghost predicate Admits(policy: Policy, init: System, steps: seq<Step>, id: Id)
    requires IsRun(init, steps)
  {
    steps == [] ||
    var front := steps[..|steps| - 1];
    Admits(policy, init, front, id) && AdmitsStep(policy, After(init, front), steps[|steps| - 1], id)
  }

  /** The claim goes beyond the row's attempt count, or is a last attempt anyway. */
  predicate Harmless(m: int, before: int, after: int) {
    after > before || after >= m
  }

  ghost predicate LetsOnlyHarmless(policy: Policy, m: int) {
    forall before, after | 0 <= before && policy(before, after) :: Harmless(m, before, after)
  }

  // ---------------------------------------------------------------------------------------------
  // The invariant

  predicate Distinct(log: seq<int>) {
    forall i, j | 0 <= i < j < |log| :: log[i] != log[j]
  }

  /** Claims numbered m or higher are superseded only when they were given back before starting. */
  predicate LogOk(row: Row, log: seq<int>) {
    && Distinct(log)
    && (forall i | 0 <= i < |log| :: 1 <= log[i] <= row.attempt)
    && (forall i | 0 <= i < |log| && log[i] >= row.maxRetries :: log[i] == row.attempt && !row.state.Pending?)
  }

  /** The worker's claim took effect, by either path. */
  predicate HasClaimed(w: Worker) {
    !w.phase.Claiming? && (w.phase.Queued? ==> w.job.state.Running?)
  }

  predicate ClaimOk(row: Row, log: seq<int>, w: Worker) {
    && w.job.maxRetries == row.maxRetries && 1 <= w.job.attempt <= row.attempt
    && (row.leaseToken == Some(w.job.leaseToken) ==> w.job.attempt == row.attempt)
    && (w.phase.Queued? || w.phase.Ready? ==> w.job.attempt !in log)
    && (w.job.attempt >= row.maxRetries ==> w.job.attempt == row.attempt && !row.state.Pending?)
    && (w.job.state.Failed? || w.job.state.Pending? ==> w.job.attempt < row.maxRetries)
  }

  predicate Claimant(s: System, w: WorkerId, id: Id) {
    w in s.workers && s.workers[w].job.id == id && HasClaimed(s.workers[w])
  }

  ghost predicate Bounded(s: System, log: seq<int>, id: Id) {
    && (id !in s.rows ==> log == [] && forall w :: !Claimant(s, w, id))
    && (id in s.rows && s.rows[id].maxRetries > 0 ==>
          && s.rows[id].attempt >= 0
          && LogOk(s.rows[id], log)
          && (forall w | Claimant(s, w, id) :: ClaimOk(s.rows[id], log, s.workers[w]))
          && (forall v, w | Claimant(s, v, id) && Claimant(s, w, id) && v != w ::
                s.workers[v].job.attempt != s.workers[w].job.attempt))
  }

  lemma WriteFrame(s: System, log: seq<int>, w: WorkerId, id: Id)
    requires Inv(s) && Enabled(s, Write(w)) && Bounded(s, log, id) && id in s.rows && s.rows[id].maxRetries > 0
    ensures var row, row' := s.rows[id], UpdateStatement(s.rows, s.workers[w].job)[id];
            && row'.maxRetries == row.maxRetries && row'.attempt == row.attempt
            && (row'.leaseToken == row.leaseToken || row'.leaseToken.None?)
            && (row'.state.Pending? ==> row.state.Pending? || row.attempt < row.maxRetries)
  {
    assert WorkerOk(s.issued, s.workers[w]);
    if s.workers[w].job.id == id {
      assert Claimant(s, w, id) && ClaimOk(s.rows[id], log, s.workers[w]);
    }
  }

  /** The row keeps its attempt count unless it is claimed, and reopens with m attempts only by a release. */
  lemma RowFrame(s: System, log: seq<int>, step: Step, id: Id)
    requires Inv(s) && Enabled(s, step) && Bounded(s, log, id) && id in s.rows && s.rows[id].maxRetries > 0
    requires !KafkaTakes(s, step, id) && (!step.ClaimNext? || step.id != id)
    ensures id in Apply(s, step).rows
    ensures var row, row' := s.rows[id], Apply(s, step).rows[id];
            && row'.maxRetries == row.maxRetries && row'.attempt == row.attempt
            && (row'.leaseToken == row.leaseToken || row'.leaseToken.None?)
            && (row'.state.Pending? && !row.state.Pending? && row.attempt >= row.maxRetries ==>
                  step.Release? && Claimant(s, step.w, id)
                  && row.leaseToken == Some(s.workers[step.w].job.leaseToken))
  {
    if step.Write? {
      WriteFrame(s, log, step.w, id);
    }
  }

  /** A step that is no claim of the row keeps or ends each claimant, its attempt number and its token. */
  lemma ClaimantFrame(s: System, step: Step, v: WorkerId, id: Id)
    requires Enabled(s, step) && Claimant(Apply(s, step), v, id)
    requires !KafkaTakes(s, step, id) && (!step.ClaimNext? || step.id != id)
    ensures Claimant(s, v, id)
    ensures var w, w' := s.workers[v], Apply(s, step).workers[v];
            && w'.job.attempt == w.job.attempt && w'.job.leaseToken == w.job.leaseToken
            && w'.job.maxRetries == w.job.maxRetries
            && (w' == w || (Moves(step) && step.w == v && Next(s, step, w) == Some(w')))
            && !(step.Release? && step.w == v) && !(step.KafkaWrite? && step.w == v)
  {
  }

  lemma NextClaimOk(s: System, log: seq<int>, step: Step, v: Worker, row: Row, row': Row, log': seq<int>)
    requires ClaimOk(row, log, v) && HasClaimed(v) && Next(s, step, v).Some? && !step.KafkaWrite?
    requires HasClaimed(Next(s, step, v).value)
    requires row'.maxRetries == row.maxRetries > 0 && row'.attempt == row.attempt
    requires row'.leaseToken == row.leaseToken || row'.leaseToken.None?
    requires row'.state.Pending? ==>
               row.state.Pending? || row.attempt < row.maxRetries || v.job.attempt < row.maxRetries
    requires step.Read? || step.Write? ==> !v.phase.Queued? && !v.phase.Ready?
    ensures ClaimOk(row', log', Next(s, step, v).value)
  {
  }

  lemma StepKeepsClaim(s: System, log: seq<int>, step: Step, id: Id, v: WorkerId)
    requires Inv(s) && Enabled(s, step) && Bounded(s, log, id) && id in s.rows && s.rows[id].maxRetries > 0
    requires !KafkaTakes(s, step, id) && (!step.ClaimNext? || step.id != id)
    requires Claimant(Apply(s, step), v, id)
    ensures id in Apply(s, step).rows
    ensures ClaimOk(Apply(s, step).rows[id], LogAfter(s, log, step, id), Apply(s, step).workers[v])
  {
    var s' := Apply(s, step);
    var log' := LogAfter(s, log, step, id);
    RowFrame(s, log, step, id);
    ClaimantFrame(s, step, v, id);
    assert ClaimOk(s.rows[id], log, s.workers[v]);
    if step.Release? && Claimant(s, step.w, id) {
      assert ClaimOk(s.rows[id], log, s.workers[step.w]);
    }
    if s'.workers[v] == s.workers[v] {
      if step.Start? && s.workers[step.w].job.id == id && v != step.w {
        assert Claimant(s, step.w, id);
        assert s.workers[v].job.attempt != s.workers[step.w].job.attempt;
      }
    } else {
      NextClaimOk(s, log, step, s.workers[v], s.rows[id], s'.rows[id], log');
    }
  }

  lemma StepKeepsLog(s: System, log: seq<int>, step: Step, id: Id)
    requires Inv(s) && Enabled(s, step) && Bounded(s, log, id) && id in s.rows && s.rows[id].maxRetries > 0
    requires !KafkaTakes(s, step, id) && (!step.ClaimNext? || step.id != id)
    ensures id in Apply(s, step).rows && LogOk(Apply(s, step).rows[id], LogAfter(s, log, step, id))
  {
    RowFrame(s, log, step, id);
    if (step.Start? || step.Release?) && s.workers[step.w].job.id == id {
      assert Claimant(s, step.w, id) && ClaimOk(s.rows[id], log, s.workers[step.w]);
    }
  }

  /** A step that is no claim of the row. */
  lemma OtherStepKeepsBounded(s: System, log: seq<int>, step: Step, id: Id)
    requires Inv(s) && Enabled(s, step) && Bounded(s, log, id) && id in s.rows && s.rows[id].maxRetries > 0
    requires !KafkaTakes(s, step, id) && (!step.ClaimNext? || step.id != id)
    ensures Bounded(Apply(s, step), LogAfter(s, log, step, id), id)
  {
    var s', log' := Apply(s, step), LogAfter(s, log, step, id);
    RowFrame(s, log, step, id);
    StepKeepsLog(s, log, step, id);
    forall w | Claimant(s', w, id) ensures ClaimOk(s'.rows[id], log', s'.workers[w]) {
      StepKeepsClaim(s, log, step, id, w);
    }
    forall v, w | Claimant(s', v, id) && Claimant(s', w, id) && v != w
      ensures s'.workers[v].job.attempt != s'.workers[w].job.attempt
    {
      ClaimantFrame(s, step, v, id);
      ClaimantFrame(s, step, w, id);
    }
  }

  /** The claim of a pending row under number `a`: what the new worker and the old ones look like. */
  ghost predicate Claims(s: System, s': System, c: WorkerId, id: Id) {
    && id in s.rows && id in s'.rows && s.rows[id].state.Pending? && s'.rows[id].state.Running?
    && s'.rows[id].maxRetries == s.rows[id].maxRetries
    && c in s'.workers && s'.workers[c].job.id == id && s'.workers[c].job.state.Running?
    && s'.workers[c].job.maxRetries == s.rows[id].maxRetries
    && s'.workers[c].job.attempt == s'.rows[id].attempt
    && s'.rows[id].leaseToken == Some(s'.workers[c].job.leaseToken)
    && forall w | Claimant(s', w, id) && w != c ::
         Claimant(s, w, id) && s'.workers[w] == s.workers[w]
         && s.workers[w].job.leaseToken != s'.workers[c].job.leaseToken
  }

  lemma ClaimKeepsBounded(s: System, s': System, log: seq<int>, c: WorkerId, id: Id)
    requires Bounded(s, log, id) && Claims(s, s', c, id) && s.rows[id].maxRetries > 0
    requires Harmless(s.rows[id].maxRetries, s.rows[id].attempt, s'.rows[id].attempt)
    ensures Bounded(s', log, id)
  {
    forall w | Claimant(s', w, id) ensures ClaimOk(s'.rows[id], log, s'.workers[w]) {
      if w != c {
        assert ClaimOk(s.rows[id], log, s.workers[w]);
      }
    }
    forall v, w | Claimant(s', v, id) && Claimant(s', w, id) && v != w
      ensures s'.workers[v].job.attempt != s'.workers[w].job.attempt
    {
      assert v != c ==> ClaimOk(s.rows[id], log, s.workers[v]);
      assert w != c ==> ClaimOk(s.rows[id], log, s.workers[w]);
    }
  }

  lemma ClaimNextClaims(s: System, step: Step, id: Id)
    requires Inv(s) && Enabled(s, step) && step.ClaimNext? && step.id == id
    ensures Claims(s, Apply(s, step), step.w, id)
    ensures Apply(s, step).rows[id].attempt == s.rows[id].attempt + 1
  {
    var s' := Apply(s, step);
    forall w | Claimant(s', w, id) && w != step.w ensures s.workers[w].job.leaseToken != step.token {
      assert WorkerOk(s.issued, s.workers[w]);
    }
  }

  lemma KafkaClaims(s: System, step: Step, id: Id)
    requires Inv(s) && Enabled(s, step) && KafkaTakes(s, step, id)
    requires s.workers[step.w].job.maxRetries == s.rows[id].maxRetries
    ensures Claims(s, Apply(s, step), step.w, id)
    ensures Apply(s, step).rows[id].attempt == s.workers[step.w].job.attempt
  {
    var s', c := Apply(s, step), step.w;
    assert WorkerOk(s.issued, s.workers[c]) && Unused(s.workers[c], s.rows[id]);
    forall w | Claimant(s', w, id) && w != c
      ensures s.workers[w].job.leaseToken != s'.workers[c].job.leaseToken
    {
      assert OwnTokens(s.workers[c], s.workers[w]);
    }
  }

  lemma KeepsUnboundedRow(s: System, log: seq<int>, step: Step, id: Id)
    requires Enabled(s, step) && Bounded(s, log, id) && (id !in s.rows || s.rows[id].maxRetries <= 0)
    ensures Bounded(Apply(s, step), LogAfter(s, log, step, id), id)
  {
    var s' := Apply(s, step);
    if id !in s.rows {
      forall w | Claimant(s', w, id) ensures Claimant(s, w, id) {
        ClaimantFrame(s, step, w, id);
      }
      assert step.Start? ==> Claimant(s, step.w, s.workers[step.w].job.id);
    }
  }

  lemma StepKeepsBounded(policy: Policy, s: System, log: seq<int>, step: Step, id: Id)
    requires Inv(s) && Enabled(s, step) && Bounded(s, log, id) && AdmitsStep(policy, s, step, id)
    requires id in s.rows && s.rows[id].maxRetries > 0 ==> LetsOnlyHarmless(policy, s.rows[id].maxRetries)
    ensures Bounded(Apply(s, step), LogAfter(s, log, step, id), id)
  {
    if id !in s.rows || s.rows[id].maxRetries <= 0 {
      KeepsUnboundedRow(s, log, step, id);
    } else if step.ClaimNext? && step.id == id {
      ClaimNextClaims(s, step, id);
      ClaimKeepsBounded(s, Apply(s, step), log, step.w, id);
    } else if KafkaTakes(s, step, id) {
      KafkaClaims(s, step, id);
      ClaimKeepsBounded(s, Apply(s, step), log, step.w, id);
    } else {
      OtherStepKeepsBounded(s, log, step, id);
    }
  }

  /** MaxRetries is fixed when the row is created. */
  lemma MaxRetriesStays(s: System, step: Step, id: Id)
    requires Enabled(s, step) && id in s.rows
    ensures id in Apply(s, step).rows && Apply(s, step).rows[id].maxRetries == s.rows[id].maxRetries
  {
  }

  lemma {:induction false} RunKeepsBounded(policy: Policy, init: System, steps: seq<Step>, id: Id)
    requires IsRun(init, steps) && Admits(policy, init, steps, id)
    requires var s := After(init, steps);
             id in s.rows && s.rows[id].maxRetries > 0 ==> LetsOnlyHarmless(policy, s.rows[id].maxRetries)
    ensures Bounded(After(init, steps), Starts(init, steps, id), id)
  {
    if steps != [] {
      var front, last := steps[..|steps| - 1], steps[|steps| - 1];
      var s := After(init, front);
      if id in s.rows {
        MaxRetriesStays(s, last, id);
      }
      RunKeepsBounded(policy, init, front, id);
      RunKeepsInv(init, front);
      StepKeepsBounded(policy, s, Starts(init, front, id), last, id);
    }
  }

  /** Distinct numbers from 1 on, at most one of them m or more, are at most m many. */
  lemma CountDistinct(log: seq<int>, m: int)
    requires m > 0 && Distinct(log)
    requires forall i | 0 <= i < |log| :: 1 <= log[i]
    requires forall i, j | 0 <= i < |log| && 0 <= j < |log| && log[i] >= m && log[j] >= m :: log[i] == log[j]
    ensures |log| <= m
  {
    var folded := seq(|log|, i requires 0 <= i < |log| => if log[i] >= m then m else log[i]);
    assert Distinct(folded);
    Pigeonhole(folded, m);
  }

  lemma Without(log: seq<int>, k: nat, m: int)
    requires k < |log| && Distinct(log) && log[k] == m && forall i | 0 <= i < |log| :: 1 <= log[i] <= m
    ensures var rest := log[..k] + log[k + 1..];
            Distinct(rest) && forall i | 0 <= i < |rest| :: 1 <= rest[i] <= m - 1
  {
    var rest := log[..k] + log[k + 1..];
    forall i | 0 <= i < |rest| ensures rest[i] == log[if i < k then i else i + 1] && rest[i] != m {
      assert log[if i < k then i else i + 1] != log[k];
    }
  }

  lemma {:induction false} Pigeonhole(log: seq<int>, m: int)
    requires m >= 0 && Distinct(log) && forall i | 0 <= i < |log| :: 1 <= log[i] <= m
    ensures |log| <= m
    decreases m
  {
    if |log| > 0 {
      assert 1 <= log[0] <= m;
      if k :| 0 <= k < |log| && log[k] == m {
        Without(log, k, m);
        Pigeonhole(log[..k] + log[k + 1..], m - 1);
      } else {
        Pigeonhole(log, m - 1);
      }
    }
  }

  /**
   * In every run whose Kafka claims of the job are all harmless, a job with MaxRetries = m > 0 has its handler started
   * at most m times, whatever workers crash, leases expire, claims are given back, wait stale or fail to be recorded.
   */
  lemma HandlerStartsAtMostMaxRetries(policy: Policy, init: System, steps: seq<Step>, id: Id)
    requires IsRun(init, steps) && Admits(policy, init, steps, id)
    requires id in After(init, steps).rows && After(init, steps).rows[id].maxRetries > 0
    requires LetsOnlyHarmless(policy, After(init, steps).rows[id].maxRetries)
    ensures |Starts(init, steps, id)| <= After(init, steps).rows[id].maxRetries
    ensures Distinct(Starts(init, steps, id))
  {
    RunKeepsBounded(policy, init, steps, id);
    CountDistinct(Starts(init, steps, id), After(init, steps).rows[id].maxRetries);
  }

  /** No message for this job is delivered. */
  predicate NoMessageFor(steps: seq<Step>, id: Id) {
    forall i | 0 <= i < |steps| && steps[i].Deliver? :: steps[i].message.id != id
  }

  /** Every worker for the job came by a claim of ClaimNextJob. */
  ghost predicate NoKafka(s: System, id: Id) {
    forall w | w in s.workers && s.workers[w].job.id == id :: HasClaimed(s.workers[w])
  }

  lemma StepKeepsNoKafka(s: System, step: Step, id: Id)
    requires NoKafka(s, id) && Enabled(s, step) && (step.Deliver? ==> step.message.id != id)
    ensures NoKafka(Apply(s, step), id) && !KafkaTakes(s, step, id)
  {
  }

  lemma {:induction false} NoMessageNoClaim(policy: Policy, init: System, steps: seq<Step>, id: Id)
    requires IsRun(init, steps) && NoMessageFor(steps, id)
    ensures NoKafka(After(init, steps), id) && Admits(policy, init, steps, id)
  {
    if steps != [] {
      var front, last := steps[..|steps| - 1], steps[|steps| - 1];
      NoMessageNoClaim(policy, init, front, id);
      StepKeepsNoKafka(After(init, front), last, id);
    }
  }

  /** In particular the bound holds when the job's claims all use ClaimNextJob, whatever other jobs do. */
  lemma BoundWithoutMessages(init: System, steps: seq<Step>, id: Id)
    requires IsRun(init, steps) && NoMessageFor(steps, id)
    requires id in After(init, steps).rows && After(init, steps).rows[id].maxRetries > 0
    ensures |Starts(init, steps, id)| <= After(init, steps).rows[id].maxRetries
  {
    var none: Policy := (before, after) => false;
    NoMessageNoClaim(none, init, steps, id);
    HandlerStartsAtMostMaxRetries(none, init, steps, id);
  }
}
