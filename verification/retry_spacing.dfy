/** A rescheduled job is left alone for its whole backoff delay, except by a claim made from a Kafka message. */
module RetrySpacing {
  import opened Common
  import opened Jobs
  import opened LeaseProtocol
  import opened Fencing
  import opened BoundedExecution
  import Backoff

  /** The worker with this token, if it still exists, is recording a retry for time `at`. */
  ghost predicate Recording(s: System, token: Token, at: Time) {
    && token != "" && token in s.issued
    && forall w | w in s.workers && s.workers[w].job.leaseToken == token :: Records(s.workers[w], at)
  }

  /** What a worker that is recording a retry looks like. */
  predicate Records(w: Worker, at: Time) {
    && (w.phase.Reading? || w.phase.Writing?) && w.retryAt == at
    && (w.job.state.Failed? || (w.job.state.Pending? && w.job.scheduledAt == Some(at)))
  }

  lemma NextKeepsRecording(s: System, step: Step, v: Worker, at: Time)
    requires Records(v, at) && Next(s, step, v).Some? && (step.Read? || step.Write?)
    ensures Records(Next(s, step, v).value, at) && Next(s, step, v).value.job.leaseToken == v.job.leaseToken
  {
  }

  /** A worker with this token had it before the step, and only reading or writing moves it. */
  lemma RecordingFrame(s: System, step: Step, token: Token, at: Time, w: WorkerId)
    requires Enabled(s, step) && Recording(s, token, at)
    requires w in Apply(s, step).workers && Apply(s, step).workers[w].job.leaseToken == token
    ensures w in s.workers && s.workers[w].job.leaseToken == token
    ensures var v, v' := s.workers[w], Apply(s, step).workers[w];
            v' == v || ((step.Read? || step.Write?) && Next(s, step, v) == Some(v'))
  {
    assert w in s.workers && s.workers[w].job.leaseToken == token ==> Records(s.workers[w], at);
  }

  lemma StepKeepsRecording(s: System, step: Step, token: Token, at: Time)
    requires Enabled(s, step) && Recording(s, token, at)
    ensures Recording(Apply(s, step), token, at)
  {
    var s' := Apply(s, step);
    forall w | w in s'.workers && s'.workers[w].job.leaseToken == token ensures Records(s'.workers[w], at) {
      RecordingFrame(s, step, token, at, w);
      if s'.workers[w] != s.workers[w] {
        NextKeepsRecording(s, step, s.workers[w], at);
      }
    }
  }

  /** Not claimable before `at`. */
  predicate Resting(now: Time, row: Row, at: Time) {
    at <= now || Final(row) || (row.state.Pending? && row.scheduledAt == Some(at) && row.leaseToken.None?)
  }

  lemma StepKeepsResting(s: System, step: Step, id: Id, at: Time)
    requires Inv(s) && Enabled(s, step) && id in s.rows && Resting(s.now, s.rows[id], at) && !KafkaTakes(s, step, id)
    ensures id in Apply(s, step).rows && Resting(Apply(s, step).now, Apply(s, step).rows[id], at)
  {
    if step.Write? {
      assert WorkerOk(s.issued, s.workers[step.w]);
    }
  }

  lemma FailStartsRecording(s: System, step: Step)
    requires Inv(s) && Enabled(s, step) && step.Fail?
    requires ShouldRetry(s.workers[step.w].job, step.permanent, s.config.maxAttempts)
    ensures Recording(Apply(s, step), s.workers[step.w].job.leaseToken, s.now + step.delay)
  {
    assert WorkerOk(s.issued, s.workers[step.w]);
    var s', token := Apply(s, step), s.workers[step.w].job.leaseToken;
    forall w | w in s'.workers && w != step.w ensures s'.workers[w].job.leaseToken != token {
      assert OwnTokens(s.workers[step.w], s.workers[w]);
    }
  }

  lemma {:induction false} RecordingLasts(init: System, steps: seq<Step>, i: nat, j: nat, token: Token, at: Time)
    requires IsRun(init, steps) && i <= j <= |steps| && Recording(At(init, steps, i), token, at)
    ensures Recording(At(init, steps, j), token, at)
    decreases j - i
  {
    if i < j {
      AtStep(init, steps, i);
      StepKeepsRecording(At(init, steps, i), steps[i], token, at);
      RecordingLasts(init, steps, i + 1, j, token, at);
    }
  }

  ghost predicate RestsAt(init: System, steps: seq<Step>, k: nat, id: Id, at: Time)
    requires IsRun(init, steps) && k <= |steps|
  {
    id in Table(init, steps, k) && Resting(At(init, steps, k).now, Table(init, steps, k)[id], at)
  }

  ghost predicate KafkaTakesAt(init: System, steps: seq<Step>, k: nat, id: Id)
    requires IsRun(init, steps) && k < |steps|
  {
    Enabled(At(init, steps, k), steps[k]) && KafkaTakes(At(init, steps, k), steps[k], id)
  }

  /** From step `i` up to step `j` no Kafka claim takes the row. */
  ghost predicate NoKafkaClaim(init: System, steps: seq<Step>, i: nat, j: nat, id: Id)
    requires IsRun(init, steps) && j <= |steps|
  {
    forall k | i <= k < j :: !KafkaTakesAt(init, steps, k, id)
  }

  lemma {:induction false} RestingLasts(init: System, steps: seq<Step>, i: nat, j: nat, id: Id, at: Time)
    requires IsRun(init, steps) && i <= j <= |steps| && NoKafkaClaim(init, steps, i, j, id)
    requires RestsAt(init, steps, i, id, at)
    ensures RestsAt(init, steps, j, id, at)
    decreases j - i
  {
    if i < j {
      AtStep(init, steps, i);
      assert !KafkaTakesAt(init, steps, i, id);
      StepKeepsResting(At(init, steps, i), steps[i], id, at);
      RestingLasts(init, steps, i + 1, j, id, at);
    }
  }

  /** Step `i` is the second write of scheduleRetry by the worker holding `token`, and it took effect. */
  ghost predicate ReschedulesAt(init: System, steps: seq<Step>, i: nat, id: Id, token: Token)
    requires IsRun(init, steps) && i < |steps|
  {
    && steps[i].Write? && steps[i].w in At(init, steps, i).workers
    && var job := At(init, steps, i).workers[steps[i].w].job;
       job.id == id && job.leaseToken == token && job.state.Pending? && Takes(Table(init, steps, i), job)
  }

  lemma RescheduleRests(s: System, w: WorkerId, id: Id, token: Token, at: Time)
    requires Recording(s, token, at) && Enabled(s, Write(w)) && s.workers[w].job.leaseToken == token
    requires s.workers[w].job.id == id && s.workers[w].job.state.Pending? && Takes(s.rows, s.workers[w].job)
    ensures id in Apply(s, Write(w)).rows && Resting(s.now, Apply(s, Write(w)).rows[id], at)
  {
  }

  lemma FailThenReschedule(init: System, steps: seq<Step>, f: nat, i: nat, id: Id, token: Token, at: Time)
    requires IsRun(init, steps) && f < i < |steps|
    requires Recording(At(init, steps, f + 1), token, at) && ReschedulesAt(init, steps, i, id, token)
    ensures RestsAt(init, steps, i + 1, id, at)
  {
    RecordingLasts(init, steps, f + 1, i, token, at);
    AtStep(init, steps, i);
    RescheduleRests(At(init, steps, i), steps[i].w, id, token, at);
  }

  /** At step `f` a handler fails, its worker holds `token` and will retry, and the retry is due at `at`. */
  ghost predicate FailsAt(init: System, steps: seq<Step>, f: nat, token: Token, at: Time)
    requires IsRun(init, steps) && f < |steps|
  {
    && steps[f].Fail? && steps[f].w in At(init, steps, f).workers
    && var s := At(init, steps, f);
       && ShouldRetry(s.workers[steps[f].w].job, steps[f].permanent, s.config.maxAttempts)
       && token == s.workers[steps[f].w].job.leaseToken && at == s.now + steps[f].delay
  }

  lemma FailRecords(init: System, steps: seq<Step>, f: nat, token: Token, at: Time)
    requires IsRun(init, steps) && f < |steps| && FailsAt(init, steps, f, token, at)
    ensures Recording(At(init, steps, f + 1), token, at)
  {
    AtStep(init, steps, f);
    FailStartsRecording(At(init, steps, f), steps[f]);
  }

  /** A handler fails at step `f`, and step `i` records its retry for time `at`. */
  ghost predicate Retried(init: System, steps: seq<Step>, f: nat, i: nat, id: Id, token: Token, at: Time)
    requires IsRun(init, steps) && f < i < |steps|
  {
    FailsAt(init, steps, f, token, at) && ReschedulesAt(init, steps, i, id, token)
  }

  lemma FailThenRests(init: System, steps: seq<Step>, f: nat, i: nat, id: Id, token: Token, at: Time)
    requires IsRun(init, steps) && f < i < |steps| && Retried(init, steps, f, i, id, token, at)
    ensures RestsAt(init, steps, i + 1, id, at)
  {
    FailRecords(init, steps, f, token, at);
    FailThenReschedule(init, steps, f, i, id, token, at);
  }

  /** Time `at` has come when step `j` is taken. */
  ghost predicate HasCome(init: System, steps: seq<Step>, j: nat, at: Time)
    requires IsRun(init, steps) && j <= |steps|
  {
    at <= At(init, steps, j).now
  }

  /** The row rests from after step `i` on and is claimed at step `j`. */
  lemma RestThenClaim(init: System, steps: seq<Step>, i: nat, j: nat, id: Id, at: Time)
    requires IsRun(init, steps) && i < j < |steps| && NoKafkaClaim(init, steps, i + 1, j, id)
    requires RestsAt(init, steps, i + 1, id, at)
    requires steps[j].ClaimNext? && steps[j].id == id
    ensures HasCome(init, steps, j, at)
  {
    RestingLasts(init, steps, i + 1, j, id, at);
    AtStep(init, steps, j);
  }

  /**
   * When a handler fails at step `f`, its retry is recorded at step `i` and ClaimNextJob takes the job again at step
   * `j`, with no Kafka claim of it in between, that claim comes no earlier than the time drawn at the failure: the
   * moment of the failure plus the backoff delay.
   */
  lemma {:induction false} RetryIsNotClaimedEarly(
    init: System, steps: seq<Step>, f: nat, i: nat, j: nat, id: Id, token: Token, at: Time)
    requires IsRun(init, steps) && f < i < j < |steps| && NoKafkaClaim(init, steps, i + 1, j, id)
    requires Retried(init, steps, f, i, id, token, at)
    requires steps[j].ClaimNext? && steps[j].id == id
    ensures HasCome(init, steps, j, at)
  {
    assert RestsAt(init, steps, i + 1, id, at) by {
      FailThenRests(init, steps, f, i, id, token, at);
    }
    RestThenClaim(init, steps, i, j, id, at);
  }

  /**
   * A Kafka claim looks at the scheduled_at of its message and not at the row's: from every state in which a row rests,
   * a message that is itself due takes it at once, in three steps.
   */
  lemma KafkaClaimsEarly(init: System, steps: seq<Step>, id: Id, at: Time, w: WorkerId, message: Job, token: Token)
    returns (early: seq<Step>)
    requires IsRun(init, steps) && id in After(init, steps).rows
    requires var s := After(init, steps);
             && s.now < at && s.rows[id].state.Pending? && s.rows[id].scheduledAt == Some(at)
             && w !in s.workers && Fresh(s, token)
    requires message.id == id && message.state.Pending? && message.leaseToken == ""
    requires NotEarly(message, After(init, steps).now)
    ensures early == steps + [Deliver(w, message), KafkaRead(w, token), KafkaWrite(w)] && IsRun(init, early)
    ensures At(init, early, |steps|) == After(init, steps)
    ensures ClaimsAt(init, early, |steps| + 2, id) && At(init, early, |steps| + 2).now < at
  {
    RunKeepsInv(init, steps);
    TakenAtOnce(After(init, steps), id, w, message, token);
    var delivered := Extend(init, steps, Deliver(w, message));
    var read := Extend(init, delivered, KafkaRead(w, token));
    early := Extend(init, read, KafkaWrite(w));
    assert early[..|steps|] == steps && early[..|steps| + 2] == read;
  }

  lemma TakenAtOnce(s: System, id: Id, w: WorkerId, message: Job, token: Token)
    requires Inv(s) && id in s.rows && s.rows[id].state.Pending? && w !in s.workers && Fresh(s, token)
    requires message.id == id && message.state.Pending? && message.leaseToken == "" && NotEarly(message, s.now)
    ensures var s1 := Apply(s, Deliver(w, message));
            && Enabled(s1, KafkaRead(w, token))
            && var s2 := Apply(s1, KafkaRead(w, token));
               && Enabled(s2, KafkaWrite(w)) && s2.now == s.now
               && s2.workers[w].job.id == id && Takes(s2.rows, s2.workers[w].job)
  {
    assert RowOk(s.issued, s.rows[id]);
  }

  /** With the engine's own delays that wait is at least the unjittered closed form for the attempt that failed. */
  lemma RetryWaitsForTheBackoff(
    init: System, steps: seq<Step>, f: nat, i: nat, j: nat, id: Id, token: Token, at: Time, c: Backoff.Config)
    requires IsRun(init, steps) && f < i < j < |steps| && NoKafkaClaim(init, steps, i + 1, j, id)
    requires Retried(init, steps, f, i, id, token, at)
    requires steps[j].ClaimNext? && steps[j].id == id
    requires Backoff.Normal(c)
    requires forall a, d :: At(init, steps, f).config.delays(a, d) ==> Backoff.IsDelay(c, a, d)
    ensures var attempt := At(init, steps, f).workers[steps[f].w].job.attempt;
            At(init, steps, j).now - At(init, steps, f).now >= Backoff.Unjittered(c, attempt).Floor > 0
  {
    RetryIsNotClaimedEarly(init, steps, f, i, j, id, token, at);
    AtStep(init, steps, f);
    Backoff.DelayAtLeastUnjittered(c, At(init, steps, f).workers[steps[f].w].job.attempt, steps[f].delay);
  }
}
