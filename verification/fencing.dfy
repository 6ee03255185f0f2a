/** Safety of the lease protocol over whole runs, with every read and write interleaved freely. */
module Fencing {
  import opened Common
  import opened Jobs
  import opened LeaseProtocol

  lemma {:induction false} PrefixIsRun(init: System, steps: seq<Step>, k: nat)
    requires IsRun(init, steps) && k <= |steps|
    ensures IsRun(init, steps[..k])
    decreases |steps|
  {
    if k == |steps| {
      assert steps[..k] == steps;
    } else {
      PrefixIsRun(init, steps[..|steps| - 1], k);
      assert steps[..|steps| - 1][..k] == steps[..k];
    }
  }

  /** The state after the first `k` steps of a run. */
  ghost function At(init: System, steps: seq<Step>, k: nat): (s: System)
    requires IsRun(init, steps) && k <= |steps|
  {
    PrefixIsRun(init, steps, k);
    After(init, steps[..k])
  }

  lemma AtStep(init: System, steps: seq<Step>, k: nat)
    requires IsRun(init, steps) && k < |steps|
    ensures Inv(At(init, steps, k)) && Enabled(At(init, steps, k), steps[k])
    ensures At(init, steps, k + 1) == Apply(At(init, steps, k), steps[k])
  {
    PrefixIsRun(init, steps, k);
    PrefixIsRun(init, steps, k + 1);
    RunKeepsInv(init, steps[..k]);
    assert steps[..k + 1][..k] == steps[..k];
  }

  /** The table after `k` steps. */
  ghost function Table(init: System, steps: seq<Step>, k: nat): (rows: Rows)
    requires IsRun(init, steps) && k <= |steps|
  {
    At(init, steps, k).rows
  }

  lemma {:induction false} RowsStay(init: System, steps: seq<Step>, i: nat, j: nat)
    requires IsRun(init, steps) && i <= j <= |steps|
    ensures Table(init, steps, i).Keys <= Table(init, steps, j).Keys
    decreases j - i
  {
    if i < j {
      AtStep(init, steps, i);
      RowsStay(init, steps, i + 1, j);
    }
  }

  // ---------------------------------------------------------------------------------------------
  // Fencing

  /** The calls a worker makes to the store. */
  predicate WorkerCall(step: Step) {
    step.Release? || step.KafkaWrite? || step.Write? || step.Renew?
  }

  /** While a token is in a row, only calls carrying that token change the row. */
  lemma OnlyTheHolderWrites(init: System, steps: seq<Step>, k: nat, id: Id)
    requires IsRun(init, steps) && k < |steps| && WorkerCall(steps[k])
    requires id in Table(init, steps, k) && Table(init, steps, k)[id].leaseToken.Some?
    requires id in Table(init, steps, k + 1) && Table(init, steps, k + 1)[id] != Table(init, steps, k)[id]
    ensures steps[k].w in At(init, steps, k).workers
    ensures var job := At(init, steps, k).workers[steps[k].w].job;
            job.id == id && Some(job.leaseToken) == Table(init, steps, k)[id].leaseToken
    ensures !steps[k].KafkaWrite?
  {
    AtStep(init, steps, k);
    var s := At(init, steps, k);
    var w := steps[k].w;
    assert WorkerOk(s.issued, s.workers[w]) && RowOk(s.issued, s.rows[id]) && Unused(s.workers[w], s.rows[id]);
  }

  /** `token` was used for a claim of row `id` and the row no longer holds it. */
  ghost predicate Lost(s: System, id: Id, token: Token) {
    && token != "" && token in s.issued && id in s.rows && s.rows[id].leaseToken != Some(token)
    && forall w | w in s.workers && s.workers[w].phase.Claiming? :: s.workers[w].job.leaseToken != token
  }

  lemma StaysLost(s: System, step: Step, id: Id, token: Token)
    requires Inv(s) && Enabled(s, step) && Lost(s, id, token)
    ensures Lost(Apply(s, step), id, token)
  {
    RowTokenFrame(s, step, id);
    var s' := Apply(s, step);
    forall w | w in s'.workers && s'.workers[w].phase.Claiming? ensures s'.workers[w].job.leaseToken != token {
      ClaimingFrame(s, step, w);
    }
  }

  lemma LeavesLost(s: System, step: Step, id: Id, token: Token)
    requires Inv(s) && Enabled(s, step) && id in s.rows && s.rows[id].leaseToken == Some(token)
    requires id in Apply(s, step).rows && Apply(s, step).rows[id].leaseToken != Some(token)
    ensures Lost(Apply(s, step), id, token)
  {
    assert RowOk(s.issued, s.rows[id]);
    var s' := Apply(s, step);
    forall w | w in s'.workers && s'.workers[w].phase.Claiming? ensures s'.workers[w].job.leaseToken != token {
      ClaimingFrame(s, step, w);
      if w in s.workers {
        assert Unused(s.workers[w], s.rows[id]);
      }
    }
  }

  lemma {:induction false} LostBetween(init: System, steps: seq<Step>, i: nat, j: nat, id: Id, token: Token)
    requires IsRun(init, steps) && i <= j <= |steps|
    requires id in Table(init, steps, i) && id in Table(init, steps, j)
    requires Table(init, steps, i)[id].leaseToken == Some(token) || Lost(At(init, steps, i), id, token)
    requires Table(init, steps, j)[id].leaseToken != Some(token)
    ensures Lost(At(init, steps, j), id, token)
    decreases j - i
  {
    if i < j {
      AtStep(init, steps, i);
      RowsStay(init, steps, i, i + 1);
      if Lost(At(init, steps, i), id, token) {
        StaysLost(At(init, steps, i), steps[i], id, token);
      } else if Table(init, steps, i + 1)[id].leaseToken != Some(token) {
        LeavesLost(At(init, steps, i), steps[i], id, token);
      }
      LostBetween(init, steps, i + 1, j, id, token);
    }
  }

  lemma {:induction false} LostStays(init: System, steps: seq<Step>, j: nat, k: nat, id: Id, token: Token)
    requires IsRun(init, steps) && j <= k <= |steps| && Lost(At(init, steps, j), id, token)
    ensures Lost(At(init, steps, k), id, token)
    decreases k - j
  {
    if j < k {
      AtStep(init, steps, j);
      StaysLost(At(init, steps, j), steps[j], id, token);
      LostStays(init, steps, j + 1, k, id, token);
    }
  }

  /** Once a token has left a row it never returns, and a call carrying it never changes the row again. */
  lemma LostTokenIsFenced(init: System, steps: seq<Step>, i: nat, j: nat, k: nat, id: Id, token: Token)
    requires IsRun(init, steps) && i <= j <= k <= |steps|
    requires id in Table(init, steps, i) && Table(init, steps, i)[id].leaseToken == Some(token)
    requires id in Table(init, steps, j) && Table(init, steps, j)[id].leaseToken != Some(token)
    ensures id in Table(init, steps, k) && Table(init, steps, k)[id].leaseToken != Some(token)
    ensures k < |steps| && WorkerCall(steps[k]) && steps[k].w in At(init, steps, k).workers
            && At(init, steps, k).workers[steps[k].w].job.leaseToken == token
            ==> id in Table(init, steps, k + 1) && Table(init, steps, k + 1)[id] == Table(init, steps, k)[id]
  {
    LostBetween(init, steps, i, j, id, token);
    LostStays(init, steps, j, k, id, token);
    if k < |steps| && WorkerCall(steps[k]) {
      AtStep(init, steps, k);
      if At(init, steps, k).workers[steps[k].w].job.leaseToken == token {
        FencedCall(At(init, steps, k), steps[k], id, token);
      }
    }
  }

  lemma FencedCall(s: System, step: Step, id: Id, token: Token)
    requires Inv(s) && Enabled(s, step) && Lost(s, id, token)
    requires WorkerCall(step) && s.workers[step.w].job.leaseToken == token
    ensures id in Apply(s, step).rows && Apply(s, step).rows[id] == s.rows[id]
  {
    assert WorkerOk(s.issued, s.workers[step.w]);
  }

  // ---------------------------------------------------------------------------------------------
  // One claim per PENDING period

  /** Step `k` is a claim that took the row, by the reconciler's path or by Kafka's. */
  ghost predicate ClaimsAt(init: System, steps: seq<Step>, k: nat, id: Id)
    requires IsRun(init, steps) && k < |steps|
  {
    || (steps[k].ClaimNext? && steps[k].id == id)
    || (steps[k].KafkaWrite? && steps[k].w in At(init, steps, k).workers
        && At(init, steps, k).workers[steps[k].w].job.id == id
        && Takes(Table(init, steps, k), At(init, steps, k).workers[steps[k].w].job))
  }

  /** Step `k` puts the row back to PENDING. */
  ghost predicate ReopensAt(init: System, steps: seq<Step>, k: nat, id: Id)
    requires IsRun(init, steps) && k < |steps|
  {
    && (steps[k].Release? || steps[k].Requeue? || steps[k].Write?)
    && id in Table(init, steps, k) && !Table(init, steps, k)[id].state.Pending?
    && id in Table(init, steps, k + 1) && Table(init, steps, k + 1)[id].state.Pending?
  }

  lemma ClaimTakesPending(init: System, steps: seq<Step>, k: nat, id: Id)
    requires IsRun(init, steps) && k < |steps| && ClaimsAt(init, steps, k, id)
    ensures id in Table(init, steps, k) && Table(init, steps, k)[id].state.Pending?
    ensures id in Table(init, steps, k + 1) && Table(init, steps, k + 1)[id].state.Running?
    ensures Table(init, steps, k + 1)[id].leaseToken.Some?
  {
    AtStep(init, steps, k);
    var s := At(init, steps, k);
    if steps[k].KafkaWrite? {
      var w := steps[k].w;
      assert WorkerOk(s.issued, s.workers[w]) && Unused(s.workers[w], s.rows[id]);
    }
  }

  lemma ReopenedHere(init: System, steps: seq<Step>, k: nat, id: Id)
    requires IsRun(init, steps) && k < |steps|
    requires id in Table(init, steps, k) && !Table(init, steps, k)[id].state.Pending?
    requires id in Table(init, steps, k + 1) && Table(init, steps, k + 1)[id].state.Pending?
    ensures ReopensAt(init, steps, k, id)
  {
    AtStep(init, steps, k);
    var s := At(init, steps, k);
    assert steps[k].KafkaWrite? ==> WorkerOk(s.issued, s.workers[steps[k].w]);
  }

  lemma {:induction false} ReopenedBetween(init: System, steps: seq<Step>, i: nat, j: nat, id: Id) returns (k: nat)
    requires IsRun(init, steps) && i <= j <= |steps|
    requires id in Table(init, steps, i) && !Table(init, steps, i)[id].state.Pending?
    requires id in Table(init, steps, j) && Table(init, steps, j)[id].state.Pending?
    ensures i <= k < j && ReopensAt(init, steps, k, id)
    decreases j - i
  {
    RowsStay(init, steps, i, i + 1);
    if Table(init, steps, i + 1)[id].state.Pending? {
      k := i;
      ReopenedHere(init, steps, i, id);
    } else {
      k := ReopenedBetween(init, steps, i + 1, j, id);
    }
  }

  /** Two claims of one row, whichever paths they came by, are separated by a return to PENDING. */
  lemma OneClaimPerPendingPeriod(init: System, steps: seq<Step>, i: nat, j: nat, id: Id)
    requires IsRun(init, steps) && i < j < |steps|
    requires ClaimsAt(init, steps, i, id) && ClaimsAt(init, steps, j, id)
    ensures exists k :: i < k < j && ReopensAt(init, steps, k, id)
  {
    ClaimTakesPending(init, steps, i, id);
    ClaimTakesPending(init, steps, j, id);
    var k := ReopenedBetween(init, steps, i + 1, j, id);
  }

  // ---------------------------------------------------------------------------------------------
  // Completion

  /** Finished for good: no token is left that could let a late write through. */
  predicate Final(row: Row) {
    (row.state.Completed? || row.state.Dead?) && row.leaseToken.None?
  }

  lemma FinalRowStep(s: System, step: Step, id: Id)
    requires Inv(s) && Enabled(s, step) && id in s.rows && Final(s.rows[id])
    ensures id in Apply(s, step).rows && Final(Apply(s, step).rows[id])
    ensures Apply(s, step).rows[id] != s.rows[id] ==>
              step.CancelWrite? && Apply(s, step).rows[id] == s.rows[id].(state := Dead)
  {
    if step.KafkaWrite? || step.Write? {
      assert WorkerOk(s.issued, s.workers[step.w]);
    }
  }

  /** A finished row never changes again, except that a racing cancel may relabel COMPLETED as DEAD. */
  lemma {:induction false} FinalIsFinal(init: System, steps: seq<Step>, i: nat, j: nat, id: Id)
    requires IsRun(init, steps) && i <= j <= |steps|
    requires id in Table(init, steps, i) && Final(Table(init, steps, i)[id])
    ensures id in Table(init, steps, j)
    ensures var before, after := Table(init, steps, i)[id], Table(init, steps, j)[id];
            Final(after) && (after == before || after == before.(state := Dead))
    decreases j - i
  {
    if i < j {
      AtStep(init, steps, i);
      FinalRowStep(At(init, steps, i), steps[i], id);
      FinalIsFinal(init, steps, i + 1, j, id);
    }
  }

  /** Once COMPLETED, a row is never again PENDING, RUNNING or FAILED. */
  lemma CompletionIsFinal(init: System, steps: seq<Step>, i: nat, j: nat, id: Id)
    requires IsRun(init, steps) && i <= j <= |steps|
    requires id in Table(init, steps, i) && Table(init, steps, i)[id].state.Completed?
    ensures id in Table(init, steps, j)
    ensures var before, after := Table(init, steps, i)[id], Table(init, steps, j)[id];
            after == before || after == before.(state := Dead)
  {
    PrefixIsRun(init, steps, i);
    RunKeepsInv(init, steps[..i]);
    assert RowOk(At(init, steps, i).issued, Table(init, steps, i)[id]);
    FinalIsFinal(init, steps, i, j, id);
  }

  /** Step `k` is an UpdateJob write of COMPLETED that took effect. */
  ghost predicate CompletesAt(init: System, steps: seq<Step>, k: nat, id: Id)
    requires IsRun(init, steps) && k < |steps|
  {
    && steps[k].Write? && steps[k].w in At(init, steps, k).workers
    && var job := At(init, steps, k).workers[steps[k].w].job;
       job.id == id && job.state.Completed? && Takes(Table(init, steps, k), job)
  }

  /** COMPLETED is written at most once per job. */
  lemma CompletedAtMostOnce(init: System, steps: seq<Step>, i: nat, j: nat, id: Id)
    requires IsRun(init, steps) && i <= j < |steps|
    requires CompletesAt(init, steps, i, id) && CompletesAt(init, steps, j, id)
    ensures i == j
  {
    AtStep(init, steps, i);
    AtStep(init, steps, j);
    if i < j {
      FinalIsFinal(init, steps, i + 1, j, id);
    }
  }

  // ---------------------------------------------------------------------------------------------
  // Cancellation

  /** A write of a worker that still holds the row's token, to some state other than DEAD. */
  ghost predicate Revives(s: System, step: Step, id: Id)
    requires Enabled(s, step) && id in s.rows
  {
    step.Write? && var job := s.workers[step.w].job;
                   job.id == id && !job.state.Dead? && s.rows[id].leaseToken == Some(job.leaseToken)
  }

  lemma DeadStep(s: System, step: Step, id: Id)
    requires Inv(s) && Enabled(s, step) && id in s.rows && s.rows[id].state.Dead?
    ensures id in Apply(s, step).rows && (!Apply(s, step).rows[id].state.Dead? <==> Revives(s, step, id))
  {
    if step.KafkaWrite? {
      assert WorkerOk(s.issued, s.workers[step.w]) && Unused(s.workers[step.w], s.rows[id]);
    } else if step.Write? {
      assert WorkerOk(s.issued, s.workers[step.w]);
    }
  }

  /** Some worker read the row before it became DEAD and still has its write to do. */
  ghost predicate Threatened(s: System, id: Id)
    requires id in s.rows
  {
    exists w | w in s.workers :: s.workers[w].phase.Writing? && Revives(s, Write(w), id)
  }

  lemma UnthreatenedStep(s: System, step: Step, id: Id)
    requires Inv(s) && Enabled(s, step) && id in s.rows && s.rows[id].state.Dead? && !Threatened(s, id)
    ensures id in Apply(s, step).rows && Apply(s, step).rows[id].state.Dead? && !Threatened(Apply(s, step), id)
  {
    DeadStep(s, step, id);
    if step.Write? && Revives(s, step, id) {
      assert false;
    }
    var s' := Apply(s, step);
    RowTokenFrame(s, step, id);
    forall w | w in s'.workers && s'.workers[w].phase.Writing? ensures !Revives(s', Write(w), id) {
      if w in s.workers && s.workers[w].phase.Writing? {
        assert !Revives(s, Write(w), id);
        assert WorkerOk(s.issued, s.workers[w]);
        if step.KafkaWrite? {
          assert Unused(s.workers[step.w], s.rows[id]);
        }
      }
    }
  }

  lemma {:induction false} UnthreatenedRun(init: System, steps: seq<Step>, i: nat, id: Id)
    requires IsRun(init, steps) && i <= |steps| && id in Table(init, steps, i)
    requires Table(init, steps, i)[id].state.Dead? && !Threatened(At(init, steps, i), id)
    ensures id in After(init, steps).rows && After(init, steps).rows[id].state.Dead?
    decreases |steps| - i
  {
    if i < |steps| {
      AtStep(init, steps, i);
      UnthreatenedStep(At(init, steps, i), steps[i], id);
      UnthreatenedRun(init, steps, i + 1, id);
    } else {
      assert steps[..i] == steps;
    }
  }

  /** Every continuation of the run leaves the row DEAD. */
  ghost predicate DeadForEver(init: System, steps: seq<Step>, id: Id) {
    forall more: seq<Step> | IsRun(init, steps + more) ::
      id in After(init, steps + more).rows && After(init, steps + more).rows[id].state.Dead?
  }

  /** A DEAD row stays DEAD in every continuation exactly when no worker is between its read and its write. */
  lemma CancelSticksIff(init: System, steps: seq<Step>, id: Id)
    requires IsRun(init, steps) && id in After(init, steps).rows && After(init, steps).rows[id].state.Dead?
    ensures DeadForEver(init, steps, id) <==> !Threatened(After(init, steps), id)
  {
    var s := After(init, steps);
    if Threatened(s, id) {
      var w :| w in s.workers && s.workers[w].phase.Writing? && Revives(s, Write(w), id);
      RunKeepsInv(init, steps);
      DeadStep(s, Write(w), id);
      assert (steps + [Write(w)])[..|steps|] == steps;
      assert IsRun(init, steps + [Write(w)]);
    } else {
      forall more: seq<Step> | IsRun(init, steps + more)
        ensures id in After(init, steps + more).rows && After(init, steps + more).rows[id].state.Dead?
      {
        assert (steps + more)[..|steps|] == steps;
        UnthreatenedRun(init, steps + more, |steps|, id);
      }
    }
  }

  ghost function Extend(init: System, steps: seq<Step>, step: Step): (more: seq<Step>)
    requires IsRun(init, steps) && Enabled(After(init, steps), step)
    ensures more == steps + [step] && IsRun(init, more) && After(init, more) == Apply(After(init, steps), step)
  {
    assert (steps + [step])[..|steps|] == steps;
    steps + [step]
  }

  /** The worker has read RUNNING and is about to record FAILED, and still holds the row. */
  ghost predicate Retrying(s: System, w: WorkerId) {
    && w in s.workers && s.workers[w].phase.Writing? && s.workers[w].job.state.Failed?
    && Holding(s.rows, s.workers[w].job)
  }

  /** A whole CancelJob at that moment succeeds and is then undone: the job ends up PENDING again. */
  lemma CancelDuringRetryIsLost(init: System, steps: seq<Step>, w: WorkerId, c: CallId)
    returns (cancelled: seq<Step>, undone: seq<Step>)
    requires IsRun(init, steps) && Retrying(After(init, steps), w) && c !in After(init, steps).cancels
    ensures cancelled == steps + [CancelRead(c, After(init, steps).workers[w].job.id), CancelWrite(c)]
    ensures undone == cancelled + [Write(w), Read(w), Write(w)] && IsRun(init, cancelled) && IsRun(init, undone)
    ensures var id := After(init, steps).workers[w].job.id;
            && id in After(init, cancelled).rows && After(init, cancelled).rows[id].state.Dead?
            && After(init, cancelled).rows[id].leaseToken.Some?
            && id in After(init, undone).rows && After(init, undone).rows[id].state.Pending?
  {
    var id := After(init, steps).workers[w].job.id;
    cancelled := Extend(init, steps, CancelRead(c, id));
    cancelled := Extend(init, cancelled, CancelWrite(c));
    undone := WriteBack(init, cancelled, w);
  }

  lemma FailedWritten(s: System, w: WorkerId)
    requires Inv(s) && w in s.workers && s.workers[w].phase.Writing? && s.workers[w].job.state.Failed?
    requires var job := s.workers[w].job; job.id in s.rows && s.rows[job.id].leaseToken == Some(job.leaseToken)
    ensures var job, s' := s.workers[w].job, Apply(s, Write(w));
            && w in s'.workers
            && s'.workers[w] == Worker(Rescheduled(job, s.workers[w].retryAt), Reading, s.workers[w].retryAt)
            && job.id in s'.rows && s'.rows[job.id].state.Failed? && s'.rows[job.id].leaseToken == Some(job.leaseToken)
  {
    assert WorkerOk(s.issued, s.workers[w]);
  }

  lemma ReopenWritten(s: System, w: WorkerId)
    requires w in s.workers && s.workers[w].phase.Reading? && s.workers[w].job.state.Pending?
    requires var job := s.workers[w].job;
             job.id in s.rows && s.rows[job.id].state.Failed? && s.rows[job.id].leaseToken == Some(job.leaseToken)
    ensures var job, read := s.workers[w].job, Apply(s, Read(w));
            && Enabled(read, Write(w))
            && var s' := Apply(read, Write(w));
               && s'.now == s.now && s'.workers == s.workers - {w} && s'.issued == s.issued
               && job.id in s'.rows && s'.rows[job.id].state.Pending? && s'.rows[job.id].scheduledAt == job.scheduledAt
               && s'.rows[job.id].leaseToken.None?
  {
    assert Apply(s, Read(w)).workers == s.workers[w := s.workers[w].(phase := LeaseProtocol.Writing)];
  }

  lemma {:induction false} WriteBack(init: System, steps: seq<Step>, w: WorkerId) returns (undone: seq<Step>)
    requires IsRun(init, steps) && w in After(init, steps).workers
    requires After(init, steps).workers[w].phase.Writing? && After(init, steps).workers[w].job.state.Failed?
    requires var job := After(init, steps).workers[w].job;
             job.id in After(init, steps).rows && After(init, steps).rows[job.id].leaseToken == Some(job.leaseToken)
    ensures undone == steps + [Write(w), Read(w), Write(w)] && IsRun(init, undone)
    ensures var s, s' := After(init, steps), After(init, undone);
            && s'.now == s.now && s'.workers == s.workers - {w} && s'.issued == s.issued
            && var id := s.workers[w].job.id;
               && id in s'.rows && s'.rows[id].state.Pending? && s'.rows[id].scheduledAt == Some(s.workers[w].retryAt)
               && s'.rows[id].leaseToken.None?
  {
    RunKeepsInv(init, steps);
    FailedWritten(After(init, steps), w);
    var failed := Extend(init, steps, Write(w));
    ReopenWritten(After(init, failed), w);
    var read := Extend(init, failed, Read(w));
    undone := Extend(init, read, Write(w));
  }

  // ---------------------------------------------------------------------------------------------
  // A job's first attempt, from the empty table

  /** The row as created for time `at`, with three attempts. */
  function CreatedRow(at: Option<Time>): (row: Row) {
    Row(None, 0, 3, Pending, 0, at, None, None, None, None)
  }

  ghost predicate JustCreated(init: System, s: System, at: Option<Time>) {
    && s.config == init.config && s.now == init.now && s.cancels == map[] && s.workers == map[] && s.issued == {}
    && "j" in s.rows && s.rows["j"] == CreatedRow(at)
  }

  ghost predicate InHand(init: System, s: System) {
    && s.config == init.config && s.now == init.now && s.cancels == map[]
    && s.workers.Keys == {0} && s.issued == {"t"} && s.workers[0].phase.Queued?
    && s.workers[0].job.state.Running? && s.workers[0].job.attempt == 1 && s.workers[0].job.maxRetries == 3
    && s.workers[0].job.id == "j" && Holding(s.rows, s.workers[0].job)
  }

  lemma FirstStep(init: System, step: Step)
    requires Init(init) && Enabled(init, step)
    ensures IsRun(init, [step]) && After(init, [step]) == Apply(init, step)
  {
    assert [step][..0] == [];
    assert IsRun(init, []) && After(init, []) == init;
  }

  lemma CreateStep(init: System, at: Option<Time>)
    requires Init(init)
    ensures var step := Create("j", None, 0, 3, at);
            Enabled(init, step) && JustCreated(init, Apply(init, step), at)
  {
  }

  lemma ClaimStep(init: System, s: System, at: Option<Time>)
    requires JustCreated(init, s, at) && (at.None? || at.value <= s.now)
    ensures var step := ClaimNext(0, "j", "t");
            Enabled(s, step) && InHand(init, Apply(s, step))
  {
  }

  lemma CreatedIsReachable(init: System, at: Option<Time>) returns (steps: seq<Step>)
    requires Init(init)
    ensures steps == [Create("j", None, 0, 3, at)] && IsRun(init, steps) && JustCreated(init, After(init, steps), at)
  {
    CreateStep(init, at);
    steps := [Create("j", None, 0, 3, at)];
    FirstStep(init, steps[0]);
  }

  lemma ClaimedIsReachable(init: System, at: Option<Time>) returns (steps: seq<Step>)
    requires Init(init) && (at.None? || at.value <= init.now)
    ensures steps == [Create("j", None, 0, 3, at), ClaimNext(0, "j", "t")] && IsRun(init, steps)
    ensures InHand(init, After(init, steps))
  {
    steps := CreatedIsReachable(init, at);
    ClaimStep(init, After(init, steps), at);
    steps := Extend(init, steps, ClaimNext(0, "j", "t"));
  }

  /** The state in which the attempt has failed and is about to be recorded. */
  ghost predicate AboutToRetry(init: System, s: System, delay: int) {
    && Retrying(s, 0) && s.cancels == map[] && s.now == init.now && s.workers.Keys == {0} && s.issued == {"t"}
    && s.workers[0].job.id == "j" && s.workers[0].retryAt == init.now + delay
  }

  lemma StartStep(init: System, s: System)
    requires InHand(init, s)
    ensures Enabled(s, Start(0))
    ensures var s' := Apply(s, Start(0));
            && s'.workers.Keys == {0} && s'.workers[0] == s.workers[0].(phase := Executing)
            && s' == s.(workers := s'.workers)
  {
  }

  lemma FailStep(init: System, s: System, delay: int)
    requires s.config == init.config && s.now == init.now && s.cancels == map[] && s.issued == {"t"}
    requires s.workers.Keys == {0} && s.workers[0].phase.Executing? && Holding(s.rows, s.workers[0].job)
    requires s.workers[0].job.state.Running? && s.workers[0].job.attempt == 1 && s.workers[0].job.maxRetries == 3
    requires s.workers[0].job.id == "j" && s.config.delays(1, delay)
    ensures Enabled(s, Fail(0, false, delay)) && Enabled(Apply(s, Fail(0, false, delay)), Read(0))
    ensures AboutToRetry(init, Apply(Apply(s, Fail(0, false, delay)), Read(0)), delay)
  {
  }

  /** The moment of CancelDuringRetryIsLost is reached: create, claim, start, fail, read. */
  lemma RetryingIsReachable(init: System, at: Option<Time>, delay: int) returns (steps: seq<Step>)
    requires Init(init) && (at.None? || at.value <= init.now) && init.config.delays(1, delay)
    ensures steps == [Create("j", None, 0, 3, at), ClaimNext(0, "j", "t"), Start(0), Fail(0, false, delay), Read(0)]
    ensures IsRun(init, steps) && AboutToRetry(init, After(init, steps), delay)
  {
    var claimed := ClaimedIsReachable(init, at);
    StartStep(init, After(init, claimed));
    var started := Extend(init, claimed, Start(0));
    FailStep(init, After(init, started), delay);
    var failed := Extend(init, started, Fail(0, false, delay));
    steps := Extend(init, failed, Read(0));
  }
}
