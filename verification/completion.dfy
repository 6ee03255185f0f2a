/** When a finished row stays as it is: what a cancel in flight can still do, and what a canceller can rely on. */
module Completion {
  import opened Common
  import opened Jobs
  import opened LeaseProtocol
  import opened Fencing

  // ---------------------------------------------------------------------------------------------
  // COMPLETED

  /** No CancelJob call for this row is between its read and its write. */
  predicate NoCancelInFlight(s: System, id: Id) {
    forall c | c in s.cancels :: s.cancels[c] != id
  }

  lemma CompletedStep(s: System, step: Step, id: Id)
    requires Inv(s) && Enabled(s, step) && id in s.rows && s.rows[id].state.Completed? && NoCancelInFlight(s, id)
    ensures id in Apply(s, step).rows && Apply(s, step).rows[id] == s.rows[id] && NoCancelInFlight(Apply(s, step), id)
  {
    assert RowOk(s.issued, s.rows[id]);
    FinalRowStep(s, step, id);
  }

  lemma {:induction false} CompletedRun(init: System, steps: seq<Step>, i: nat, id: Id)
    requires IsRun(init, steps) && i <= |steps| && id in Table(init, steps, i)
    requires Table(init, steps, i)[id].state.Completed? && NoCancelInFlight(At(init, steps, i), id)
    ensures id in After(init, steps).rows && After(init, steps).rows[id] == Table(init, steps, i)[id]
    decreases |steps| - i
  {
    if i < |steps| {
      AtStep(init, steps, i);
      CompletedStep(At(init, steps, i), steps[i], id);
      CompletedRun(init, steps, i + 1, id);
    } else {
      assert steps[..i] == steps;
    }
  }

  /** Every continuation of the run leaves the row COMPLETED. */
  ghost predicate CompletedForEver(init: System, steps: seq<Step>, id: Id) {
    forall more: seq<Step> | IsRun(init, steps + more) ::
      id in After(init, steps + more).rows && After(init, steps + more).rows[id].state.Completed?
  }

  lemma RelabelStep(s: System, c: CallId, id: Id)
    requires id in s.rows && c in s.cancels && s.cancels[c] == id
    ensures Enabled(s, CancelWrite(c)) && Apply(s, CancelWrite(c)).rows == s.rows[id := s.rows[id].(state := Dead)]
  {
  }

  /** A COMPLETED row stays COMPLETED in every continuation exactly when no cancel of it is in flight. */
  lemma CompletionSticksIff(init: System, steps: seq<Step>, id: Id)
    requires IsRun(init, steps) && id in After(init, steps).rows && After(init, steps).rows[id].state.Completed?
    ensures CompletedForEver(init, steps, id) <==> NoCancelInFlight(After(init, steps), id)
  {
    var s := After(init, steps);
    if NoCancelInFlight(s, id) {
      forall more: seq<Step> | IsRun(init, steps + more)
        ensures id in After(init, steps + more).rows && After(init, steps + more).rows[id].state.Completed?
      {
        assert (steps + more)[..|steps|] == steps;
        CompletedRun(init, steps + more, |steps|, id);
      }
    } else {
      var c :| c in s.cancels && s.cancels[c] == id;
      RelabelStep(s, c, id);
      var relabelled := Extend(init, steps, CancelWrite(c));
      assert relabelled == steps + [CancelWrite(c)];
    }
  }

  /** A worker about to write COMPLETED to the row it holds, with a cancel of that row in flight. */
  ghost predicate Racing(s: System) {
    && 0 in s.workers && s.workers[0].phase.Writing? && s.workers[0].job.state.Completed?
    && s.workers[0].job.id == "j" && Holding(s.rows, s.workers[0].job) && 0 in s.cancels && s.cancels[0] == "j"
  }

  lemma StartedAndCancelled(init: System) returns (steps: seq<Step>)
    requires Init(init)
    ensures IsRun(init, steps)
    ensures var s := After(init, steps);
            && 0 in s.workers && s.workers[0].phase.Executing? && s.workers[0].job.id == "j"
            && Holding(s.rows, s.workers[0].job) && 0 in s.cancels && s.cancels[0] == "j"
  {
    steps := ClaimedIsReachable(init, None);
    StartStep(init, After(init, steps));
    steps := Extend(init, steps, Start(0));
    steps := Extend(init, steps, CancelRead(0, "j"));
  }

  lemma RacingIsReachable(init: System) returns (steps: seq<Step>)
    requires Init(init)
    ensures IsRun(init, steps) && Racing(After(init, steps))
  {
    steps := StartedAndCancelled(init);
    steps := Extend(init, steps, Succeed(0));
    steps := Extend(init, steps, Read(0));
  }

  /** Such a cancel, begun while the job ran, relabels the completed job. */
  lemma CompletedIsRelabelled(init: System) returns (completed: seq<Step>, relabelled: seq<Step>)
    requires Init(init)
    ensures IsRun(init, completed) && relabelled == completed + [CancelWrite(0)] && IsRun(init, relabelled)
    ensures "j" in After(init, completed).rows && After(init, completed).rows["j"].state.Completed?
    ensures "j" in After(init, relabelled).rows && After(init, relabelled).rows["j"].state.Dead?
  {
    completed := RacingIsReachable(init);
    completed := Extend(init, completed, Write(0));
    RelabelStep(After(init, completed), 0, "j");
    relabelled := Extend(init, completed, CancelWrite(0));
  }

  // ---------------------------------------------------------------------------------------------
  // DEAD, as far as a canceller can see

  /** Whatever the workers are doing, a DEAD row without token stays DEAD. */
  lemma DeadWithoutTokenSticks(init: System, steps: seq<Step>, id: Id)
    requires IsRun(init, steps) && id in After(init, steps).rows && After(init, steps).rows[id].state.Dead?
    requires After(init, steps).rows[id].leaseToken.None?
    ensures DeadForEver(init, steps, id)
  {
    CancelSticksIff(init, steps, id);
  }

  /** With a token the row does not tell: this cancelled row is revived. */
  lemma DeadWithTokenIsRevived(init: System, delay: int) returns (steps: seq<Step>)
    requires Init(init) && init.config.delays(1, delay)
    ensures IsRun(init, steps) && "j" in After(init, steps).rows && After(init, steps).rows["j"].state.Dead?
    ensures After(init, steps).rows["j"].leaseToken.Some? && !DeadForEver(init, steps, "j")
  {
    var retrying := RetryingIsReachable(init, None, delay);
    var undone;
    steps, undone := CancelDuringRetryIsLost(init, retrying, 0, 0);
    assert undone == steps + [Write(0), Read(0), Write(0)];
  }
}
