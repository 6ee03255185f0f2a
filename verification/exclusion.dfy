/** When two workers can have a claim on one job: only after a requeue has taken the row from a worker still alive. */
module Exclusion {
  import opened Common
  import opened Jobs
  import opened LeaseProtocol
  import opened Fencing
  import opened BoundedExecution

  /** The worker has claimed and the row still carries its token. */
  predicate HoldsRow(s: System, w: WorkerId) {
    && w in s.workers && HasClaimed(s.workers[w]) && s.workers[w].job.id in s.rows
    && s.rows[s.workers[w].job.id].leaseToken == Some(s.workers[w].job.leaseToken)
  }

  /** The step takes no row from a worker that is still alive. */
  ghost predicate SparesHolders(s: System, step: Step)
    requires Enabled(s, step)
  {
    step.Requeue? ==> forall w | HoldsRow(s, w) :: s.workers[w].job.id !in step.ids
  }

  ghost predicate AlwaysSpares(init: System, steps: seq<Step>)
    requires IsRun(init, steps)
  {
    steps == [] ||
    var front := steps[..|steps| - 1];
    AlwaysSpares(init, front) && SparesHolders(After(init, front), steps[|steps| - 1])
  }

  /** Every worker that has claimed holds its row. */
  ghost predicate AllHold(s: System) {
    forall w | w in s.workers && HasClaimed(s.workers[w]) :: HoldsRow(s, w)
  }

  lemma OtherHolder(s: System, v: WorkerId, w: WorkerId)
    requires Inv(s) && HoldsRow(s, v) && w in s.workers && w != v && s.workers[w].job.id == s.workers[v].job.id
    ensures s.rows[s.workers[v].job.id].leaseToken != Some(s.workers[w].job.leaseToken)
  {
    assert WorkerOk(s.issued, s.workers[v]) && OwnTokens(s.workers[v], s.workers[w]);
  }

  /** A step of another worker, or of nobody, leaves a held row to its holder. */
  lemma HeldRowFrame(s: System, step: Step, w: WorkerId)
    requires Inv(s) && Enabled(s, step) && SparesHolders(s, step) && HoldsRow(s, w) && !(Moves(step) && step.w == w)
    ensures var id := s.workers[w].job.id;
            id in Apply(s, step).rows && Apply(s, step).rows[id].leaseToken == s.rows[id].leaseToken
  {
    var id := s.workers[w].job.id;
    assert RowOk(s.issued, s.rows[id]) && WorkerOk(s.issued, s.workers[w]);
    if Moves(step) && s.workers[step.w].job.id == id {
      OtherHolder(s, w, step.w);
      assert WorkerOk(s.issued, s.workers[step.w]);
    }
  }

  lemma OwnStepHolds(s: System, step: Step, w: WorkerId)
    requires Inv(s) && Enabled(s, step) && HoldsRow(s, w) && Moves(step) && step.w == w && w in Apply(s, step).workers
    ensures HoldsRow(Apply(s, step), w)
  {
    assert WorkerOk(s.issued, s.workers[w]);
  }

  lemma NewClaimHolds(s: System, step: Step, w: WorkerId)
    requires Inv(s) && Enabled(s, step) && w in Apply(s, step).workers && HasClaimed(Apply(s, step).workers[w])
    requires w !in s.workers || !HasClaimed(s.workers[w])
    ensures HoldsRow(Apply(s, step), w)
  {
    if step.KafkaWrite? && step.w == w {
      assert WorkerOk(s.issued, s.workers[w]);
    }
  }

  lemma StepKeepsHolding(s: System, step: Step, w: WorkerId)
    requires Inv(s) && Enabled(s, step) && SparesHolders(s, step) && AllHold(s)
    requires w in Apply(s, step).workers && HasClaimed(Apply(s, step).workers[w])
    ensures HoldsRow(Apply(s, step), w)
  {
    if w !in s.workers || !HasClaimed(s.workers[w]) {
      NewClaimHolds(s, step, w);
    } else if Moves(step) && step.w == w {
      OwnStepHolds(s, step, w);
    } else {
      HeldRowFrame(s, step, w);
    }
  }

  lemma {:induction false} RunKeepsHolding(init: System, steps: seq<Step>)
    requires IsRun(init, steps) && AlwaysSpares(init, steps)
    ensures AllHold(After(init, steps))
  {
    if steps != [] {
      var front, last := steps[..|steps| - 1], steps[|steps| - 1];
      RunKeepsHolding(init, front);
      RunKeepsInv(init, front);
      var s' := Apply(After(init, front), last);
      forall w | w in s'.workers && HasClaimed(s'.workers[w]) ensures HoldsRow(s', w) {
        StepKeepsHolding(After(init, front), last, w);
      }
    }
  }

  /** While every requeue spares the living, no two workers have a claim on one job, by whichever path they came. */
  lemma OneWorkerPerJob(init: System, steps: seq<Step>, v: WorkerId, w: WorkerId, id: Id)
    requires IsRun(init, steps) && AlwaysSpares(init, steps)
    requires Claimant(After(init, steps), v, id) && Claimant(After(init, steps), w, id)
    ensures v == w
  {
    RunKeepsHolding(init, steps);
    RunKeepsInv(init, steps);
    if v != w {
      OtherHolder(After(init, steps), v, w);
    }
  }

  // ---------------------------------------------------------------------------------------------
  // A requeue that takes a row from a living worker

  lemma TakenStep(s: System, id: Id, w: WorkerId, v: WorkerId, token: Token)
    requires Claimant(s, w, id) && id in s.rows && Expired(s.rows[id], s.now) && !Exhausted(s.rows[id])
    requires v !in s.workers && Fresh(s, token)
    ensures Enabled(s, Requeue({id})) && Enabled(Apply(s, Requeue({id})), ClaimNext(v, id, token))
    ensures var s' := Apply(Apply(s, Requeue({id})), ClaimNext(v, id, token));
            Claimant(s', w, id) && Claimant(s', v, id) && s'.workers[w] == s.workers[w]
  {
  }

  /** Whenever a lease runs out under a living worker and attempts are left, the next claim puts another beside it. */
  lemma RequeueDoubles(init: System, steps: seq<Step>, id: Id, w: WorkerId, v: WorkerId, token: Token)
    returns (doubled: seq<Step>)
    requires IsRun(init, steps)
    requires var s := After(init, steps);
             && Claimant(s, w, id) && id in s.rows && Expired(s.rows[id], s.now) && !Exhausted(s.rows[id])
             && v !in s.workers && Fresh(s, token)
    ensures doubled == steps + [Requeue({id}), ClaimNext(v, id, token)] && IsRun(init, doubled)
    ensures Claimant(After(init, doubled), w, id) && Claimant(After(init, doubled), v, id) && v != w
    ensures After(init, doubled).workers[w] == After(init, steps).workers[w]
    ensures After(init, doubled).workers[v].phase.Queued?
  {
    TakenStep(After(init, steps), id, w, v, token);
    doubled := Extend(init, steps, Requeue({id}));
    doubled := Extend(init, doubled, ClaimNext(v, id, token));
  }

  lemma OutlivedStep(init: System, s: System)
    requires InHand(init, s) && init.config.lease >= 0 && s.rows["j"].leaseExpiresAt == Some(s.now + init.config.lease)
    requires s.rows["j"].maxRetries == 3 && s.rows["j"].attempt == 1
    ensures var tick := Tick(s.now + init.config.lease);
            && Enabled(s, tick)
            && var s' := Apply(s, tick);
               && s'.workers == s.workers && s'.issued == s.issued && Claimant(s', 0, "j")
               && Expired(s'.rows["j"], s'.now) && !Exhausted(s'.rows["j"])
  {
  }

  lemma ClaimedRow(init: System, s: System, at: Option<Time>)
    requires JustCreated(init, s, at) && (at.None? || at.value <= s.now)
    ensures var s' := Apply(s, ClaimNext(0, "j", "t"));
            && "j" in s'.rows && s'.rows["j"].leaseExpiresAt == Some(s.now + init.config.lease)
            && s'.rows["j"].maxRetries == 3 && s'.rows["j"].attempt == 1
  {
  }

  /** A claim that waits in the queue past its lease: the job is requeued and claimed again. */
  lemma QueuedClaimIsOvertaken(init: System, at: Option<Time>) returns (steps: seq<Step>)
    requires Init(init) && init.config.lease >= 0 && (at.None? || at.value <= init.now)
    ensures IsRun(init, steps)
    ensures var s := After(init, steps);
            && Claimant(s, 0, "j") && Claimant(s, 1, "j") && s.workers[0].phase.Queued? && s.workers[1].phase.Queued?
            && s.workers[0].job.state.Running? && s.workers[1].job.state.Running?
  {
    var created := CreatedIsReachable(init, at);
    ClaimStep(init, After(init, created), at);
    ClaimedRow(init, After(init, created), at);
    var claimed := Extend(init, created, ClaimNext(0, "j", "t"));
    OutlivedStep(init, After(init, claimed));
    var outlived := Extend(init, claimed, Tick(After(init, claimed).now + init.config.lease));
    steps := RequeueDoubles(init, outlived, "j", 0, 1, "u");
  }

  lemma BothStart(s: System, v: WorkerId, w: WorkerId, gap: nat)
    requires v in s.workers && w in s.workers && v != w && Enabled(s, Start(v)) && Enabled(s, Start(w))
    ensures var s1 := Apply(s, Start(v));
            && Enabled(s1, Tick(s.now + gap))
            && var s2 := Apply(s1, Tick(s.now + gap));
               && Enabled(s2, Start(w))
               && var s3 := Apply(s2, Start(w));
                  && v in s3.workers && w in s3.workers && s3.workers[v] == s.workers[v].(phase := Executing)
                  && s3.workers[w] == s.workers[w].(phase := Executing)
  {
  }

  /**
   * Both handlers of one job run at the same time. Any time may pass between their starts, so also more than the
   * lifetime of the execution lock, which the first worker takes before its handler and does not renew.
   */
  lemma TwoHandlersRun(init: System, at: Option<Time>, gap: nat) returns (before: seq<Step>, steps: seq<Step>)
    requires Init(init) && init.config.lease >= 0 && (at.None? || at.value <= init.now)
    ensures IsRun(init, before) && IsRun(init, steps)
    ensures steps == before + [Start(0), Tick(After(init, before).now + gap), Start(1)]
    ensures var s := After(init, steps);
            && Claimant(s, 0, "j") && Claimant(s, 1, "j")
            && s.workers[0].phase.Executing? && s.workers[1].phase.Executing?
  {
    before := QueuedClaimIsOvertaken(init, at);
    BothStart(After(init, before), 0, 1, gap);
    steps := Extend(init, before, Start(0));
    steps := Extend(init, steps, Tick(After(init, before).now + gap));
    steps := Extend(init, steps, Start(1));
  }

  /** In every run no two workers have a claim on one job. */
  ghost predicate WorkersAreAlone(mayTakeFromLiving: bool) {
    forall init: System, steps: seq<Step>, v: WorkerId, w: WorkerId, id: Id
      | IsRun(init, steps) && (mayTakeFromLiving || AlwaysSpares(init, steps))
        && Claimant(After(init, steps), v, id) && Claimant(After(init, steps), w, id) ::
      v == w
  }

  /** That holds exactly when no requeue takes a row from a worker that is still alive. */
  lemma WorkersAreAloneIff(mayTakeFromLiving: bool)
    ensures WorkersAreAlone(mayTakeFromLiving) <==> !mayTakeFromLiving
  {
    if mayTakeFromLiving {
      var init := System(Config(1, 0, (attempt, delay) => true), 0, map[], map[], map[], {});
      var steps := QueuedClaimIsOvertaken(init, None);
      assert Claimant(After(init, steps), 0, "j") && Claimant(After(init, steps), 1, "j");
    } else {
      forall init: System, steps: seq<Step>, v: WorkerId, w: WorkerId, id: Id
        | IsRun(init, steps) && AlwaysSpares(init, steps)
          && Claimant(After(init, steps), v, id) && Claimant(After(init, steps), w, id)
        ensures v == w
      {
        OneWorkerPerJob(init, steps, v, w, id);
      }
    }
  }
}
