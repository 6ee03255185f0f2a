/** One jobWorker.Run, step by step, when nobody else touches the store meanwhile. */
module JobWorker {
  import opened Common
  import opened Jobs
  import opened Store
  import Backoff
  import LeaseProtocol
  import LeaseRenewal

  /** What the handler returned: nothing, an error, or an error that must not be retried. */
  datatype Outcome = Succeeded | FailedOnce | FailedForGood

  /** Everything Run learns from outside: clock readings, the breaker, the lock, the handler, fresh randomness. */
  datatype World = World(
    entered: Time,
    cancelled: bool,
    allowed: bool,
    locked: bool,
    claimed: Time,
    token: Token,
    outcome: Outcome,
    finished: Time,
    draw: real)

  const MAX_IN_WORKER_SLEEP: int := 60 * SECOND

  /** Whether Run returns before looking at the breaker: too early, or cancelled while it waited. */
  predicate TurnedAway(job: Job, world: World) {
    && job.scheduledAt.Some? && job.scheduledAt.value > world.entered
    && (job.scheduledAt.value - world.entered > MAX_IN_WORKER_SLEEP || world.cancelled)
  }

  /** A job handed over by the reconciler: claimed, with its token. */
  predicate Carried(job: Job) {
    job.state.Running? && job.leaseToken != ""
  }

  /** The worker still holds the row: it is RUNNING under the job's token. */
  predicate Keeps(rows: Rows, job: Job) {
    job.id in rows && Holds(rows[job.id], job.leaseToken)
  }

  /** The row has the job's token and may go to DEAD; a cancelled row, DEAD already, may not. */
  predicate CanBury(rows: Rows, job: Job) {
    && job.id in rows && rows[job.id].leaseToken == Some(job.leaseToken)
    && !rows[job.id].state.Completed? && !rows[job.id].state.Dead?
  }

  function Buried(rows: Rows, job: Job): (r: Rows)
    requires job.id in rows
  {
    rows[job.id := Written(rows[job.id], job.(state := Dead, leaseExpiresAt := None))]
  }

  class Worker {
    const store: PostgresStore
    const retry: Backoff.Engine
    const lease: int

    constructor (store: PostgresStore, retry: Backoff.Engine, lease: int)
      ensures this.store == store && this.retry == retry && this.lease == lease
    {
      this.store, this.retry, this.lease := store, retry, lease;
    }

    predicate Retries(job: Job, world: World)
      reads retry
    {
      LeaseProtocol.ShouldRetry(job, world.outcome.FailedForGood?, retry.config.maxAttempts)
    }

    /** RUNNING to FAILED to PENDING, due once the backoff delay has passed. */
    method ScheduleRetry(job: Job, world: World) returns (ghost delay: int)
      requires Carried(job) && Backoff.Normal(retry.config) && 0.0 <= world.draw < 1.0
      modifies store
      ensures Backoff.IsDelay(retry.config, job.attempt, delay)
      ensures Keeps(old(store.rows), job) ==>
                var again := job.(state := Pending, scheduledAt := Some(world.finished + delay), startedAt := None,
                                  leaseExpiresAt := None);
                store.rows == old(store.rows)[job.id := Written(old(store.rows)[job.id], again)]
      ensures !Keeps(old(store.rows), job) ==> store.rows == old(store.rows)
    {
      var d := retry.Delay(job.attempt, world.draw);
      delay := d;
      var failed := job.(state := Failed);
      var r := store.UpdateJob(failed);
      if r.Ok? {
        var again := LeaseProtocol.Rescheduled(failed, world.finished + d);
        r := store.UpdateJob(again);
      }
    }

    /** RUNNING to DEAD. */
    method DeadLetter(job: Job)
      requires Carried(job)
      modifies store
      ensures store.rows == if CanBury(old(store.rows), job) then Buried(old(store.rows), job) else old(store.rows)
    {
      var dead := job.(state := Dead, leaseExpiresAt := None);
      var _ := store.UpdateJob(dead);
    }

    /** What follows the handler, for a job this worker has claimed. */
    method Finish(job: Job, world: World)
      requires Carried(job) && Backoff.Normal(retry.config) && 0.0 <= world.draw < 1.0
      modifies store
      ensures Keeps(old(store.rows), job) ==>
                && store.rows.Keys == old(store.rows).Keys
                && (forall id | id in store.rows && id != job.id :: store.rows[id] == old(store.rows)[id])
                && var row := store.rows[job.id];
                   && row.leaseToken.None? && row.leaseExpiresAt.None? && row.attempt == job.attempt
                   && (row.state.Completed? <==> world.outcome.Succeeded?)
                   && (row.state.Completed? ==> row.completedAt == Some(world.finished))
                   && (row.state.Pending? <==> !world.outcome.Succeeded? && Retries(job, world))
                   && (row.state.Pending? ==> exists d | Backoff.IsDelay(retry.config, job.attempt, d) ::
                         row.scheduledAt == Some(world.finished + d))
                   && (row.state.Completed? || row.state.Pending? || row.state.Dead?)
      ensures !Keeps(old(store.rows), job) ==>
                store.rows == (if !world.outcome.Succeeded? && !Retries(job, world) && CanBury(old(store.rows), job)
                               then Buried(old(store.rows), job) else old(store.rows))
      ensures job.id !in old(store.rows) || old(store.rows)[job.id].state.Dead? ==> store.rows == old(store.rows)
    {
      if world.outcome.Succeeded? {
        var done := job.(state := Completed, completedAt := Some(world.finished), leaseExpiresAt := None);
        var _ := store.UpdateJob(done);
      } else if Retries(job, world) {
        ghost var delay := ScheduleRetry(job, world);
      } else {
        DeadLetter(job);
      }
    }

    /**
     * A whole Run. A job whose row no longer carries its token is left as it is, whatever the handler did; a job
     * still held ends COMPLETED, PENDING with its backoff, or DEAD, or is given back if it never started.
     */
    method Run(job: Job, world: World) returns (started: bool)
      requires job.state.Pending? || Carried(job)
      requires job.state.Pending? ==> job.leaseToken == ""
      requires Backoff.Normal(retry.config) && 0.0 <= world.draw < 1.0
      requires world.token != "" && forall id | id in store.rows :: store.rows[id].leaseToken != Some(world.token)
      modifies store
      ensures started ==> !TurnedAway(job, world) && world.allowed && world.locked
      ensures TurnedAway(job, world) ==> store.rows == old(store.rows)
      ensures Carried(job) && !CanBury(old(store.rows), job) ==> store.rows == old(store.rows)
      ensures job.id !in old(store.rows) || old(store.rows)[job.id].state.Dead? ==> store.rows == old(store.rows)
      ensures Carried(job) && Keeps(old(store.rows), job) && !TurnedAway(job, world) && !started ==>
                store.rows == old(store.rows)[job.id := Released(old(store.rows)[job.id])]
      ensures job.state.Pending? && started ==>
                && job.id in old(store.rows) && old(store.rows)[job.id].state.Pending?
                && old(store.rows)[job.id].leaseToken.None?
      ensures job.state.Pending? && !started ==> store.rows == old(store.rows)
      ensures started && (job.state.Pending? || Keeps(old(store.rows), job)) ==>
                && job.id in store.rows
                && store.rows[job.id].leaseToken.None?
                && store.rows[job.id].attempt == (if job.state.Pending? then job.attempt + 1 else job.attempt)
                && (store.rows[job.id].state.Completed? <==> world.outcome.Succeeded?)
    {
      started := false;
      if TurnedAway(job, world) {
        return;
      }
      if !world.allowed || !world.locked {
        if Carried(job) {
          var _ := store.ReleaseClaim(job);
        }
        return;
      }
      var mine := job;
      if !job.state.Running? {
        var expiry := world.claimed + LeaseRenewal.EffectiveLease(lease);
        mine := job.(attempt := job.attempt + 1, state := Running, startedAt := Some(world.claimed),
                     leaseExpiresAt := Some(expiry), leaseToken := world.token);
        var r := store.UpdateJob(mine);
        if r.Err? {
          return;
        }
      }
      started := true;
      Finish(mine, world);
    }
  }
}
