/** One pass of the reconciler: requeue expired leases, then claim due jobs and hand them to the worker pool. */
module Reconciler {
  import opened Common
  import opened Jobs
  import opened Store

  datatype Config = Config(interval: int, idleInterval: int, batchSize: int, runningLease: int)

  /** What one pass meets, call by call: clocks, random tokens, failures, the pool's answers and other writers. */
  datatype Environment = Environment(
    requeueFails: bool,
    requeueNow: Time,
    others: nat -> Option<Rows>,        // the table other writers left before claim k
    cancelled: nat -> bool,
    claimFails: nat -> bool,
    now: nat -> Time,
    at: nat -> Time,
    token: nat -> Token,
    accepts: nat -> bool,
    othersAtRelease: Option<Rows>,
    releaseFails: bool)

  ghost predicate Undisturbed(env: Environment) {
    env.othersAtRelease.None? && forall k :: env.others(k).None?
  }

  datatype End = Cancelled | NothingDue | ClaimFailed | Rejected | BatchFull

  datatype Pass = Pass(claims: seq<Job>, accepted: seq<Job>, released: Option<Job>, end: End)

  /** The pending rows all have a time, as every row the service creates does. */
  ghost predicate Scheduled(rows: Rows) {
    forall id | id in rows && rows[id].state.Pending? :: rows[id].scheduledAt.Some?
  }

  /** No pending row is scheduled before `t`. */
  ghost predicate Ahead(rows: Rows, t: Time) {
    forall id | id in rows && rows[id].state.Pending? :: rows[id].scheduledAt.Some? && t <= rows[id].scheduledAt.value
  }

  ghost predicate InOrder(claims: seq<Job>) {
    && (forall k | 0 <= k < |claims| :: claims[k].scheduledAt.Some?)
    && (forall j, k | 0 <= j < k < |claims| :: claims[j].scheduledAt.value <= claims[k].scheduledAt.value)
  }

  /** The claimed jobs were pending in `before`, are held under their own tokens in `after`, and nothing else moved. */
  ghost predicate Took(before: Rows, after: Rows, claims: seq<Job>) {
    && after.Keys == before.Keys
    && (forall k | 0 <= k < |claims| ::
          && claims[k].id in before && before[claims[k].id].state.Pending?
          && claims[k] == JobOf(claims[k].id, after[claims[k].id])
          && claims[k].state.Running?
          && claims[k].attempt == before[claims[k].id].attempt + 1
          && claims[k].scheduledAt == before[claims[k].id].scheduledAt)
    && (forall j, k | 0 <= j < k < |claims| :: claims[j].id != claims[k].id)
    && (forall id | id in before && after[id] != before[id] :: exists k | 0 <= k < |claims| :: claims[k].id == id)
  }

  lemma TookOne(before: Rows, rows: Rows, claims: seq<Job>, id: Id, at: Time, lease: int, token: Token)
    requires Took(before, rows, claims) && id in rows && rows[id].state.Pending?
    ensures var rows' := rows[id := Claimed(rows[id], at, lease, token)];
            Took(before, rows', claims + [JobOf(id, rows'[id])])
  {
    var rows' := rows[id := Claimed(rows[id], at, lease, token)];
    var job := JobOf(id, rows'[id]);
    var claims' := claims + [job];
    forall k | 0 <= k < |claims| ensures claims[k].id != id {
      assert claims[k] == JobOf(claims[k].id, rows[claims[k].id]);
    }
    forall i | i in before && rows'[i] != before[i] ensures exists k | 0 <= k < |claims'| :: claims'[k].id == i {
      if i == id {
        assert claims'[|claims|].id == i;
      } else {
        var k :| 0 <= k < |claims| && claims[k].id == i;
        assert claims'[k].id == i;
      }
    }
  }

  /** A claim takes the least scheduled time of the whole table, due or not. */
  lemma ClaimTakesTheLeast(rows: Rows, id: Id, now: Time, row': Row)
    requires Scheduled(rows) && id in rows && Due(rows[id], now) && !row'.state.Pending?
    requires forall other | other in rows && Due(rows[other], now) ::
               NotAfter(rows[id].scheduledAt, rows[other].scheduledAt)
    ensures Ahead(rows[id := row'], rows[id].scheduledAt.value) && Scheduled(rows[id := row'])
  {
    var t := rows[id].scheduledAt.value;
    forall other | other in rows && rows[other].state.Pending?
      ensures rows[other].scheduledAt.Some? && t <= rows[other].scheduledAt.value
    {
      if Due(rows[other], now) {
        assert NotAfter(rows[id].scheduledAt, rows[other].scheduledAt);
      }
    }
  }

  lemma OrderOne(rows: Rows, claims: seq<Job>, id: Id, now: Time, row': Row)
    requires InOrder(claims) && Scheduled(rows)
    requires claims != [] ==> Ahead(rows, claims[|claims| - 1].scheduledAt.value)
    requires id in rows && Due(rows[id], now) && !row'.state.Pending? && row'.scheduledAt == rows[id].scheduledAt
    requires forall other | other in rows && Due(rows[other], now) ::
               NotAfter(rows[id].scheduledAt, rows[other].scheduledAt)
    ensures var claims' := claims + [JobOf(id, row')];
            && InOrder(claims') && Scheduled(rows[id := row'])
            && Ahead(rows[id := row'], claims'[|claims'| - 1].scheduledAt.value)
  {
    ClaimTakesTheLeast(rows, id, now, row');
  }

  lemma RequeueKeepsScheduled(rows: Rows, ids: set<Id>, now: Time)
    requires Scheduled(rows)
    ensures Scheduled(Requeued(rows, ids, now))
  {
  }

  /** Every claim was accepted by the pool, or it is the last one and its release was attempted. */
  ghost predicate Accounted(pass: Pass, batchSize: int) {
    && pass.claims == pass.accepted + (if pass.released.Some? then [pass.released.value] else [])
    && (pass.released.Some? <==> pass.end.Rejected?)
    && |pass.accepted| <= batchSize
    && (pass.end.BatchFull? <==> |pass.accepted| == batchSize)
  }

  /** The claims so far, seen from the table `start` the loop began with. */
  ghost predicate SoFar(env: Environment, start: Rows, rows: Rows, claims: seq<Job>) {
    && (forall k | 0 <= k < |claims| :: claims[k].state.Running? && claims[k].leaseToken == env.token(k))
    && (Undisturbed(env) ==> Took(start, rows, claims))
    && (Undisturbed(env) && Scheduled(start) ==>
          && InOrder(claims) && Scheduled(rows)
          && (claims != [] ==> Ahead(rows, claims[|claims| - 1].scheduledAt.value)))
  }

  /** What ClaimNextJob promises of a claim. */
  ghost predicate IsClaim(before: Rows, after: Rows, job: Job, now: Time, at: Time, lease: int, token: Token) {
    && job.id in before && Due(before[job.id], now)
    && (forall other | other in before && Due(before[other], now) ::
          NotAfter(before[job.id].scheduledAt, before[other].scheduledAt))
    && after == before[job.id := Claimed(before[job.id], at, lease, token)]
    && job == JobOf(job.id, after[job.id])
  }

  lemma SoFarOne(env: Environment, start: Rows, before: Rows, after: Rows, claims: seq<Job>, job: Job, lease: int)
    requires Undisturbed(env) ==> SoFar(env, start, before, claims)
    requires forall k | 0 <= k < |claims| :: claims[k].state.Running? && claims[k].leaseToken == env.token(k)
    requires IsClaim(before, after, job, env.now(|claims|), env.at(|claims|), lease, env.token(|claims|))
    ensures SoFar(env, start, after, claims + [job])
  {
    if Undisturbed(env) {
      TookOne(start, before, claims, job.id, env.at(|claims|), lease, env.token(|claims|));
      if Scheduled(start) {
        OrderOne(before, claims, job.id, env.now(|claims|), after[job.id]);
      }
    }
  }

  /** What ReleaseClaim leaves of `rows`. */
  function AfterRelease(rows: Rows, job: Job): (r: Rows) {
    if job.id in rows && Holds(rows[job.id], job.leaseToken) then rows[job.id := Released(rows[job.id])] else rows
  }

  /** The table at the end of the loop: the one the last call left, with a rejected job released. */
  function Settled(env: Environment, held: Rows, pass: Pass): (rows: Rows) {
    if pass.released.None? then held
    else
      var found := if env.othersAtRelease.Some? then env.othersAtRelease.value else held;
      if env.releaseFails then found else AfterRelease(found, pass.released.value)
  }

  class Reconciler {
    const cfg: Config
    const store: PostgresStore

    constructor (cfg: Config, store: PostgresStore)
      ensures this.store == store && this.cfg.batchSize > 0 && this.cfg.runningLease > 0
      ensures 0 < this.cfg.interval <= this.cfg.idleInterval
      ensures this.cfg.batchSize == if cfg.batchSize > 0 then cfg.batchSize else 100
      ensures this.cfg.runningLease == if cfg.runningLease > 0 then cfg.runningLease else 5 * MINUTE
      ensures this.cfg.interval == if cfg.interval > 0 then cfg.interval else MINUTE
      ensures this.cfg.idleInterval == this.cfg.interval || this.cfg.idleInterval == cfg.idleInterval
      ensures cfg.idleInterval >= this.cfg.interval ==> this.cfg.idleInterval == cfg.idleInterval
    {
      var interval := if cfg.interval <= 0 then MINUTE else cfg.interval;
      var idleInterval := if cfg.idleInterval <= 0 then interval else cfg.idleInterval;
      if idleInterval < interval {
        idleInterval := interval;
      }
      var batchSize := if cfg.batchSize <= 0 then 100 else cfg.batchSize;
      var runningLease := if cfg.runningLease <= 0 then 5 * MINUTE else cfg.runningLease;
      this.cfg := Config(interval, idleInterval, batchSize, runningLease);
      this.store := store;
    }

    /** The pass's loop: claim the next due job and submit it, releasing a job the pool rejects. */
    method SubmitDue(env: Environment) returns (pass: Pass, ghost held: Rows)
      requires cfg.batchSize > 0 && forall k :: env.token(k) != ""
      modifies store
      ensures Accounted(pass, cfg.batchSize)
      ensures forall k | 0 <= k < |pass.claims| ::
                pass.claims[k].state.Running? && pass.claims[k].leaseToken == env.token(k)
      ensures pass.end.Cancelled? ==> env.cancelled(|pass.accepted|)
      ensures pass.end.ClaimFailed? ==> env.claimFails(|pass.accepted|)
      ensures pass.end.NothingDue? ==>
                forall id | id in store.rows :: !Due(store.rows[id], env.now(|pass.accepted|))
      ensures store.rows == Settled(env, held, pass)
      ensures Undisturbed(env) ==> Took(old(store.rows), held, pass.claims)
      ensures Undisturbed(env) && Scheduled(old(store.rows)) ==> InOrder(pass.claims)
    {
      var claims: seq<Job> := [];
      while |claims| < cfg.batchSize
        invariant |claims| <= cfg.batchSize
        invariant SoFar(env, old(store.rows), store.rows, claims)
        decreases cfg.batchSize - |claims|
      {
        ghost var left := store.rows;
        var k := |claims|;
        if env.others(k).Some? {
          store.rows := env.others(k).value;
        }
        assert Undisturbed(env) ==> store.rows == left;
        if env.cancelled(k) {
          return Pass(claims, claims, None, Cancelled), store.rows;
        }
        if env.claimFails(k) {
          return Pass(claims, claims, None, ClaimFailed), store.rows;
        }
        ghost var before := store.rows;
        var r := store.ClaimNextJob(env.now(k), env.at(k), cfg.runningLease, env.token(k));
        if r.Err? {
          return Pass(claims, claims, None, NothingDue), store.rows;
        }
        var job := r.value;
        SoFarOne(env, old(store.rows), before, store.rows, claims, job, cfg.runningLease);
        if !env.accepts(k) {
          held := store.rows;
          GiveBack(env, job);
          return Pass(claims + [job], claims, Some(job), Rejected), held;
        }
        claims := claims + [job];
      }
      return Pass(claims, claims, None, BatchFull), store.rows;
    }

    /** The release attempt for a job the pool rejected. */
    method GiveBack(env: Environment, job: Job)
      modifies store
      ensures var found := if env.othersAtRelease.Some? then env.othersAtRelease.value else old(store.rows);
              store.rows == if env.releaseFails then found else AfterRelease(found, job)
    {
      if env.othersAtRelease.Some? {
        store.rows := env.othersAtRelease.value;
      }
      if !env.releaseFails {
        var _ := store.ReleaseClaim(job);
      }
    }

    /** One pass; `mid` is the table the requeue left. */
    method Reconcile(env: Environment) returns (hadWork: bool, pass: Pass, ghost mid: Rows, ghost held: Rows)
      requires cfg.batchSize > 0 && forall k :: env.token(k) != ""
      modifies store
      ensures if env.requeueFails then mid == old(store.rows)
              else exists ids :: IsExpiredBatch(old(store.rows), env.requeueNow, cfg.batchSize, ids)
                                 && mid == Requeued(old(store.rows), ids, env.requeueNow)
      ensures Accounted(pass, cfg.batchSize)
      ensures pass.end.NothingDue? ==>
                forall id | id in store.rows :: !Due(store.rows[id], env.now(|pass.accepted|))
      ensures store.rows == Settled(env, held, pass)
      ensures Undisturbed(env) ==> Took(mid, held, pass.claims)
      ensures Undisturbed(env) && Scheduled(old(store.rows)) ==> InOrder(pass.claims)
      ensures hadWork <==>
              || env.requeueFails || mid != old(store.rows) || pass.end.ClaimFailed? || pass.end.Rejected?
              || (pass.accepted != [] && !pass.end.Cancelled?)
    {
      hadWork := false;
      if env.requeueFails {
        hadWork := true;
      } else {
        var requeued, ids := store.RequeueExpiredRunning(cfg.batchSize, env.requeueNow);
        if Scheduled(old(store.rows)) {
          RequeueKeepsScheduled(old(store.rows), ids, env.requeueNow);
        }
        RequeueChangesIff(old(store.rows), ids, env.requeueNow);
        if requeued > 0 {
          hadWork := true;
        }
      }
      mid := store.rows;
      pass, held := SubmitDue(env);
      if pass.end.Cancelled? {
        return;
      }
      if pass.end.ClaimFailed? || pass.end.Rejected? {
        hadWork := true;
        return;
      }
      if |pass.accepted| > 0 {
        hadWork := true;
      }
    }
  }

  lemma RequeueChangesIff(rows: Rows, ids: set<Id>, now: Time)
    requires ids <= rows.Keys && forall id | id in ids :: Expired(rows[id], now)
    ensures Requeued(rows, ids, now) != rows <==> |ids| > 0
  {
    if ids != {} {
      var id :| id in ids;
      assert Requeued(rows, ids, now)[id] != rows[id];
    } else {
      assert Requeued(rows, ids, now) == rows;
    }
  }
}
