/** The Postgres-backed store as an object whose methods change the table in place, one call at a time. */
module Store {
  import opened Common
  import opened Jobs

  class PostgresStore {
    var rows: Rows

    constructor ()
      ensures rows == map[]
    {
      rows := map[];
    }

    method CreateJob(job: Job, now: Time) returns (r: Result<(), StoreError>)
      modifies this
      ensures r.Ok? <==> job.id !in old(rows) && (job.key == "" || !KeyTaken(old(rows), job.key))
      ensures r.Ok? ==>
                && rows.Keys == old(rows).Keys + {job.id} && (forall id | id in old(rows) :: rows[id] == old(rows)[id])
                && JobOf(job.id, rows[job.id]) == Stamped(job, now)
      ensures r.Err? ==>
                rows == old(rows) && (r.error == if job.id in rows then DatabaseError else DuplicateIdempotencyKey)
      ensures var spec := Created(old(rows), job, now);
              && rows == (if spec.Ok? then spec.value else old(rows))
              && r == (if spec.Ok? then Ok(()) else Err(spec.error))
    {
      if job.id in rows {
        return Err(DatabaseError);
      }
      if job.key != "" && KeyTaken(rows, job.key) {
        return Err(DuplicateIdempotencyKey);
      }
      rows := rows[job.id := RowOf(Stamped(job, now))];
      return Ok(());
    }

    method UpdateJob(job: Job) returns (r: Result<(), StoreError>)
      modifies this
      ensures r.Ok? <==> job.id in old(rows) && CanTransition(old(rows)[job.id].state, job.state)
                         && UpdateGuard(old(rows)[job.id], job)
      ensures r.Ok? ==>
                && rows.Keys == old(rows).Keys && (forall id | id in rows && id != job.id :: rows[id] == old(rows)[id])
                && var row, before := rows[job.id], old(rows)[job.id];
                   && row.key == before.key && row.createdAt == before.createdAt && row.maxRetries == before.maxRetries
                   && row.state == job.state && row.attempt == job.attempt && row.scheduledAt == job.scheduledAt
                   && (row.leaseToken.Some? <==> job.leaseToken != "" && (row.state.Running? || row.state.Failed?))
                   && (row.leaseToken.Some? ==> row.leaseToken.value == job.leaseToken)
      ensures r.Err? ==>
                rows == old(rows) && (r.error == if job.id in rows then InvalidTransition else JobNotFound)
      ensures var spec := Updated(old(rows), job);
              && rows == (if spec.Ok? then spec.value else old(rows))
              && r == (if spec.Ok? then Ok(()) else Err(spec.error))
    {
      if job.id !in rows {
        return Err(JobNotFound);
      }
      var existing := rows[job.id];
      if !CanTransition(existing.state, job.state) || !UpdateGuard(existing, job) {
        return Err(InvalidTransition);
      }
      rows := rows[job.id := Written(existing, job)];
      return Ok(());
    }

    method CancelJob(id: Id) returns (r: Result<(), StoreError>)
      modifies this
      ensures r.Ok? <==> id in old(rows) && !old(rows)[id].state.Completed? && !old(rows)[id].state.Dead?
      ensures r.Ok? ==>
                && rows.Keys == old(rows).Keys
                && (forall other | other in rows && other != id :: rows[other] == old(rows)[other])
                && rows[id].state.Dead? && rows[id].leaseToken == old(rows)[id].leaseToken
      ensures r.Err? ==> rows == old(rows) && (r.error == if id in rows then InvalidTransition else JobNotFound)
      ensures var spec := Cancelled(old(rows), id);
              && rows == (if spec.Ok? then spec.value else old(rows))
              && r == (if spec.Ok? then Ok(()) else Err(spec.error))
    {
      if id !in rows {
        return Err(JobNotFound);
      }
      if !CanTransition(rows[id].state, Dead) {
        return Err(InvalidTransition);
      }
      rows := rows[id := rows[id].(state := Dead)];
      return Ok(());
    }

    /** Claims a due row that no other due row precedes; `at` is the caller's clock, `now` the database's. */
    method ClaimNextJob(now: Time, at: Time, lease: int, token: Token) returns (r: Result<Job, StoreError>)
      requires token != ""
      modifies this
      ensures r.Err? <==> forall id | id in old(rows) :: !Due(old(rows)[id], now)
      ensures r.Err? ==> r.error == JobNotFound && rows == old(rows)
      ensures r.Ok? ==>
                var id := r.value.id;
                && id in old(rows) && Due(old(rows)[id], now)
                && (forall other | other in old(rows) && Due(old(rows)[other], now) ::
                      NotAfter(old(rows)[id].scheduledAt, old(rows)[other].scheduledAt))
                && rows == old(rows)[id := Claimed(old(rows)[id], at, lease, token)]
                && r.value == JobOf(id, rows[id])
    {
      var rest := rows.Keys;
      var best: Option<Id> := None;
      while rest != {}
        invariant rest <= rows.Keys
        invariant best.Some? ==> best.value in rows && Due(rows[best.value], now)
        invariant forall id | id in rows && id !in rest && Due(rows[id], now) ::
                    best.Some? && NotAfter(rows[best.value].scheduledAt, rows[id].scheduledAt)
        decreases rest
      {
        var id :| id in rest;
        if Due(rows[id], now) && (best.None? || NotAfter(rows[id].scheduledAt, rows[best.value].scheduledAt)) {
          best := Some(id);
        }
        rest := rest - {id};
      }
      if best.None? {
        return Err(JobNotFound);
      }
      var id := best.value;
      rows := rows[id := Claimed(rows[id], at, lease, token)];
      return Ok(JobOf(id, rows[id]));
    }

    method RenewLease(job: Job, at: Time, lease: int) returns (r: Result<(), StoreError>)
      modifies this
      ensures r.Ok? <==> job.leaseToken != "" && job.id in old(rows) && Holds(old(rows)[job.id], job.leaseToken)
      ensures r.Ok? ==> rows == old(rows)[job.id := old(rows)[job.id].(leaseExpiresAt := Some(at + lease))]
      ensures r.Err? ==> r.error == InvalidTransition && rows == old(rows)
    {
      if job.leaseToken == "" || job.id !in rows || !Holds(rows[job.id], job.leaseToken) {
        return Err(InvalidTransition);
      }
      rows := rows[job.id := rows[job.id].(leaseExpiresAt := Some(at + lease))];
      return Ok(());
    }

    method ReleaseClaim(job: Job) returns (r: Result<(), StoreError>)
      modifies this
      ensures r.Ok? <==> job.id in old(rows) && Holds(old(rows)[job.id], job.leaseToken)
      ensures r.Ok? ==> rows == old(rows)[job.id := Released(old(rows)[job.id])]
      ensures r.Err? ==> r.error == InvalidTransition && rows == old(rows)
    {
      if job.id !in rows || !Holds(rows[job.id], job.leaseToken) {
        return Err(InvalidTransition);
      }
      rows := rows[job.id := Released(rows[job.id])];
      return Ok(());
    }

    /** Requeues the `limit` oldest expired leases, or all of them when there are fewer. */
    method RequeueExpiredRunning(limit: int, now: Time) returns (n: nat, ghost ids: set<Id>)
      modifies this
      ensures IsExpiredBatch(old(rows), now, if limit <= 0 then 0 else limit, ids)
      ensures rows == Requeued(old(rows), ids, now) && n == |ids|
    {
      var batch := {};
      if limit > 0 {
        batch := ExpiredBatch(rows, limit, now);
      }
      ids := batch;
      rows := Requeued(rows, batch, now);
      n := |batch|;
    }

    /** The query inside RequeueExpiredRunning. */
    static method ExpiredBatch(rows: Rows, limit: nat, now: Time) returns (batch: set<Id>)
      ensures IsExpiredBatch(rows, now, limit, batch)
    {
      batch := {};
      var all := set id | id in rows && Expired(rows[id], now);
      var rest := all;
      while |batch| < limit && rest != {}
        invariant batch !! rest && |batch| <= limit && batch + rest == all
        invariant forall a, b | a in batch && b in rest ::
                    rows[a].leaseExpiresAt.value <= rows[b].leaseExpiresAt.value
        decreases rest
      {
        var id := Oldest(rows, rest, now);
        batch, rest := batch + {id}, rest - {id};
      }
      assert forall id | id in rows && id !in batch && Expired(rows[id], now) :: id in all && id in rest;
    }

    static method Oldest(rows: Rows, ids: set<Id>, now: Time) returns (oldest: Id)
      requires ids != {} && ids <= rows.Keys && forall id | id in ids :: Expired(rows[id], now)
      ensures oldest in ids && Expired(rows[oldest], now)
      ensures forall id | id in ids ::
                Expired(rows[id], now) && rows[oldest].leaseExpiresAt.value <= rows[id].leaseExpiresAt.value
    {
      oldest :| oldest in ids;
      var rest := ids - {oldest};
      while rest != {}
        invariant rest <= ids && oldest in ids
        invariant forall id | id in ids - rest :: rows[oldest].leaseExpiresAt.value <= rows[id].leaseExpiresAt.value
        decreases rest
      {
        var id :| id in rest;
        if rows[id].leaseExpiresAt.value < rows[oldest].leaseExpiresAt.value {
          oldest := id;
        }
        rest := rest - {id};
      }
    }
  }
}
