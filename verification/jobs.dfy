/** The jobs table: its rows, the job values callers hold, and the effect of each SQL statement. */
module Jobs {
  import opened Common

  type Id = string
  type Token = string
  type Time = int

  /** The zero time.Time; other times count nanoseconds from it. */
  const ZERO_TIME: Time := 0

  datatype JobState = Pending | Running | Completed | Failed | Dead

  /** One row. Only the columns some guard reads or some property speaks of are kept. */
  datatype Row = Row(
    key: Option<string>,
    createdAt: Time,
    maxRetries: int,
    state: JobState,
    attempt: int,
    scheduledAt: Option<Time>,
    startedAt: Option<Time>,
    leaseExpiresAt: Option<Time>,
    leaseToken: Option<Token>,
    completedAt: Option<Time>)

  type Rows = map<Id, Row>

  /** A job value held by a worker or carried by a message. An empty token means none. */
  datatype Job = Job(
    id: Id,
    key: string,
    createdAt: Time,
    maxRetries: int,
    state: JobState,
    attempt: int,
    scheduledAt: Option<Time>,
    startedAt: Option<Time>,
    leaseExpiresAt: Option<Time>,
    leaseToken: Token,
    completedAt: Option<Time>)

  datatype StoreError = JobNotFound | InvalidTransition | DuplicateIdempotencyKey | DatabaseError

  function Nullable(s: string): (o: Option<string>) {
    if s == "" then None else Some(s)
  }

  function Text(o: Option<string>): (s: string) {
    if o.None? then "" else o.value
  }

  function RowOf(job: Job): (row: Row) {
    Row(Nullable(job.key), job.createdAt, job.maxRetries, job.state, job.attempt, job.scheduledAt, job.startedAt,
        job.leaseExpiresAt, Nullable(job.leaseToken), job.completedAt)
  }

  /** CreateJob dates a job that has no creation time yet. */
  function Stamped(job: Job, now: Time): (r: Job) {
    if job.createdAt == ZERO_TIME then job.(createdAt := now) else job
  }

  function JobOf(id: Id, row: Row): (job: Job) {
    Job(id, Text(row.key), row.createdAt, row.maxRetries, row.state, row.attempt, row.scheduledAt, row.startedAt,
        row.leaseExpiresAt, Text(row.leaseToken), row.completedAt)
  }

  predicate CanTransition(from: JobState, to: JobState) {
    match from
    case Pending => to.Running? || to.Dead?
    case Running => to.Completed? || to.Failed? || to.Dead?
    case Failed => to.Pending? || to.Dead?
    case Completed => false
    case Dead => false
  }

  /** The WHERE clause of UpdateJob's statement, for the row with the job's id. */
  predicate UpdateGuard(row: Row, job: Job) {
    || job.leaseToken == ""
    || row.leaseToken == Some(job.leaseToken)
    || (row.state.Pending? && job.state.Running? && row.leaseToken.None?)
  }

  /** The SET list of UpdateJob's statement. */
  function Written(row: Row, job: Job): (r: Row) {
    row.(state := job.state,
         attempt := job.attempt,
         scheduledAt := job.scheduledAt,
         startedAt := job.startedAt,
         leaseExpiresAt := job.leaseExpiresAt,
         leaseToken := if job.state in {Completed, Dead, Pending} then None else Nullable(job.leaseToken),
         completedAt := job.completedAt)
  }

  /** Selected by ClaimNextJob at database time `now`. */
  predicate Due(row: Row, now: Time) {
    row.state.Pending? && (row.scheduledAt.None? || row.scheduledAt.value <= now)
  }

  /** ORDER BY scheduled_at ASC NULLS LAST. */
  predicate NotAfter(a: Option<Time>, b: Option<Time>) {
    b.None? || (a.Some? && a.value <= b.value)
  }

  function Claimed(row: Row, at: Time, lease: int, token: Token): (r: Row) {
    row.(state := Running, attempt := row.attempt + 1, startedAt := Some(at),
         leaseExpiresAt := Some(at + lease), leaseToken := Some(token))
  }

  /** The WHERE clause shared by RenewLease and ReleaseClaim. */
  predicate Holds(row: Row, token: Token) {
    row.state.Running? && row.leaseToken == Some(token)
  }

  function Released(row: Row): (r: Row) {
    row.(state := Pending, startedAt := None, leaseExpiresAt := None, leaseToken := None)
  }

  predicate Expired(row: Row, now: Time) {
    row.state.Running? && row.leaseExpiresAt.Some? && row.leaseExpiresAt.value <= now
  }

  predicate Exhausted(row: Row) {
    row.maxRetries > 0 && row.attempt >= row.maxRetries
  }

  function RequeuedRow(row: Row, now: Time): (r: Row) {
    row.(state := if Exhausted(row) then Dead else Pending,
         scheduledAt := if Exhausted(row) then row.scheduledAt else Some(now),
         startedAt := None, leaseExpiresAt := None, leaseToken := None)
  }

  function Requeued(rows: Rows, ids: set<Id>, now: Time): (r: Rows)
    ensures r.Keys == rows.Keys
  {
    map id | id in rows :: if id in ids then RequeuedRow(rows[id], now) else rows[id]
  }

  /** What the RequeueExpiredRunning query selects when no row is locked by another statement. */
  ghost predicate IsExpiredBatch(rows: Rows, now: Time, limit: nat, ids: set<Id>) {
    && ids <= rows.Keys
    && |ids| <= limit
    && (forall id | id in ids :: Expired(rows[id], now))
    && (forall id | id in rows && id !in ids && Expired(rows[id], now) :: |ids| == limit)
    && (forall a, b | a in ids && b in rows && b !in ids && Expired(rows[b], now) ::
          rows[a].leaseExpiresAt.value <= rows[b].leaseExpiresAt.value)
  }

  /** The whole effect of UpdateJob when nothing runs between its read and its write. */
  function Updated(rows: Rows, job: Job): (r: Result<Rows, StoreError>) {
    if job.id !in rows then Err(JobNotFound)
    else if !CanTransition(rows[job.id].state, job.state) then Err(InvalidTransition)
    else if !UpdateGuard(rows[job.id], job) then Err(InvalidTransition)
    else Ok(rows[job.id := Written(rows[job.id], job)])
  }

  /** The whole effect of CancelJob when nothing runs between its read and its write. */
  function Cancelled(rows: Rows, id: Id): (r: Result<Rows, StoreError>) {
    if id !in rows then Err(JobNotFound)
    else if !CanTransition(rows[id].state, Dead) then Err(InvalidTransition)
    else Ok(rows[id := rows[id].(state := Dead)])
  }

  /** The unique index on non-null idempotency keys and the primary key. */
  function Created(rows: Rows, job: Job, now: Time): (r: Result<Rows, StoreError>) {
    if job.id in rows then Err(DatabaseError)
    else if job.key != "" && KeyTaken(rows, job.key) then Err(DuplicateIdempotencyKey)
    else Ok(rows[job.id := RowOf(Stamped(job, now))])
  }

  predicate KeyTaken(rows: Rows, key: string) {
    exists id :: id in rows && rows[id].key == Some(key)
  }
}
