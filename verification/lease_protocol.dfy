/**
 * The lease protocol over the shared jobs table, at the grain of single SQL statements: the read and
 * the write inside UpdateJob and CancelJob are separate steps, so anything may run between them.
 * Any number of workers, reconcilers and cancellers take steps in any order, and any of them may die
 * between two steps.
 */
module LeaseProtocol {
  import opened Common
  import opened Jobs
  import Backoff

  type WorkerId = nat
  type CallId = nat

  /** How far one call of jobWorker.Run has come. */
  datatype Phase =
    | Queued      // handed to the pool, not yet past the breaker and the execution lock
    | Claiming    // UpdateJob has read a claimable row and is about to write RUNNING
    | Ready       // the claim write took effect, the handler has not started
    | Executing   // the handler runs
    | Reading     // about to call UpdateJob with the job's new state
    | Writing     // UpdateJob has read the row and accepted the transition

  datatype Worker = Worker(job: Job, phase: Phase, retryAt: Time)

  /**
   * Settings that never change: the lease length, the retry engine's limit on attempts (0 for none) and
   * the delays the engine may return after a number of attempts.
   */
  datatype Config = Config(lease: int, maxAttempts: int, delays: (int, int) -> bool)

  datatype System = System(
    config: Config,
    now: Time,
    rows: Rows,
    workers: map<WorkerId, Worker>,
    cancels: map<CallId, Id>,   // CancelJob calls that passed their check and have not written yet
    issued: set<Token>)         // every lease token generated so far

  datatype Step =
    | Tick(time: Time)
    | Create(id: Id, key: Option<string>, createdAt: Time, maxRetries: int, scheduledAt: Option<Time>)
    | ClaimNext(w: WorkerId, id: Id, token: Token)
    | Deliver(w: WorkerId, message: Job)
    | Release(w: WorkerId)
    | KafkaRead(w: WorkerId, token: Token)
    | KafkaWrite(w: WorkerId)
    | Start(w: WorkerId)
    | Succeed(w: WorkerId)
    | Fail(w: WorkerId, permanent: bool, delay: int)
    | Read(w: WorkerId)
    | Write(w: WorkerId)
    | Renew(w: WorkerId)
    | Requeue(ids: set<Id>)
    | CancelRead(c: CallId, id: Id)
    | CancelWrite(c: CallId)
    | Crash(w: WorkerId)
    | CancelCrash(c: CallId)

  predicate Init(s: System) {
    s.rows == map[] && s.workers == map[] && s.cancels == map[] && s.issued == {}
  }

  predicate Fresh(s: System, token: Token) {
    token != "" && token !in s.issued
  }

  /** jobWorker.shouldRetry. */
  predicate ShouldRetry(job: Job, permanent: bool, maxAttempts: int) {
    if job.maxRetries > 0 then !permanent && job.attempt < job.maxRetries
    else Backoff.ShouldRetry(maxAttempts, job.attempt, permanent)
  }

  /** Run first waits for the time the job value carries, or returns when that is too far away. */
  predicate NotEarly(job: Job, now: Time) {
    job.scheduledAt.None? || job.scheduledAt.value <= now
  }

  predicate Started(p: Phase) {
    p.Executing? || p.Reading? || p.Writing?
  }

  ghost predicate Enabled(s: System, step: Step) {
    match step
    case Tick(time) => s.now <= time
    case Create(id, _, _, _, _) => id !in s.rows
    case ClaimNext(w, id, token) =>
      w !in s.workers && Fresh(s, token) && id in s.rows && Due(s.rows[id], s.now)
    case Deliver(w, message) => w !in s.workers && message.state.Pending? && message.leaseToken == ""
    case Release(w) => w in s.workers && s.workers[w].phase.Queued? && s.workers[w].job.state.Running?
    case KafkaRead(w, token) =>
      && w in s.workers && s.workers[w].phase.Queued? && !s.workers[w].job.state.Running? && Fresh(s, token)
      && NotEarly(s.workers[w].job, s.now)
    case KafkaWrite(w) => w in s.workers && s.workers[w].phase.Claiming?
    case Start(w) =>
      && w in s.workers
      && (s.workers[w].phase.Ready? || (s.workers[w].phase.Queued? && s.workers[w].job.state.Running?))
    case Succeed(w) => w in s.workers && s.workers[w].phase.Executing?
    case Fail(w, _, delay) =>
      && w in s.workers && s.workers[w].phase.Executing?
      && s.config.delays(s.workers[w].job.attempt, delay)
    case Read(w) => w in s.workers && s.workers[w].phase.Reading?
    case Write(w) => w in s.workers && s.workers[w].phase.Writing?
    case Renew(w) => w in s.workers && Started(s.workers[w].phase)
    case Requeue(ids) => ids <= s.rows.Keys && forall id | id in ids :: Expired(s.rows[id], s.now)
    case CancelRead(c, _) => c !in s.cancels
    case CancelWrite(c) => c in s.cancels
    case Crash(w) => w in s.workers
    case CancelCrash(c) => c in s.cancels
  }

  /** The job value a worker writes to claim a row for a message it was delivered. */
  function KafkaClaim(s: System, job: Job, token: Token): (r: Job) {
    job.(attempt := job.attempt + 1, state := Running, startedAt := Some(s.now),
         leaseExpiresAt := Some(s.now + s.config.lease), leaseToken := token)
  }

  /** The job value scheduleRetry writes second. */
  function Rescheduled(job: Job, at: Time): (r: Job) {
    job.(state := Pending, scheduledAt := Some(at), startedAt := None, leaseExpiresAt := None)
  }

  /** Whether UpdateJob's statement finds a row for this job. */
  predicate Takes(rows: Rows, job: Job) {
    job.id in rows && UpdateGuard(rows[job.id], job)
  }

  predicate Holding(rows: Rows, job: Job) {
    job.id in rows && Holds(rows[job.id], job.leaseToken)
  }

  function UpdateStatement(rows: Rows, job: Job): (r: Rows) {
    if Takes(rows, job) then rows[job.id := Written(rows[job.id], job)] else rows
  }

  ghost function RowsAfter(s: System, step: Step): (rows: Rows)
    requires Enabled(s, step)
  {
    match step
    case Create(id, key, createdAt, maxRetries, scheduledAt) =>
      s.rows[id := Row(key, createdAt, maxRetries, Pending, 0, scheduledAt, None, None, None, None)]
    case ClaimNext(_, id, token) => s.rows[id := Claimed(s.rows[id], s.now, s.config.lease, token)]
    case Release(w) =>
      var job := s.workers[w].job;
      if Holding(s.rows, job) then s.rows[job.id := Released(s.rows[job.id])] else s.rows
    case KafkaWrite(w) => UpdateStatement(s.rows, s.workers[w].job)
    case Write(w) => UpdateStatement(s.rows, s.workers[w].job)
    case Renew(w) =>
      var job := s.workers[w].job;
      if Holding(s.rows, job)
      then s.rows[job.id := s.rows[job.id].(leaseExpiresAt := Some(s.now + s.config.lease))]
      else s.rows
    case Requeue(ids) => Requeued(s.rows, ids, s.now)
    case CancelWrite(c) =>
      var id := s.cancels[c];
      if id in s.rows then s.rows[id := s.rows[id].(state := Dead)] else s.rows
    case _ => s.rows
  }

  /** Steps that move a worker through its Run or end it. */
  predicate Moves(step: Step) {
    || step.Release? || step.KafkaRead? || step.KafkaWrite? || step.Start? || step.Succeed? || step.Fail?
    || step.Read? || step.Write? || step.Crash?
  }

  /** The acting worker's next state, or None when its Run returns. */
  ghost function Next(s: System, step: Step, v: Worker): (r: Option<Worker>)
  {
    match step
    case KafkaRead(_, token) =>
      if v.job.id in s.rows && CanTransition(s.rows[v.job.id].state, Running)
      then Some(Worker(KafkaClaim(s, v.job, token), Claiming, 0))
      else None
    case KafkaWrite(_) => if Takes(s.rows, v.job) then Some(v.(phase := Ready)) else None
    case Start(_) => Some(v.(phase := Executing))
    case Succeed(_) =>
      Some(Worker(v.job.(state := Completed, completedAt := Some(s.now), leaseExpiresAt := None), Reading, 0))
    case Fail(_, permanent, delay) =>
      if ShouldRetry(v.job, permanent, s.config.maxAttempts)
      then Some(Worker(v.job.(state := Failed), Reading, s.now + delay))
      else Some(Worker(v.job.(state := Dead, leaseExpiresAt := None), Reading, 0))
    case Read(_) =>
      if v.job.id in s.rows && CanTransition(s.rows[v.job.id].state, v.job.state)
      then Some(v.(phase := Writing))
      else None
    case Write(_) =>
      if Takes(s.rows, v.job) && v.job.state.Failed?
      then Some(Worker(Rescheduled(v.job, v.retryAt), Reading, v.retryAt))
      else None
    case _ => None
  }

  ghost function WorkersAfter(s: System, step: Step): (workers: map<WorkerId, Worker>)
    requires Enabled(s, step)
  {
    if step.ClaimNext? then
      var row := Claimed(s.rows[step.id], s.now, s.config.lease, step.token);
      s.workers[step.w := Worker(JobOf(step.id, row), Queued, 0)]
    else if step.Deliver? then s.workers[step.w := Worker(step.message, Queued, 0)]
    else if Moves(step) then
      var next := Next(s, step, s.workers[step.w]);
      if next.Some? then s.workers[step.w := next.value] else s.workers - {step.w}
    else s.workers
  }

  ghost function Apply(s: System, step: Step): (r: System)
    requires Enabled(s, step)
  {
    System(
      s.config,
      if step.Tick? then step.time else s.now,
      RowsAfter(s, step),
      WorkersAfter(s, step),
      if step.CancelRead? && step.id in s.rows && CanTransition(s.rows[step.id].state, Dead)
      then s.cancels[step.c := step.id]
      else if step.CancelWrite? || step.CancelCrash? then s.cancels - {step.c} else s.cancels,
      if step.ClaimNext? || step.KafkaRead? then s.issued + {step.token} else s.issued)
  }

  /** A finite run: every step is enabled where it is taken. */
  ghost predicate IsRun(init: System, steps: seq<Step>)
    decreases |steps|, 0
  {
    if steps == [] then Init(init)
    else IsRun(init, steps[..|steps| - 1]) && Enabled(After(init, steps[..|steps| - 1]), steps[|steps| - 1])
  }

  /** The state a run ends in. */
  ghost function After(init: System, steps: seq<Step>): (s: System)
    requires IsRun(init, steps)
    decreases |steps|, 1
  {
    if steps == [] then init else Apply(After(init, steps[..|steps| - 1]), steps[|steps| - 1])
  }

  // ---------------------------------------------------------------------------------------------
  // What every step keeps

  predicate Issued(issued: set<Token>, job: Job) {
    job.leaseToken != "" && job.leaseToken in issued
  }

  /** What a worker holds in each phase. */
  predicate WorkerOk(issued: set<Token>, w: Worker) {
    match w.phase
    case Queued => (w.job.state.Pending? && w.job.leaseToken == "") || (w.job.state.Running? && Issued(issued, w.job))
    case Claiming =>
      w.job.state.Running? && Issued(issued, w.job) && w.job.startedAt.Some? && w.job.leaseExpiresAt.Some?
    case Ready => w.job.state.Running? && Issued(issued, w.job)
    case Executing => w.job.state.Running? && Issued(issued, w.job)
    case _ =>
      && !w.job.state.Running? && Issued(issued, w.job)
      && (w.job.state.Pending? ==> w.job.leaseExpiresAt.None? && w.job.startedAt.None?)
  }

  /** What a row looks like in each state. */
  predicate RowOk(issued: set<Token>, row: Row) {
    && (row.leaseToken.Some? ==> row.leaseToken.value in issued && row.leaseToken.value != "")
    && (row.leaseToken.Some? ==> !row.state.Pending? && !row.state.Completed?)
    && (row.state.Running? ==> row.leaseToken.Some? && row.leaseExpiresAt.Some? && row.startedAt.Some?)
    && (row.state.Pending? ==> row.leaseExpiresAt.None? && row.startedAt.None?)
  }

  /** No two workers share a lease token. */
  predicate OwnTokens(v: Worker, w: Worker) {
    v.job.leaseToken != "" ==> v.job.leaseToken != w.job.leaseToken
  }

  /** A token about to be used for a claim is in no row yet. */
  predicate Unused(w: Worker, row: Row) {
    w.phase.Claiming? ==> row.leaseToken != Some(w.job.leaseToken)
  }

  ghost predicate Inv(s: System) {
    && (forall w | w in s.workers :: WorkerOk(s.issued, s.workers[w]))
    && (forall id | id in s.rows :: RowOk(s.issued, s.rows[id]))
    && (forall v, w | v in s.workers && w in s.workers && v != w :: OwnTokens(s.workers[v], s.workers[w]))
    && (forall w, id | w in s.workers && id in s.rows :: Unused(s.workers[w], s.rows[id]))
  }

  lemma StepKeepsRow(s: System, step: Step, id: Id)
    requires Inv(s) && Enabled(s, step) && id in Apply(s, step).rows
    ensures RowOk(Apply(s, step).issued, Apply(s, step).rows[id])
  {
    assert id in s.rows ==> RowOk(s.issued, s.rows[id]);
    if step.KafkaWrite? || step.Write? {
      assert WorkerOk(s.issued, s.workers[step.w]);
    }
  }

  lemma NextKeepsWorker(s: System, step: Step, v: Worker)
    requires WorkerOk(s.issued, v)
    requires step.KafkaRead? ==> v.phase.Queued? && v.job.state.Pending? && step.token != ""
    requires step.KafkaWrite? ==> v.phase.Claiming?
    requires step.Start? ==> v.job.state.Running?
    requires step.Succeed? || step.Fail? || step.Write? ==> !v.phase.Queued?
    requires step.Read? || step.Write? ==> v.phase.Reading? || v.phase.Writing?
    ensures var next := Next(s, step, v);
            next.Some? ==> WorkerOk(if step.KafkaRead? then s.issued + {step.token} else s.issued, next.value)
  {
  }

  lemma StepKeepsWorker(s: System, step: Step, v: WorkerId)
    requires Inv(s) && Enabled(s, step) && v in Apply(s, step).workers
    ensures WorkerOk(Apply(s, step).issued, Apply(s, step).workers[v])
  {
    assert v in s.workers ==> WorkerOk(s.issued, s.workers[v]);
    if Moves(step) && step.w == v {
      NextKeepsWorker(s, step, s.workers[v]);
    }
  }

  /** A worker's token is empty, its own from before, or the one just generated for it. */
  lemma TokenFrame(s: System, step: Step, v: WorkerId)
    requires Inv(s) && Enabled(s, step) && v in Apply(s, step).workers
    ensures var t := Apply(s, step).workers[v].job.leaseToken;
            || t == ""
            || ((step.ClaimNext? || step.KafkaRead?) && step.w == v && t == step.token)
            || (v in s.workers && t == s.workers[v].job.leaseToken && t in s.issued)
  {
    assert v in s.workers ==> WorkerOk(s.issued, s.workers[v]);
  }

  lemma StepKeepsTokens(s: System, step: Step, v: WorkerId, w: WorkerId)
    requires Inv(s) && Enabled(s, step) && v in Apply(s, step).workers && w in Apply(s, step).workers && v != w
    ensures OwnTokens(Apply(s, step).workers[v], Apply(s, step).workers[w])
  {
    TokenFrame(s, step, v);
    TokenFrame(s, step, w);
    assert v in s.workers && w in s.workers ==> OwnTokens(s.workers[v], s.workers[w]);
  }

  /** A row's token is kept, cleared, or replaced by the token of the claim that takes the row. */
  lemma RowTokenFrame(s: System, step: Step, id: Id)
    requires Inv(s) && Enabled(s, step) && id in s.rows
    ensures id in Apply(s, step).rows
    ensures var t := Apply(s, step).rows[id].leaseToken;
            || t == s.rows[id].leaseToken
            || t.None?
            || (step.ClaimNext? && t.value == step.token)
            || (step.KafkaWrite? && t.value == s.workers[step.w].job.leaseToken)
  {
    if step.KafkaWrite? || step.Write? {
      assert WorkerOk(s.issued, s.workers[step.w]);
    }
  }

  /** A worker about to claim was already about to claim, or has just generated its token. */
  lemma ClaimingFrame(s: System, step: Step, v: WorkerId)
    requires Enabled(s, step) && v in Apply(s, step).workers && Apply(s, step).workers[v].phase.Claiming?
    ensures || (step.KafkaRead? && step.token == Apply(s, step).workers[v].job.leaseToken)
            || (v in s.workers && s.workers[v] == Apply(s, step).workers[v] && !(step.KafkaWrite? && step.w == v))
  {
  }

  lemma StepKeepsUnused(s: System, step: Step, w: WorkerId, id: Id)
    requires Inv(s) && Enabled(s, step) && w in Apply(s, step).workers && id in Apply(s, step).rows
    ensures Unused(Apply(s, step).workers[w], Apply(s, step).rows[id])
  {
    if Apply(s, step).workers[w].phase.Claiming? && id in s.rows {
      RowTokenFrame(s, step, id);
      ClaimingFrame(s, step, w);
      assert RowOk(s.issued, s.rows[id]);
      if !step.KafkaRead? {
        assert WorkerOk(s.issued, s.workers[w]);
        assert Unused(s.workers[w], s.rows[id]);
        if step.KafkaWrite? {
          assert OwnTokens(s.workers[w], s.workers[step.w]);
        }
      }
    }
  }

  lemma StepKeepsInv(s: System, step: Step)
    requires Inv(s) && Enabled(s, step)
    ensures Inv(Apply(s, step))
  {
    var s' := Apply(s, step);
    forall id | id in s'.rows ensures RowOk(s'.issued, s'.rows[id]) {
      StepKeepsRow(s, step, id);
    }
    forall w | w in s'.workers ensures WorkerOk(s'.issued, s'.workers[w]) {
      StepKeepsWorker(s, step, w);
    }
    forall v, w | v in s'.workers && w in s'.workers && v != w ensures OwnTokens(s'.workers[v], s'.workers[w]) {
      StepKeepsTokens(s, step, v, w);
    }
    forall w, id | w in s'.workers && id in s'.rows ensures Unused(s'.workers[w], s'.rows[id]) {
      StepKeepsUnused(s, step, w, id);
    }
  }

  lemma {:induction false} RunKeepsInv(init: System, steps: seq<Step>)
    requires IsRun(init, steps)
    ensures Inv(After(init, steps))
  {
    if steps != [] {
      RunKeepsInv(init, steps[..|steps| - 1]);
      StepKeepsInv(After(init, steps[..|steps| - 1]), steps[|steps| - 1]);
    }
  }
}
