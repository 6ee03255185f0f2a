/** JobService.Enqueue: look up the key, create, and on a duplicate look up again, with other calls in between. */
module Enqueue {
  import opened Common
  import opened Jobs
  import opened Store

  datatype Phase =
    | Looking       // before the first lookup
    | Creating      // no row had the key; about to insert
    | Relooking     // the insert hit the unique index
    | Returned(id: Id)
    | Refused(error: StoreError)

  datatype Caller = Caller(job: Job, phase: Phase)

  type CallerId = nat

  datatype System = System(rows: Rows, callers: map<CallerId, Caller>, published: seq<Id>)

  datatype Step =
    | Begin(c: CallerId, job: Job)
    | Lookup(c: CallerId, found: Option<Id>)
    | Create(c: CallerId, newId: Id, now: Time)
    | Relookup(c: CallerId, found: Option<Id>)
    | Break(c: CallerId, error: StoreError)      // the database is unreachable, or the caller dies
    | Elsewhere(rows: Rows)                      // any other store method

  /** The answer of GetJobByIdempotencyKey. */
  predicate IsLookup(rows: Rows, key: string, found: Option<Id>) {
    if found.Some? then found.value in rows && rows[found.value].key == Some(key) else !KeyTaken(rows, key)
  }

  /** What the unique index guarantees. */
  ghost predicate UniqueKeys(rows: Rows) {
    forall a, b | a in rows && b in rows && rows[a].key.Some? && rows[a].key == rows[b].key :: a == b
  }

  /** No other method removes a row or changes its key. */
  ghost predicate KeepsKeys(a: Rows, b: Rows) {
    a.Keys == b.Keys && forall id | id in a :: b[id].key == a[id].key
  }

  /** The fields Enqueue fills in before the insert. */
  function Filled(job: Job, newId: Id, now: Time): (r: Job) {
    job.(id := if job.id == "" then newId else job.id,
         scheduledAt := if job.scheduledAt.None? then Some(now) else job.scheduledAt)
  }

  predicate PublishNow(job: Job, now: Time) {
    job.scheduledAt.None? || job.scheduledAt.value <= now
  }

  ghost predicate Init(s: System) {
    UniqueKeys(s.rows) && s.callers == map[] && s.published == []
  }

  ghost predicate Enabled(s: System, step: Step) {
    match step
    case Begin(c, job) => c !in s.callers
    case Lookup(c, found) =>
      c in s.callers && s.callers[c].phase.Looking? && IsLookup(s.rows, s.callers[c].job.key, found)
    case Create(c, newId, _) => c in s.callers && s.callers[c].phase.Creating? && newId != ""
    case Relookup(c, found) =>
      c in s.callers && s.callers[c].phase.Relooking? && IsLookup(s.rows, s.callers[c].job.key, found)
    case Break(c, _) =>
      c in s.callers && !s.callers[c].phase.Returned? && !s.callers[c].phase.Refused?
    case Elsewhere(rows) => KeepsKeys(s.rows, rows)
  }

  ghost function Apply(s: System, step: Step): (r: System)
    requires Enabled(s, step)
  {
    match step
    case Begin(c, job) => s.(callers := s.callers[c := Caller(job, if job.key == "" then Creating else Looking)])
    case Lookup(c, found) => Move(s, c, if found.Some? then Returned(found.value) else Creating)
    case Create(c, newId, now) =>
      var job := Filled(s.callers[c].job, newId, now);
      var r := Created(s.rows, job, now);
      if r.Ok? then
        Move(s.(rows := r.value, published := if PublishNow(job, now) then s.published + [job.id] else s.published),
             c, Returned(job.id))
      else if r.error == DuplicateIdempotencyKey && job.key != "" then Move(s, c, Relooking)
      else Move(s, c, Refused(r.error))
    case Relookup(c, found) => Move(s, c, if found.Some? then Returned(found.value) else Refused(JobNotFound))
    case Break(c, error) => Move(s, c, Refused(error))
    case Elsewhere(rows) => s.(rows := rows)
  }

  function Move(s: System, c: CallerId, phase: Phase): (r: System)
    requires c in s.callers
  {
    s.(callers := s.callers[c := s.callers[c].(phase := phase)])
  }

  ghost predicate IsRun(init: System, steps: seq<Step>)
    decreases |steps|, 0
  {
    if steps == [] then Init(init)
    else IsRun(init, steps[..|steps| - 1]) && Enabled(After(init, steps[..|steps| - 1]), steps[|steps| - 1])
  }

  ghost function After(init: System, steps: seq<Step>): (s: System)
    requires IsRun(init, steps)
    decreases |steps|, 1
  {
    if steps == [] then init else Apply(After(init, steps[..|steps| - 1]), steps[|steps| - 1])
  }

  // ---------------------------------------------------------------------------------------------

  ghost predicate CallerOk(rows: Rows, v: Caller) {
    && (v.phase.Looking? || v.phase.Relooking? ==> v.job.key != "")
    && (v.phase.Relooking? ==> KeyTaken(rows, v.job.key))
    && (v.phase.Returned? && v.job.key != "" ==> v.phase.id in rows && rows[v.phase.id].key == Some(v.job.key))
  }

  predicate PublishedOnce(s: seq<Id>) {
    forall i, j | 0 <= i < j < |s| :: s[i] != s[j]
  }

  ghost predicate Inv(s: System) {
    && UniqueKeys(s.rows)
    && (forall c | c in s.callers :: CallerOk(s.rows, s.callers[c]))
    && PublishedOnce(s.published) && forall i | 0 <= i < |s.published| :: s.published[i] in s.rows
  }

  lemma CreateKeepsUnique(rows: Rows, job: Job, now: Time)
    requires UniqueKeys(rows) && Created(rows, job, now).Ok?
    ensures UniqueKeys(Created(rows, job, now).value) && job.id !in rows
    ensures forall id | id in rows ::
              id in Created(rows, job, now).value && Created(rows, job, now).value[id] == rows[id]
  {
  }

  /** Rows and their keys stay whatever happens. */
  lemma KeysStay(s: System, step: Step)
    requires Enabled(s, step)
    ensures forall id | id in s.rows :: id in Apply(s, step).rows && Apply(s, step).rows[id].key == s.rows[id].key
  {
  }

  lemma StepKeepsCaller(s: System, step: Step, c: CallerId)
    requires Inv(s) && Enabled(s, step) && c in Apply(s, step).callers
    ensures CallerOk(Apply(s, step).rows, Apply(s, step).callers[c])
  {
    KeysStay(s, step);
    var s' := Apply(s, step);
    if c in s.callers {
      assert CallerOk(s.rows, s.callers[c]);
      if KeyTaken(s.rows, s.callers[c].job.key) {
        var id :| id in s.rows && s.rows[id].key == Some(s.callers[c].job.key);
        assert id in s'.rows && s'.rows[id].key == Some(s.callers[c].job.key);
      }
    }
  }

  lemma StepKeepsInv(s: System, step: Step)
    requires Inv(s) && Enabled(s, step)
    ensures Inv(Apply(s, step))
  {
    KeysStay(s, step);
    var s' := Apply(s, step);
    forall c | c in s'.callers ensures CallerOk(s'.rows, s'.callers[c]) {
      StepKeepsCaller(s, step, c);
    }
    if step.Create? {
      var job := Filled(s.callers[step.c].job, step.newId, step.now);
      if Created(s.rows, job, step.now).Ok? {
        CreateKeepsUnique(s.rows, job, step.now);
      }
    }
  }

  lemma {:induction false} RunKeepsInv(init: System, steps: seq<Step>)
    requires IsRun(init, steps)
    ensures Inv(After(init, steps))
  {
    if steps != [] {
      RunKeepsInv(init, steps[..|steps| - 1]);
      StepKeepsInv(After(init, steps[..|steps| - 1]), steps[|steps| - 1]);
    }
  }

  /** At most one row has a key, and every successful call with that key returned its id. */
  lemma OneRowPerKey(init: System, steps: seq<Step>, c: CallerId, d: CallerId)
    requires IsRun(init, steps) && c in After(init, steps).callers && d in After(init, steps).callers
    requires var v, w := After(init, steps).callers[c], After(init, steps).callers[d];
             v.phase.Returned? && w.phase.Returned? && v.job.key == w.job.key != ""
    ensures var s := After(init, steps);
            && s.callers[c].phase.id == s.callers[d].phase.id
            && s.callers[c].phase.id in s.rows && s.rows[s.callers[c].phase.id].key == Some(s.callers[c].job.key)
            && forall id | id in s.rows && s.rows[id].key == Some(s.callers[c].job.key) :: id == s.callers[c].phase.id
  {
    RunKeepsInv(init, steps);
    var s := After(init, steps);
    assert CallerOk(s.rows, s.callers[c]) && CallerOk(s.rows, s.callers[d]);
  }

  /** The lookup after a duplicate error always finds the row. */
  lemma RelookupFinds(init: System, steps: seq<Step>, c: CallerId, found: Option<Id>)
    requires IsRun(init, steps) && Enabled(After(init, steps), Relookup(c, found))
    ensures found.Some? && Apply(After(init, steps), Relookup(c, found)).callers[c].phase == Returned(found.value)
  {
    RunKeepsInv(init, steps);
    assert CallerOk(After(init, steps).rows, After(init, steps).callers[c]);
  }

  /** At most one publish is issued for a row, and none without a row; so at most one for a key. */
  lemma OnePublishPerKey(init: System, steps: seq<Step>, i: nat, j: nat)
    requires IsRun(init, steps) && i < |After(init, steps).published| && j < |After(init, steps).published|
    ensures var s := After(init, steps);
            && s.published[i] in s.rows && s.published[j] in s.rows
            && (s.published[i] == s.published[j] ==> i == j)
            && (s.rows[s.published[i]].key.Some? && s.rows[s.published[i]].key == s.rows[s.published[j]].key ==> i == j)
  {
    RunKeepsInv(init, steps);
  }

  // ---------------------------------------------------------------------------------------------
  // One call

  /** The table that is there after other callers had their turn. */
  function Left(rows: Rows, others: Option<Rows>): (r: Rows) {
    if others.Some? then others.value else rows
  }

  class JobService {
    const store: PostgresStore

    constructor (store: PostgresStore)
      ensures this.store == store
    {
      this.store := store;
    }

    method Lookup(key: string) returns (found: Option<Id>)
      ensures IsLookup(store.rows, key, found)
    {
      if id :| id in store.rows && store.rows[id].key == Some(key) {
        return Some(id);
      }
      return None;
    }

    /**
     * One call. Other callers may leave another table between the lookup and the insert, and between a duplicate error
     * and the second lookup; `None` means they did nothing.
     */
    method Enqueue(job: Job, newId: Id, now: Time, between: Option<Rows>, later: Option<Rows>)
      returns (r: Result<Id, StoreError>, published: bool)
      requires newId != ""
      modifies store
      ensures job.key != "" && KeyTaken(old(store.rows), job.key) ==>
                store.rows == old(store.rows) && !published && r.Ok? && IsLookup(store.rows, job.key, Some(r.value))
      ensures job.key == "" || !KeyTaken(old(store.rows), job.key) ==>
                var found, filled := Left(old(store.rows), between), Filled(job, newId, now);
                var created := Created(found, filled, now);
                if created.Ok? then
                  store.rows == created.value && r == Ok(filled.id) && published == PublishNow(filled, now)
                else if created.error.DuplicateIdempotencyKey? then
                  && store.rows == Left(found, later) && !published
                  && (if KeyTaken(store.rows, job.key) then r.Ok? && IsLookup(store.rows, job.key, Some(r.value))
                      else r == Err(JobNotFound))
                else
                  store.rows == found && !published && r == Err(created.error)
      ensures r.Ok? && job.key != "" ==> IsLookup(store.rows, job.key, Some(r.value))
    {
      published := false;
      if job.key != "" {
        var existing := Lookup(job.key);
        if existing.Some? {
          return Ok(existing.value), false;
        }
      }
      var filled := Filled(job, newId, now);
      store.rows := Left(store.rows, between);
      var created := store.CreateJob(filled, now);
      if created.Err? {
        if created.error.DuplicateIdempotencyKey? && job.key != "" {
          store.rows := Left(store.rows, later);
          var existing := Lookup(job.key);
          if existing.None? {
            return Err(JobNotFound), false;
          }
          return Ok(existing.value), false;
        }
        return Err(created.error), false;
      }
      return Ok(filled.id), PublishNow(filled, now);
    }
  }
}
