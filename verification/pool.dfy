/** The bounded worker pool: a queue, a dispatcher, a semaphore and a wait group, as a step system. */
module Pool {
  import opened Common
  import opened Jobs

  datatype Config = Config(concurrency: nat, queueSize: nat)

  datatype Dispatcher = Selecting | Holding(job: Job) | Exited

  datatype Pool = Pool(
    queue: seq<Job>,
    closed: bool,
    cancelled: bool,          // the context given to Start
    dispatcher: Dispatcher,
    slots: nat,               // tokens in the semaphore channel
    waiting: nat,             // the wait group's counter
    running: multiset<Job>,   // goroutines inside Runner.Run
    leaving: multiset<Job>,   // goroutines that gave their slot back but are still counted
    finished: multiset<Job>,
    stopped: bool,            // Stop has returned nil
    accepted: seq<Job>,       // jobs for which Submit or SubmitBlocking returned true, in order
    started: seq<Job>)        // jobs for which Runner.Run was called, in order

  datatype Step =
    | Send(job: Job)          // a submit that finds room in the queue
    | HandOver(job: Job)      // a submit that meets the dispatcher at an unbuffered queue
    | Receive
    | ExitClosed
    | ExitCancelled
    | Launch
    | Finish(job: Job)        // Run returned or panicked
    | Leave(job: Job)
    | Close                   // Stop closes the queue
    | CancelContext
    | StopReturns

  /** The state right after Start. */
  predicate Init(s: Pool) {
    s == Pool([], false, false, Selecting, 0, 1, multiset{}, multiset{}, multiset{}, false, [], [])
  }

  predicate Enabled(cfg: Config, s: Pool, step: Step) {
    match step
    case Send(_) => !s.closed && |s.queue| < cfg.queueSize
    case HandOver(_) => !s.closed && cfg.queueSize == 0 && s.dispatcher.Selecting?
    case Receive => s.dispatcher.Selecting? && s.queue != []
    case ExitClosed => s.dispatcher.Selecting? && s.queue == [] && s.closed
    case ExitCancelled => s.dispatcher.Selecting? && s.cancelled
    case Launch => s.dispatcher.Holding? && s.slots < cfg.concurrency
    case Finish(job) => job in s.running && s.slots > 0
    case Leave(job) => job in s.leaving && s.waiting > 0
    case Close => !s.closed
    case CancelContext => true
    case StopReturns => s.closed && s.waiting == 0
  }

  function Apply(cfg: Config, s: Pool, step: Step): (r: Pool)
    requires Enabled(cfg, s, step)
  {
    match step
    case Send(job) => s.(queue := s.queue + [job], accepted := s.accepted + [job])
    case HandOver(job) => s.(dispatcher := Holding(job), accepted := s.accepted + [job])
    case Receive => s.(dispatcher := Holding(s.queue[0]), queue := s.queue[1..])
    case ExitClosed => s.(dispatcher := Exited, waiting := if s.waiting > 0 then s.waiting - 1 else 0)
    case ExitCancelled => s.(dispatcher := Exited, waiting := if s.waiting > 0 then s.waiting - 1 else 0)
    case Launch =>
      var job := s.dispatcher.job;
      s.(dispatcher := Selecting, slots := s.slots + 1, waiting := s.waiting + 1,
         running := s.running + multiset{job}, started := s.started + [job])
    case Finish(job) =>
      s.(slots := s.slots - 1, running := s.running - multiset{job}, leaving := s.leaving + multiset{job})
    case Leave(job) =>
      s.(waiting := s.waiting - 1, leaving := s.leaving - multiset{job}, finished := s.finished + multiset{job})
    case Close => s.(closed := true)
    case CancelContext => s.(cancelled := true)
    case StopReturns => s.(stopped := true)
  }

  predicate IsRun(cfg: Config, init: Pool, steps: seq<Step>)
    decreases |steps|, 0
  {
    if steps == [] then Init(init)
    else
      IsRun(cfg, init, steps[..|steps| - 1]) && Enabled(cfg, After(cfg, init, steps[..|steps| - 1]), steps[|steps| - 1])
  }

  function After(cfg: Config, init: Pool, steps: seq<Step>): (s: Pool)
    requires IsRun(cfg, init, steps)
    decreases |steps|, 1
  {
    if steps == [] then init else Apply(cfg, After(cfg, init, steps[..|steps| - 1]), steps[|steps| - 1])
  }

  function Held(d: Dispatcher): (jobs: seq<Job>) {
    if d.Holding? then [d.job] else []
  }

  /** Accepted jobs, in order, are the started ones, then the one held, then the queued ones. */
  predicate InOrder(s: Pool) {
    s.accepted == s.started + Held(s.dispatcher) + s.queue
  }

  predicate Accounted(s: Pool) {
    multiset(s.started) == s.running + s.leaving + s.finished
  }

  predicate Counted(cfg: Config, s: Pool) {
    && s.slots == |s.running| && s.slots <= cfg.concurrency && |s.queue| <= cfg.queueSize
    && s.waiting == (if s.dispatcher.Exited? then 0 else 1) + |s.running| + |s.leaving|
  }

  predicate Drained(s: Pool) {
    && (s.dispatcher.Exited? && !s.cancelled ==> s.closed && s.queue == [])
    && (s.stopped ==> s.closed && s.dispatcher.Exited? && |s.running| == 0 && |s.leaving| == 0)
  }

  predicate Inv(cfg: Config, s: Pool) {
    InOrder(s) && Accounted(s) && Counted(cfg, s) && Drained(s)
  }

  lemma StepKeepsOrder(cfg: Config, s: Pool, step: Step)
    requires InOrder(s) && Counted(cfg, s) && Enabled(cfg, s, step)
    ensures InOrder(Apply(cfg, s, step))
  {
    if step.Receive? {
      assert s.queue == [s.queue[0]] + s.queue[1..];
    }
  }

  lemma MoveOne(from: multiset<Job>, to: multiset<Job>, job: Job)
    requires job in from
    ensures (from - multiset{job}) + (to + multiset{job}) == from + to
  {
  }

  lemma StepKeepsAccounts(cfg: Config, s: Pool, step: Step)
    requires Accounted(s) && Enabled(cfg, s, step)
    ensures Accounted(Apply(cfg, s, step))
  {
    if step.Finish? {
      MoveOne(s.running, s.leaving, step.job);
    } else if step.Leave? {
      MoveOne(s.leaving, s.finished, step.job);
    }
  }

  lemma StepKeepsCounts(cfg: Config, s: Pool, step: Step)
    requires Counted(cfg, s) && Enabled(cfg, s, step)
    ensures Counted(cfg, Apply(cfg, s, step))
  {
  }

  lemma StepKeepsDrained(cfg: Config, s: Pool, step: Step)
    requires Drained(s) && Counted(cfg, s) && Enabled(cfg, s, step)
    ensures Drained(Apply(cfg, s, step))
  {
  }

  lemma {:induction false} RunKeepsInv(cfg: Config, init: Pool, steps: seq<Step>)
    requires IsRun(cfg, init, steps)
    ensures Inv(cfg, After(cfg, init, steps))
  {
    if steps != [] {
      RunKeepsInv(cfg, init, steps[..|steps| - 1]);
      var s, step := After(cfg, init, steps[..|steps| - 1]), steps[|steps| - 1];
      StepKeepsOrder(cfg, s, step);
      StepKeepsAccounts(cfg, s, step);
      StepKeepsCounts(cfg, s, step);
      StepKeepsDrained(cfg, s, step);
    }
  }

  /** Nothing is lost or duplicated: every accepted job is queued, held, running, leaving or finished. */
  lemma Conservation(cfg: Config, init: Pool, steps: seq<Step>)
    requires IsRun(cfg, init, steps)
    ensures var s := After(cfg, init, steps);
            multiset(s.accepted)
            == multiset(s.queue) + multiset(Held(s.dispatcher)) + s.running + s.leaving + s.finished
  {
    RunKeepsInv(cfg, init, steps);
    Adds(After(cfg, init, steps));
  }

  lemma Adds(s: Pool)
    requires InOrder(s) && Accounted(s)
    ensures multiset(s.accepted)
         == multiset(s.queue) + multiset(Held(s.dispatcher)) + s.running + s.leaving + s.finished
  {
  }

  /** Never more than Concurrency handlers at once, and they start in the order of acceptance. */
  lemma BoundedAndInOrder(cfg: Config, init: Pool, steps: seq<Step>)
    requires IsRun(cfg, init, steps)
    ensures var s := After(cfg, init, steps); |s.running| <= cfg.concurrency && s.started <= s.accepted
  {
    RunKeepsInv(cfg, init, steps);
    StartedFirst(After(cfg, init, steps));
  }

  lemma StartedFirst(s: Pool)
    requires InOrder(s)
    ensures s.started <= s.accepted
  {
    assert s.accepted == s.started + (Held(s.dispatcher) + s.queue);
  }

  /** Every accepted job ran, in order, and is finished. */
  predicate RanAll(s: Pool) {
    s.started == s.accepted && s.finished == multiset(s.accepted)
  }

  /** When Stop has returned nil nothing runs, and the accepted jobs ran exactly once if the queue is empty by then. */
  lemma StopDrains(cfg: Config, init: Pool, steps: seq<Step>)
    requires IsRun(cfg, init, steps) && After(cfg, init, steps).stopped
    ensures var s := After(cfg, init, steps);
            && s.running == multiset{} && s.leaving == multiset{}
            && s.accepted == s.started + s.queue
            && (RanAll(s) <==> s.queue == [])
            && (!s.cancelled || cfg.queueSize == 0 ==> RanAll(s))
  {
    RunKeepsInv(cfg, init, steps);
    Stopped(cfg, After(cfg, init, steps));
  }

  lemma Stopped(cfg: Config, s: Pool)
    requires Inv(cfg, s) && s.stopped
    ensures s.running == multiset{} && s.leaving == multiset{} && s.accepted == s.started + s.queue
    ensures (RanAll(s) <==> s.queue == []) && (!s.cancelled || cfg.queueSize == 0 ==> RanAll(s))
  {
    assert s.started + [] == s.started;
    assert |s.accepted| == |s.started| + |s.queue|;
  }

  /** In every run in which Stop returns nil, every accepted job ran. */
  ghost predicate Drains(cfg: Config, mayCancel: bool) {
    forall init: Pool, steps: seq<Step> |
      IsRun(cfg, init, steps) && After(cfg, init, steps).stopped && (mayCancel || !After(cfg, init, steps).cancelled) ::
      RanAll(After(cfg, init, steps))
  }

  /** Stop keeps its promise in every run exactly when the context is never cancelled or the queue is unbuffered. */
  lemma DrainsIff(cfg: Config, mayCancel: bool)
    ensures Drains(cfg, mayCancel) <==> !mayCancel || cfg.queueSize == 0
  {
    if mayCancel && cfg.queueSize > 0 {
      var init := Pool([], false, false, Selecting, 0, 1, multiset{}, multiset{}, multiset{}, false, [], []);
      var job := Job("", "", 0, 0, Pending, 0, None, None, None, "", None);
      var steps := CancelledContextDropsJobs(cfg, init, job);
      assert !RanAll(After(cfg, init, steps));
    } else {
      forall init: Pool, steps: seq<Step> |
        IsRun(cfg, init, steps) && After(cfg, init, steps).stopped && (mayCancel || !After(cfg, init, steps).cancelled)
        ensures RanAll(After(cfg, init, steps))
      {
        StopDrains(cfg, init, steps);
      }
    }
  }

  /** A job left in a buffered queue when the dispatcher saw the cancelled context is never run. */
  lemma CancelledContextDropsJobs(cfg: Config, init: Pool, job: Job) returns (steps: seq<Step>)
    requires Init(init) && cfg.queueSize > 0
    ensures IsRun(cfg, init, steps)
    ensures var s := After(cfg, init, steps);
            s.stopped && s.accepted == [job] && s.started == [] && s.finished == multiset{}
  {
    steps := Extend(cfg, init, [], Send(job));
    steps := Extend(cfg, init, steps, CancelContext);
    steps := Extend(cfg, init, steps, ExitCancelled);
    steps := Extend(cfg, init, steps, Close);
    steps := Extend(cfg, init, steps, StopReturns);
  }

  lemma Extend(cfg: Config, init: Pool, steps: seq<Step>, step: Step) returns (more: seq<Step>)
    requires IsRun(cfg, init, steps) && Enabled(cfg, After(cfg, init, steps), step)
    ensures IsRun(cfg, init, more) && After(cfg, init, more) == Apply(cfg, After(cfg, init, steps), step)
  {
    more := steps + [step];
    assert more[..|steps|] == steps;
  }
}
