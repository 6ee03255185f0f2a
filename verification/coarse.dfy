/**
 * The protocol with each store method atomic: UpdateJob and CancelJob read and write in one step. Every such
 * run is a run of the fine-grained protocol, and here the transition table really governs every row.
 */
module Coarse {
  import opened Common
  import opened Jobs
  import opened LeaseProtocol
  import opened Fencing

  datatype Call =
    | Single(step: Step)                       // a method that is one statement, or a step outside the store
    | UpdateCall(w: WorkerId)                  // a worker's whole UpdateJob
    | ClaimCall(w: WorkerId, token: Token)     // a worker's whole UpdateJob to RUNNING
    | CancelCall(c: CallId, id: Id)            // a whole CancelJob

  ghost predicate CallEnabled(s: System, call: Call) {
    match call
    case Single(step) =>
      && Enabled(s, step) && !step.Read? && !step.Write? && !step.KafkaRead? && !step.KafkaWrite?
      && !step.CancelRead? && !step.CancelWrite?
    case UpdateCall(w) => Enabled(s, Read(w))
    case ClaimCall(w, token) => Enabled(s, KafkaRead(w, token))
    case CancelCall(c, id) => Enabled(s, CancelRead(c, id))
  }

  /** One call, with the store's part given by the store's own atomic methods. */
  ghost function ApplyCall(s: System, call: Call): (r: System)
    requires CallEnabled(s, call)
  {
    match call
    case Single(step) => Apply(s, step)
    case UpdateCall(w) =>
      var v := s.workers[w];
      var r := Updated(s.rows, v.job);
      if r.Err? then s.(workers := s.workers - {w})
      else if v.job.state.Failed?
      then s.(rows := r.value, workers := s.workers[w := Worker(Rescheduled(v.job, v.retryAt), Reading, v.retryAt)])
      else s.(rows := r.value, workers := s.workers - {w})
    case ClaimCall(w, token) =>
      var job := KafkaClaim(s, s.workers[w].job, token);
      var r := Updated(s.rows, job);
      var s' := s.(issued := s.issued + {token});
      if r.Ok? then s'.(rows := r.value, workers := s.workers[w := Worker(job, Ready, 0)])
      else s'.(workers := s.workers - {w})
    case CancelCall(_, id) =>
      var r := Cancelled(s.rows, id);
      if r.Ok? then s.(rows := r.value) else s
  }

  ghost predicate IsCallRun(init: System, calls: seq<Call>)
    decreases |calls|, 0
  {
    if calls == [] then Init(init)
    else
      && IsCallRun(init, calls[..|calls| - 1])
      && CallEnabled(AfterCalls(init, calls[..|calls| - 1]), calls[|calls| - 1])
  }

  ghost function AfterCalls(init: System, calls: seq<Call>): (s: System)
    requires IsCallRun(init, calls)
    decreases |calls|, 1
  {
    if calls == [] then init else ApplyCall(AfterCalls(init, calls[..|calls| - 1]), calls[|calls| - 1])
  }

  // ---------------------------------------------------------------------------------------------
  // Atomic calls are pairs of fine steps with nothing in between

  lemma UpdateIsTwoSteps(s: System, w: WorkerId)
    requires Enabled(s, Read(w))
    ensures var s1 := Apply(s, Read(w));
            if Enabled(s1, Write(w)) then Apply(s1, Write(w)) == ApplyCall(s, UpdateCall(w))
            else s1 == ApplyCall(s, UpdateCall(w))
  {
    var v := s.workers[w];
    var s1 := Apply(s, Read(w));
    if w in s1.workers {
      assert s1.workers[w] == v.(phase := Writing);
      assert s1.workers - {w} == s.workers - {w};
      var retried := Worker(Rescheduled(v.job, v.retryAt), Reading, v.retryAt);
      assert s1.workers[w := retried] == s.workers[w := retried];
    }
  }

  lemma ClaimIsTwoSteps(s: System, w: WorkerId, token: Token)
    requires Enabled(s, KafkaRead(w, token))
    ensures var s1 := Apply(s, KafkaRead(w, token));
            if Enabled(s1, KafkaWrite(w)) then Apply(s1, KafkaWrite(w)) == ApplyCall(s, ClaimCall(w, token))
            else s1 == ApplyCall(s, ClaimCall(w, token))
  {
    var job := KafkaClaim(s, s.workers[w].job, token);
    var s1 := Apply(s, KafkaRead(w, token));
    if w in s1.workers {
      assert s1.workers[w] == Worker(job, Claiming, 0);
      assert s1.workers - {w} == s.workers - {w};
      assert s1.workers[w := Worker(job, Ready, 0)] == s.workers[w := Worker(job, Ready, 0)];
    }
  }

  lemma CancelIsTwoSteps(s: System, c: CallId, id: Id)
    requires Enabled(s, CancelRead(c, id))
    ensures var s1 := Apply(s, CancelRead(c, id));
            if Enabled(s1, CancelWrite(c)) then Apply(s1, CancelWrite(c)) == ApplyCall(s, CancelCall(c, id))
            else s1 == ApplyCall(s, CancelCall(c, id))
  {
    var s1 := Apply(s, CancelRead(c, id));
    if c in s1.cancels {
      assert s1.cancels - {c} == s.cancels;
    }
  }

  lemma Simulate(init: System, steps: seq<Step>, first: Step, second: Step) returns (more: seq<Step>)
    requires IsRun(init, steps) && Enabled(After(init, steps), first)
    ensures IsRun(init, more)
    ensures var s1 := Apply(After(init, steps), first);
            After(init, more) == if Enabled(s1, second) then Apply(s1, second) else s1
  {
    more := Extend(init, steps, first);
    if Enabled(After(init, more), second) {
      more := Extend(init, more, second);
    }
  }

  /** Every run of atomic calls ends in a state some run of the fine-grained protocol ends in. */
  lemma {:induction false} CoarseRunIsFineRun(init: System, calls: seq<Call>) returns (steps: seq<Step>)
    requires IsCallRun(init, calls)
    ensures IsRun(init, steps) && After(init, steps) == AfterCalls(init, calls)
  {
    if calls == [] {
      steps := [];
    } else {
      steps := CoarseRunIsFineRun(init, calls[..|calls| - 1]);
      var s := After(init, steps);
      match calls[|calls| - 1]
      case Single(step) => steps := Extend(init, steps, step);
      case UpdateCall(w) => UpdateIsTwoSteps(s, w); steps := Simulate(init, steps, Read(w), Write(w));
      case ClaimCall(w, token) =>
        ClaimIsTwoSteps(s, w, token);
        steps := Simulate(init, steps, KafkaRead(w, token), KafkaWrite(w));
      case CancelCall(c, id) =>
        CancelIsTwoSteps(s, c, id);
        steps := Simulate(init, steps, CancelRead(c, id), CancelWrite(c));
    }
  }

  /** RUNNING rows carry a whole lease and PENDING rows none of it. */
  lemma LeaseColumns(init: System, calls: seq<Call>, id: Id)
    requires IsCallRun(init, calls) && id in AfterCalls(init, calls).rows
    ensures var row := AfterCalls(init, calls).rows[id];
            && (row.state.Running? ==> row.leaseToken.Some? && row.leaseExpiresAt.Some? && row.startedAt.Some?)
            && (row.state.Pending? ==> row.leaseToken.None? && row.leaseExpiresAt.None? && row.startedAt.None?)
            && (row.state.Completed? ==> row.leaseToken.None?)
  {
    var steps := CoarseRunIsFineRun(init, calls);
    RunKeepsInv(init, steps);
    assert RowOk(After(init, steps).issued, After(init, steps).rows[id]);
  }

  // ---------------------------------------------------------------------------------------------
  // The transition table

  /** A row's state changes only along the table, or from RUNNING to PENDING by a release or an expired lease. */
  lemma EveryChangeIsAnEdge(s: System, call: Call, id: Id)
    requires CallEnabled(s, call) && id in s.rows
    ensures id in ApplyCall(s, call).rows
    ensures var from, to := s.rows[id].state, ApplyCall(s, call).rows[id].state;
            || to == from
            || CanTransition(from, to)
            || (from.Running? && to.Pending? && call.Single? && (call.step.Release? || call.step.Requeue?))
  {
  }

  lemma TerminalRowStep(s: System, call: Call, id: Id)
    requires CallEnabled(s, call) && id in s.rows && (s.rows[id].state.Completed? || s.rows[id].state.Dead?)
    ensures id in ApplyCall(s, call).rows && ApplyCall(s, call).rows[id] == s.rows[id]
  {
  }

  lemma {:induction false} CallPrefix(init: System, calls: seq<Call>, k: nat)
    requires IsCallRun(init, calls) && k <= |calls|
    ensures IsCallRun(init, calls[..k])
  {
    if k == |calls| {
      assert calls[..k] == calls;
    } else {
      CallPrefix(init, calls[..|calls| - 1], k);
      assert calls[..|calls| - 1][..k] == calls[..k];
    }
  }

  ghost function CallTable(init: System, calls: seq<Call>, k: nat): (rows: Rows)
    requires IsCallRun(init, calls) && k <= |calls|
  {
    CallPrefix(init, calls, k);
    AfterCalls(init, calls[..k]).rows
  }

  lemma CallAt(init: System, calls: seq<Call>, k: nat)
    requires IsCallRun(init, calls) && k < |calls|
    ensures IsCallRun(init, calls[..k]) && CallEnabled(AfterCalls(init, calls[..k]), calls[k])
    ensures CallTable(init, calls, k + 1) == ApplyCall(AfterCalls(init, calls[..k]), calls[k]).rows
  {
    CallPrefix(init, calls, k);
    CallPrefix(init, calls, k + 1);
    assert calls[..k + 1][..k] == calls[..k];
  }

  /** In every run each change of a row's state is one of those edges. */
  lemma StateMachine(init: System, calls: seq<Call>, k: nat, id: Id)
    requires IsCallRun(init, calls) && k < |calls| && id in CallTable(init, calls, k)
    ensures id in CallTable(init, calls, k + 1)
    ensures var from, to := CallTable(init, calls, k)[id].state, CallTable(init, calls, k + 1)[id].state;
            || to == from
            || CanTransition(from, to)
            || (from.Running? && to.Pending? && calls[k].Single? && (calls[k].step.Release? || calls[k].step.Requeue?))
  {
    CallAt(init, calls, k);
    EveryChangeIsAnEdge(AfterCalls(init, calls[..k]), calls[k], id);
  }

  /** A COMPLETED or DEAD row is never touched again. */
  lemma {:induction false} TerminalStatesAbsorb(init: System, calls: seq<Call>, i: nat, j: nat, id: Id)
    requires IsCallRun(init, calls) && i <= j <= |calls| && id in CallTable(init, calls, i)
    requires CallTable(init, calls, i)[id].state.Completed? || CallTable(init, calls, i)[id].state.Dead?
    ensures id in CallTable(init, calls, j) && CallTable(init, calls, j)[id] == CallTable(init, calls, i)[id]
    decreases j - i
  {
    if i < j {
      CallAt(init, calls, i);
      TerminalRowStep(AfterCalls(init, calls[..i]), calls[i], id);
      TerminalStatesAbsorb(init, calls, i + 1, j, id);
    }
  }
}
