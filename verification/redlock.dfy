/**
 * The Redlock manager as a timed step system: any number of clients run Acquire and Release against N
 * independent nodes. A call may fail to reach its node, and its reply may be lost.
 */
module Redlock {

  datatype Entry = Entry(token: string, expiresAt: int)

  /** A node's unexpired and expired keys; an expired key counts as absent. */
  type Node = map<string, Entry>

  /**
   * `drift` is the allowance Acquire subtracts; `slack` bounds, in the runs considered, the pause between
   * measuring the elapsed time and computing the expiry plus the error of the elapsed reading.
   */
  datatype Config = Config(nodes: nat, quorum: nat, ttl: int, retries: nat, drift: int, slack: int)

  predicate Sane(cfg: Config) {
    1 <= cfg.quorum <= cfg.nodes && 0 <= cfg.drift < cfg.ttl && 0 <= cfg.slack && 1 <= cfg.retries
  }

  datatype Phase =
    | Setting(attempt: nat, start: int, next: nat, won: set<nat>)          // about to call SetNX on node `next`
    | Measured(attempt: nat, start: int, won: set<nat>, at: int, elapsed: int)
    | Held(start: int, won: set<nat>, expiry: int)
    | Cleaning(attempt: nat, next: nat)                                    // a failed attempt gives its keys back
    | Pausing(attempt: nat)
    | GaveUp
    | Releasing(next: nat)

  datatype Client = Client(resource: string, token: string, phase: Phase)

  type ClientId = nat

  datatype System = System(now: int, nodes: seq<Node>, clients: map<ClientId, Client>)

  datatype Step =
    | Pass(span: int)
    | Begin(c: ClientId, resource: string, token: string)
    | SetNX(c: ClientId, delivered: bool, answered: bool)
    | Measure(c: ClientId, elapsed: int)
    | Decide(c: ClientId, error: int)
    | Clean(c: ClientId, delivered: bool)
    | Retry(c: ClientId)
    | Cancel(c: ClientId)
    | Release(c: ClientId)
    | Drop(c: ClientId, delivered: bool)

  predicate Init(cfg: Config, s: System) {
    |s.nodes| == cfg.nodes && s.clients == map[] && forall n | 0 <= n < cfg.nodes :: s.nodes[n] == map[]
  }

  predicate Live(node: Node, resource: string, now: int) {
    resource in node && now < node[resource].expiresAt
  }

  predicate Holds(node: Node, resource: string, token: string, now: int) {
    Live(node, resource, now) && node[resource].token == token
  }

  /** SET resource token NX PX ttl. */
  function SetIfAbsent(node: Node, resource: string, token: string, now: int, ttl: int): (r: Node) {
    if Live(node, resource, now) then node else node[resource := Entry(token, now + ttl)]
  }

  /** The release script: delete the key only if it still holds the caller's token. */
  function DeleteIfMine(node: Node, resource: string, token: string, now: int): (r: Node) {
    if Holds(node, resource, token, now) then node - {resource} else node
  }

  function Validity(cfg: Config, elapsed: int): (v: int) {
    cfg.ttl - elapsed - cfg.drift
  }

  predicate At(s: System, c: ClientId) {
    c in s.clients
  }

  predicate Enabled(cfg: Config, s: System, step: Step) {
    match step
    case Pass(span) => 0 <= span
    case Begin(c, _, token) => c !in s.clients && forall d | d in s.clients :: s.clients[d].token != token
    case SetNX(c, _, _) => At(s, c) && s.clients[c].phase.Setting? && s.clients[c].phase.next < cfg.nodes
    case Measure(c, _) => At(s, c) && s.clients[c].phase.Setting? && s.clients[c].phase.next >= cfg.nodes
    case Decide(c, error) =>
      && At(s, c) && s.clients[c].phase.Measured?
      && 0 <= error && s.now - s.clients[c].phase.at + error <= cfg.slack
      && s.clients[c].phase.at - s.clients[c].phase.start - error <= s.clients[c].phase.elapsed
    case Clean(c, _) => At(s, c) && s.clients[c].phase.Cleaning? && s.clients[c].phase.next < cfg.nodes
    case Retry(c) => At(s, c) && s.clients[c].phase.Pausing?
    case Cancel(c) => At(s, c) && s.clients[c].phase.Pausing?
    case Release(c) => At(s, c) && s.clients[c].phase.Held?
    case Drop(c, _) => At(s, c) && s.clients[c].phase.Releasing? && s.clients[c].phase.next < cfg.nodes
  }

  /** After the last cleanup call: pause and try again, or give up. */
  function Settle(cfg: Config, attempt: nat, next: nat): (p: Phase) {
    if next < cfg.nodes then Cleaning(attempt, next)
    else if attempt + 1 < cfg.retries then Pausing(attempt + 1) else GaveUp
  }

  function PhaseAfter(cfg: Config, s: System, step: Step, v: Client): (p: Phase)
    requires step.SetNX? ==> v.phase.Setting? && v.phase.next < |s.nodes|
    requires step.Measure? ==> v.phase.Setting?
    requires step.Decide? ==> v.phase.Measured?
    requires step.Clean? ==> v.phase.Cleaning?
    requires step.Retry? ==> v.phase.Pausing?
    requires step.Drop? ==> v.phase.Releasing?
  {
    match step
    case SetNX(_, delivered, answered) =>
      var n := v.phase.next;
      var won := delivered && answered && !Live(s.nodes[n], v.resource, s.now);
      v.phase.(next := n + 1, won := if won then v.phase.won + {n} else v.phase.won)
    case Measure(_, elapsed) => Measured(v.phase.attempt, v.phase.start, v.phase.won, s.now, elapsed)
    case Decide(_, _) =>
      var validity := Validity(cfg, v.phase.elapsed);
      if |v.phase.won| >= cfg.quorum && validity > 0
      then Held(v.phase.start, v.phase.won, s.now + validity)
      else Settle(cfg, v.phase.attempt, 0)
    case Clean(_, _) => Settle(cfg, v.phase.attempt, v.phase.next + 1)
    case Retry(_) => Setting(v.phase.attempt, s.now, 0, {})
    case Cancel(_) => GaveUp
    case Release(_) => Releasing(0)
    case Drop(_, _) => Releasing(v.phase.next + 1)
    case _ => v.phase
  }

  function NodesAfter(cfg: Config, s: System, step: Step): (nodes: seq<Node>)
    requires Enabled(cfg, s, step) && |s.nodes| == cfg.nodes
    ensures |nodes| == cfg.nodes
  {
    match step
    case SetNX(c, true, _) =>
      var v := s.clients[c];
      s.nodes[v.phase.next := SetIfAbsent(s.nodes[v.phase.next], v.resource, v.token, s.now, cfg.ttl)]
    case Clean(c, true) =>
      var v := s.clients[c];
      s.nodes[v.phase.next := DeleteIfMine(s.nodes[v.phase.next], v.resource, v.token, s.now)]
    case Drop(c, true) =>
      var v := s.clients[c];
      s.nodes[v.phase.next := DeleteIfMine(s.nodes[v.phase.next], v.resource, v.token, s.now)]
    case _ => s.nodes
  }

  function Apply(cfg: Config, s: System, step: Step): (r: System)
    requires Enabled(cfg, s, step) && |s.nodes| == cfg.nodes
    ensures |r.nodes| == cfg.nodes
  {
    if step.Pass? then s.(now := s.now + step.span)
    else if step.Begin? then
      s.(clients := s.clients[step.c := Client(step.resource, step.token, Setting(0, s.now, 0, {}))])
    else
      var v := s.clients[step.c];
      System(s.now, NodesAfter(cfg, s, step), s.clients[step.c := v.(phase := PhaseAfter(cfg, s, step, v))])
  }

  ghost predicate IsRun(cfg: Config, init: System, steps: seq<Step>)
    decreases |steps|, 0
  {
    if steps == [] then Init(cfg, init)
    else
      IsRun(cfg, init, steps[..|steps| - 1])
      && Enabled(cfg, After(cfg, init, steps[..|steps| - 1]), steps[|steps| - 1])
  }

  ghost function After(cfg: Config, init: System, steps: seq<Step>): (s: System)
    requires IsRun(cfg, init, steps)
    ensures |s.nodes| == cfg.nodes
    decreases |steps|, 1
  {
    if steps == [] then init else Apply(cfg, After(cfg, init, steps[..|steps| - 1]), steps[|steps| - 1])
  }

  // ---------------------------------------------------------------------------------------------
  // Mutual exclusion

  /** No two unreleased locks on one resource are both before their expiry. */
  ghost predicate Exclusive(s: System) {
    forall c, d | c in s.clients && d in s.clients && c != d :: !BothHeld(s.now, s.clients[c], s.clients[d])
  }

  predicate BothHeld(now: int, v: Client, w: Client) {
    v.resource == w.resource && v.phase.Held? && w.phase.Held? && now < v.phase.expiry && now < w.phase.expiry
  }

  /** A node won since `start` keeps the winner's key until `start + ttl`. */
  predicate Kept(cfg: Config, now: int, node: Node, v: Client, start: int) {
    now < start + cfg.ttl ==>
      && v.resource in node && node[v.resource].token == v.token
      && start + cfg.ttl <= node[v.resource].expiresAt
  }

  predicate Contending(p: Phase) {
    p.Setting? || p.Measured? || p.Held?
  }

  predicate ClientOk(cfg: Config, now: int, nodes: seq<Node>, v: Client)
    requires |nodes| == cfg.nodes
  {
    && (Contending(v.phase) ==>
          && v.phase.start <= now
          && forall n | n in v.phase.won :: n < cfg.nodes && Kept(cfg, now, nodes[n], v, v.phase.start))
    && (v.phase.Setting? ==> forall n | n in v.phase.won :: n < v.phase.next)
    && (v.phase.Held? ==> |v.phase.won| >= cfg.quorum && v.phase.expiry <= v.phase.start + cfg.ttl)
  }

  ghost predicate Inv(cfg: Config, s: System) {
    && |s.nodes| == cfg.nodes
    && (forall c | c in s.clients :: ClientOk(cfg, s.now, s.nodes, s.clients[c]))
    && (forall c, d | c in s.clients && d in s.clients && c != d :: s.clients[c].token != s.clients[d].token)
  }

  /** A client's own step keeps what it has won. */
  lemma OwnStep(cfg: Config, s: System, step: Step)
    requires Sane(cfg) && cfg.slack <= cfg.drift && Inv(cfg, s) && Enabled(cfg, s, step) && !step.Pass? && !step.Begin?
    ensures ClientOk(cfg, s.now, Apply(cfg, s, step).nodes, Apply(cfg, s, step).clients[step.c])
  {
    assert ClientOk(cfg, s.now, s.nodes, s.clients[step.c]);
  }

  /** Other clients' steps do not remove or overwrite it. */
  lemma OthersStep(cfg: Config, s: System, step: Step, d: ClientId)
    requires Inv(cfg, s) && Enabled(cfg, s, step) && !step.Pass? && !step.Begin? && d in s.clients && d != step.c
    ensures ClientOk(cfg, s.now, Apply(cfg, s, step).nodes, s.clients[d])
  {
    assert ClientOk(cfg, s.now, s.nodes, s.clients[d]);
    assert s.clients[d].token != s.clients[step.c].token;
  }

  lemma StepKeepsInv(cfg: Config, s: System, step: Step)
    requires Sane(cfg) && cfg.slack <= cfg.drift && Inv(cfg, s) && Enabled(cfg, s, step)
    ensures Inv(cfg, Apply(cfg, s, step))
  {
    var s' := Apply(cfg, s, step);
    forall d | d in s'.clients ensures ClientOk(cfg, s'.now, s'.nodes, s'.clients[d]) {
      if d in s.clients {
        assert ClientOk(cfg, s.now, s.nodes, s.clients[d]);
      }
      if !step.Pass? && !step.Begin? {
        if d == step.c {
          OwnStep(cfg, s, step);
        } else {
          OthersStep(cfg, s, step, d);
        }
      }
    }
  }

  lemma {:induction false} RunKeepsInv(cfg: Config, init: System, steps: seq<Step>)
    requires Sane(cfg) && cfg.slack <= cfg.drift && IsRun(cfg, init, steps)
    ensures Inv(cfg, After(cfg, init, steps))
  {
    if steps != [] {
      RunKeepsInv(cfg, init, steps[..|steps| - 1]);
      StepKeepsInv(cfg, After(cfg, init, steps[..|steps| - 1]), steps[|steps| - 1]);
    }
  }

  function Range(lo: nat, hi: nat): (r: set<nat>)
    requires lo <= hi
  {
    if lo == hi then {} else Range(lo, hi - 1) + {hi - 1}
  }

  lemma {:induction false} RangeSize(lo: nat, hi: nat)
    requires lo <= hi
    ensures |Range(lo, hi)| == hi - lo && forall x: nat :: x in Range(lo, hi) <==> lo <= x < hi
  {
    if lo < hi {
      RangeSize(lo, hi - 1);
    }
  }

  lemma SubsetSize(a: set<nat>, b: set<nat>)
    requires a <= b
    ensures |a| <= |b|
  {
    assert b == a + (b - a);
  }

  /** Two majorities of the same nodes share one. */
  lemma QuorumsMeet(n: nat, a: set<nat>, b: set<nat>)
    requires (forall x | x in a :: x < n) && (forall x | x in b :: x < n) && |a| + |b| > n
    ensures exists common :: common in a && common in b
  {
    RangeSize(0, n);
    if a * b == {} {
      assert |a + b| == |a| + |b|;
      SubsetSize(a + b, Range(0, n));
    } else {
      var common :| common in a * b;
    }
  }

  lemma NotBothHeld(cfg: Config, s: System, v: Client, w: Client)
    requires Sane(cfg) && 2 * cfg.quorum > cfg.nodes && |s.nodes| == cfg.nodes
    requires ClientOk(cfg, s.now, s.nodes, v) && ClientOk(cfg, s.now, s.nodes, w) && v.token != w.token
    ensures !BothHeld(s.now, v, w)
  {
    if v.phase.Held? && w.phase.Held? {
      QuorumsMeet(cfg.nodes, v.phase.won, w.phase.won);
      var n :| n in v.phase.won && n in w.phase.won;
      assert Kept(cfg, s.now, s.nodes[n], v, v.phase.start) && Kept(cfg, s.now, s.nodes[n], w, w.phase.start);
    }
  }

  /** In every interleaving, with majority quorums and a pause the drift allowance covers. */
  lemma MutualExclusion(cfg: Config, init: System, steps: seq<Step>)
    requires Sane(cfg) && 2 * cfg.quorum > cfg.nodes && cfg.slack <= cfg.drift && IsRun(cfg, init, steps)
    ensures Exclusive(After(cfg, init, steps))
  {
    RunKeepsInv(cfg, init, steps);
    var s := After(cfg, init, steps);
    forall c, d | c in s.clients && d in s.clients && c != d ensures !BothHeld(s.now, s.clients[c], s.clients[d]) {
      NotBothHeld(cfg, s, s.clients[c], s.clients[d]);
    }
  }

  // ---------------------------------------------------------------------------------------------
  // Both conditions are needed

  lemma Extend(cfg: Config, init: System, steps: seq<Step>, step: Step) returns (more: seq<Step>)
    requires IsRun(cfg, init, steps) && Enabled(cfg, After(cfg, init, steps), step)
    ensures IsRun(cfg, init, more) && After(cfg, init, more) == Apply(cfg, After(cfg, init, steps), step)
  {
    more := steps + [step];
    assert more[..|steps|] == steps;
  }

  function Reached(lo: nat, hi: nat, k: nat): (r: set<nat>)
    requires lo <= hi
  {
    Range(lo, if k <= lo then lo else if k < hi then k else hi)
  }

  /** Client `c` has called the first `k` nodes, reached those in [lo, hi) and won each of them at the current time. */
  ghost predicate Called(
    cfg: Config, s: System, s': System, c: ClientId, resource: string, token: string, lo: nat, hi: nat, k: nat)
    requires lo <= hi && |s.nodes| == |s'.nodes| == cfg.nodes
  {
    && s'.now == s.now
    && s'.clients == s.clients[c := Client(resource, token, Setting(0, s.now, k, Reached(lo, hi, k)))]
    && forall n | 0 <= n < cfg.nodes ::
         s'.nodes[n] ==
         if lo <= n < hi && n < k then s.nodes[n][resource := Entry(token, s.now + cfg.ttl)] else s.nodes[n]
  }

  lemma {:induction false} CallNodes(
    cfg: Config, init: System, steps: seq<Step>, c: ClientId, resource: string, token: string, lo: nat, hi: nat, k: nat)
    returns (more: seq<Step>)
    requires IsRun(cfg, init, steps) && lo <= hi <= cfg.nodes && k <= cfg.nodes
    requires Enabled(cfg, After(cfg, init, steps), Begin(c, resource, token))
    requires forall n | lo <= n < hi :: !Live(After(cfg, init, steps).nodes[n], resource, After(cfg, init, steps).now)
    ensures IsRun(cfg, init, more)
    ensures Called(cfg, After(cfg, init, steps), After(cfg, init, more), c, resource, token, lo, hi, k)
    decreases k
  {
    if k == 0 {
      more := Extend(cfg, init, steps, Begin(c, resource, token));
    } else {
      var front := CallNodes(cfg, init, steps, c, resource, token, lo, hi, k - 1);
      var reached := lo <= k - 1 < hi;
      more := Extend(cfg, init, front, SetNX(c, reached, reached));
      OneMore(cfg, After(cfg, init, steps), After(cfg, init, front), c, resource, token, lo, hi, k - 1);
    }
  }

  lemma OneMore(
    cfg: Config, s: System, s1: System, c: ClientId, resource: string, token: string, lo: nat, hi: nat, k: nat)
    requires lo <= hi <= cfg.nodes && k < cfg.nodes && |s.nodes| == |s1.nodes| == cfg.nodes
    requires Called(cfg, s, s1, c, resource, token, lo, hi, k)
    requires forall n | lo <= n < hi :: !Live(s.nodes[n], resource, s.now)
    ensures var reached := lo <= k < hi;
            && Enabled(cfg, s1, SetNX(c, reached, reached))
            && Called(cfg, s, Apply(cfg, s1, SetNX(c, reached, reached)), c, resource, token, lo, hi, k + 1)
  {
    var reached := lo <= k < hi;
    var s2 := Apply(cfg, s1, SetNX(c, reached, reached));
    assert s1.nodes[k] == s.nodes[k];
    assert Reached(lo, hi, k + 1) == if reached then Reached(lo, hi, k) + {k} else Reached(lo, hi, k);
    assert s2.clients == s.clients[c := Client(resource, token, Setting(0, s.now, k + 1, Reached(lo, hi, k + 1)))];
  }

  /** A client that reaches enough free nodes at once and then pauses holds the lock from the pause's end. */
  lemma Grab(
    cfg: Config, init: System, steps: seq<Step>, c: ClientId, resource: string, token: string, lo: nat, hi: nat,
    pause: int)
    returns (more: seq<Step>)
    requires Sane(cfg) && IsRun(cfg, init, steps) && lo <= hi <= cfg.nodes && hi - lo >= cfg.quorum
    requires 0 <= pause <= cfg.slack
    requires Enabled(cfg, After(cfg, init, steps), Begin(c, resource, token))
    requires forall n | lo <= n < hi :: !Live(After(cfg, init, steps).nodes[n], resource, After(cfg, init, steps).now)
    ensures IsRun(cfg, init, more)
    ensures var s, s' := After(cfg, init, steps), After(cfg, init, more);
            && s'.now == s.now + pause
            && s'.clients ==
               s.clients[c := Client(resource, token, Held(s.now, Range(lo, hi), s'.now + cfg.ttl - cfg.drift))]
            && forall n | 0 <= n < cfg.nodes ::
                 s'.nodes[n] ==
                 if lo <= n < hi then s.nodes[n][resource := Entry(token, s.now + cfg.ttl)] else s.nodes[n]
  {
    var s := After(cfg, init, steps);
    var called := CallNodes(cfg, init, steps, c, resource, token, lo, hi, cfg.nodes);
    assert Reached(lo, hi, cfg.nodes) == Range(lo, hi);
    RangeSize(lo, hi);
    var measured := Extend(cfg, init, called, Measure(c, 0));
    var paused := Extend(cfg, init, measured, Pass(pause));
    more := Extend(cfg, init, paused, Decide(c, 0));
    assert After(cfg, init, more).clients ==
           s.clients[c := Client(resource, token, Held(s.now, Range(lo, hi), s.now + pause + cfg.ttl - cfg.drift))];
  }

  /** A quorum of half the nodes or less: two disjoint winners at the same moment. */
  lemma SmallQuorumsClash(cfg: Config, init: System) returns (steps: seq<Step>)
    requires Sane(cfg) && Init(cfg, init) && 2 * cfg.quorum <= cfg.nodes
    ensures IsRun(cfg, init, steps) && !Exclusive(After(cfg, init, steps))
  {
    steps := Grab(cfg, init, [], 0, "r", "a", 0, cfg.quorum, 0);
    steps := Grab(cfg, init, steps, 1, "r", "b", cfg.quorum, 2 * cfg.quorum, 0);
    var s := After(cfg, init, steps);
    assert BothHeld(s.now, s.clients[0], s.clients[1]);
  }

  /** A pause longer than the allowance: the first lock outlives its own keys. */
  lemma LongPauseClashes(cfg: Config, init: System) returns (steps: seq<Step>)
    requires Sane(cfg) && Init(cfg, init) && cfg.slack > cfg.drift
    ensures IsRun(cfg, init, steps) && !Exclusive(After(cfg, init, steps))
  {
    steps := Grab(cfg, init, [], 0, "r", "a", 0, cfg.quorum, cfg.drift + 1);
    steps := Extend(cfg, init, steps, Pass(cfg.ttl - cfg.drift - 1));
    steps := Grab(cfg, init, steps, 1, "r", "b", 0, cfg.quorum, 0);
    var s := After(cfg, init, steps);
    assert BothHeld(s.now, s.clients[0], s.clients[1]);
  }

  ghost predicate AlwaysExclusive(cfg: Config) {
    forall init, steps | IsRun(cfg, init, steps) :: Exclusive(After(cfg, init, steps))
  }

  /** The lock excludes in every run exactly when quorums are majorities and the drift allowance covers the pause. */
  lemma MutualExclusionIff(cfg: Config)
    requires Sane(cfg)
    ensures AlwaysExclusive(cfg) <==> 2 * cfg.quorum > cfg.nodes && cfg.slack <= cfg.drift
  {
    var init := System(0, seq(cfg.nodes, _ => map[]), map[]);
    if 2 * cfg.quorum <= cfg.nodes {
      var steps := SmallQuorumsClash(cfg, init);
    } else if cfg.slack > cfg.drift {
      var steps := LongPauseClashes(cfg, init);
    } else {
      forall start, steps | IsRun(cfg, start, steps) ensures Exclusive(After(cfg, start, steps)) {
        MutualExclusion(cfg, start, steps);
      }
    }
  }

  // ---------------------------------------------------------------------------------------------
  // Residue

  /** Every cleanup call reaches its node; SetNX calls and their replies may still be lost. */
  predicate CleansDelivered(steps: seq<Step>) {
    forall i | 0 <= i < |steps| && steps[i].Clean? :: steps[i].delivered
  }

  /** How many nodes are known not to hold this client's key. */
  function Cleaned(cfg: Config, p: Phase): (n: nat) {
    match p
    case Cleaning(_, next) => if next <= cfg.nodes then next else cfg.nodes
    case Pausing(_) => cfg.nodes
    case GaveUp => cfg.nodes
    case _ => 0
  }

  predicate NoResidue(cfg: Config, now: int, nodes: seq<Node>, v: Client)
    requires |nodes| == cfg.nodes
  {
    forall n | 0 <= n < Cleaned(cfg, v.phase) :: !Holds(nodes[n], v.resource, v.token, now)
  }

  ghost predicate Clear(cfg: Config, s: System) {
    && |s.nodes| == cfg.nodes
    && (forall c | c in s.clients :: NoResidue(cfg, s.now, s.nodes, s.clients[c]))
    && (forall c, d | c in s.clients && d in s.clients && c != d :: s.clients[c].token != s.clients[d].token)
  }

  lemma StepKeepsClear(cfg: Config, s: System, step: Step, d: ClientId)
    requires Clear(cfg, s) && Enabled(cfg, s, step) && (step.Clean? ==> step.delivered)
    requires d in Apply(cfg, s, step).clients
    ensures NoResidue(cfg, Apply(cfg, s, step).now, Apply(cfg, s, step).nodes, Apply(cfg, s, step).clients[d])
  {
    if d in s.clients {
      assert NoResidue(cfg, s.now, s.nodes, s.clients[d]);
      if !step.Pass? && !step.Begin? && d != step.c {
        assert s.clients[d].token != s.clients[step.c].token;
      }
    }
  }

  lemma {:induction false} RunKeepsClear(cfg: Config, init: System, steps: seq<Step>)
    requires IsRun(cfg, init, steps) && CleansDelivered(steps)
    ensures Clear(cfg, After(cfg, init, steps))
  {
    if steps != [] {
      var front, last := steps[..|steps| - 1], steps[|steps| - 1];
      RunKeepsClear(cfg, init, front);
      var s := After(cfg, init, front);
      forall d | d in Apply(cfg, s, last).clients
        ensures NoResidue(cfg, Apply(cfg, s, last).now, Apply(cfg, s, last).nodes, Apply(cfg, s, last).clients[d])
      {
        StepKeepsClear(cfg, s, last, d);
      }
    }
  }

  /** An Acquire that failed, was cancelled or waits to retry has left its token on no node, after any attempts. */
  lemma FailedAcquireLeavesNothing(cfg: Config, init: System, steps: seq<Step>, c: ClientId, n: nat)
    requires IsRun(cfg, init, steps) && CleansDelivered(steps) && n < cfg.nodes
    requires c in After(cfg, init, steps).clients
    requires After(cfg, init, steps).clients[c].phase.GaveUp? || After(cfg, init, steps).clients[c].phase.Pausing?
    ensures var s := After(cfg, init, steps);
            !Holds(s.nodes[n], s.clients[c].resource, s.clients[c].token, s.now)
  {
    RunKeepsClear(cfg, init, steps);
    var s := After(cfg, init, steps);
    assert NoResidue(cfg, s.now, s.nodes, s.clients[c]);
  }

  /** Clients keep their tokens, and no two share one. */
  ghost predicate OwnTokens(s: System) {
    forall c, d | c in s.clients && d in s.clients && c != d :: s.clients[c].token != s.clients[d].token
  }

  lemma {:induction false} RunKeepsTokens(cfg: Config, init: System, steps: seq<Step>)
    requires IsRun(cfg, init, steps)
    ensures OwnTokens(After(cfg, init, steps))
  {
    if steps != [] {
      RunKeepsTokens(cfg, init, steps[..|steps| - 1]);
    }
  }

  /** The node holds exactly this key, and client `c` is the one whose token it carries. */
  ghost predicate Keeps(s: System, n: nat, resource: string, e: Entry, c: ClientId) {
    && n < |s.nodes| && resource in s.nodes[n] && s.nodes[n][resource] == e
    && c in s.clients && s.clients[c].token == e.token
  }

  lemma KeyStaysStep(cfg: Config, s: System, step: Step, n: nat, resource: string, e: Entry, c: ClientId)
    requires |s.nodes| == cfg.nodes && Enabled(cfg, s, step) && OwnTokens(s)
    requires Keeps(s, n, resource, e, c) && s.now < e.expiresAt
    requires step.Clean? || step.Drop? ==> step.c != c
    ensures Keeps(Apply(cfg, s, step), n, resource, e, c)
  {
  }

  /** Until it expires, a key is removed or replaced by nobody but its owner, however late other releases arrive. */
  lemma {:induction false} KeyStays(
    cfg: Config, init: System, steps: seq<Step>, i: nat, n: nat, resource: string, e: Entry, c: ClientId)
    requires IsRun(cfg, init, steps) && i <= |steps| && IsRun(cfg, init, steps[..i])
    requires Keeps(After(cfg, init, steps[..i]), n, resource, e, c)
    requires After(cfg, init, steps).now < e.expiresAt
    requires forall k | i <= k < |steps| && (steps[k].Clean? || steps[k].Drop?) :: steps[k].c != c
    ensures Keeps(After(cfg, init, steps), n, resource, e, c)
  {
    if i == |steps| {
      assert steps[..i] == steps;
    } else {
      var front := steps[..|steps| - 1];
      assert front[..i] == steps[..i];
      KeyStays(cfg, init, front, i, n, resource, e, c);
      RunKeepsTokens(cfg, init, front);
      KeyStaysStep(cfg, After(cfg, init, front), steps[|steps| - 1], n, resource, e, c);
    }
  }
}
