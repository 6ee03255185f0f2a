/** Manager.Acquire and Manager.Release as loops over the nodes, for one caller with the nodes to itself. */
module RedlockManager {
  import opened Common
  import opened Redlock

  datatype Settings = Settings(quorum: int, ttl: int, retryCount: int, retryDelay: int, driftFactor: real)

  datatype Lock = Lock(resource: string, value: string, expiry: int)

  /**
   * What a caller meets: successive readings of a clock that never runs backwards, which calls reach their node,
   * which replies arrive, and before which attempt the context is cancelled.
   */
  datatype World = World(
    clock: nat -> int,
    reaches: (nat, nat) -> bool,
    replies: (nat, nat) -> bool,
    cleans: (nat, nat) -> bool,
    cancelledBefore: nat -> bool)

  ghost predicate Monotone(clock: nat -> int) {
    forall i: nat, j: nat | i <= j :: clock(i) <= clock(j)
  }

  /** The node holds the token at least until `time`. */
  predicate HeldUntil(node: Node, resource: string, token: string, time: int) {
    resource in node && node[resource].token == token && time <= node[resource].expiresAt
  }

  lemma SetHolds(node: Node, resource: string, token: string, now: int, ttl: int, from: int)
    requires from <= now && !Live(node, resource, now)
    ensures HeldUntil(SetIfAbsent(node, resource, token, now, ttl), resource, token, from + ttl)
  {
  }

  /** Another caller's key, live until after `time`. */
  predicate Foreign(node: Node, resource: string, token: string, time: int) {
    Live(node, resource, time) && node[resource].token != token
  }

  class Manager {
    const nodes: array<Node>
    const cfg: Settings

    /** Replaces each unset value; an unset quorum becomes a majority, a given one is taken as it is. */
    constructor (nodes: array<Node>, given: Settings)
      ensures this.nodes == nodes
      ensures cfg.ttl > 0 && cfg.retryCount > 0 && cfg.retryDelay > 0 && cfg.driftFactor > 0.0 && cfg.quorum > 0
      ensures given.quorum <= 0 ==> 2 * (cfg.quorum - 1) <= nodes.Length < 2 * cfg.quorum
      ensures given.quorum > 0 ==> cfg.quorum == given.quorum
      ensures cfg.ttl == if given.ttl <= 0 then 10 * SECOND else given.ttl
      ensures cfg.retryCount == if given.retryCount <= 0 then 3 else given.retryCount
      ensures cfg.retryDelay == if given.retryDelay <= 0 then 200 * MILLISECOND else given.retryDelay
      ensures cfg.driftFactor == if given.driftFactor <= 0.0 then 0.01 else given.driftFactor
    {
      var c := given;
      if c.quorum <= 0 {
        c := c.(quorum := nodes.Length / 2 + 1);
      }
      if c.ttl <= 0 {
        c := c.(ttl := 10 * SECOND);
      }
      if c.retryCount <= 0 {
        c := c.(retryCount := 3);
      }
      if c.retryDelay <= 0 {
        c := c.(retryDelay := 200 * MILLISECOND);
      }
      if c.driftFactor <= 0.0 {
        c := c.(driftFactor := 0.01);
      }
      this.nodes, this.cfg := nodes, c;
    }

    function Drift(): (d: int) {
      (cfg.ttl as real * cfg.driftFactor).Floor + 2 * MILLISECOND
    }

    /** No key of another resource is touched. */
    twostate predicate OthersUntouched(resource: string)
      reads nodes
    {
      forall n, k | 0 <= n < nodes.Length && k != resource ::
        (k in nodes[n] <==> k in old(nodes[n])) && (k in nodes[n] ==> nodes[n][k] == old(nodes[n][k]))
    }

    /** Calls SetNX on every node in turn, the first at clock reading `base`; returns how many were won. */
    method SetAll(resource: string, token: string, world: World, attempt: nat, base: nat)
      returns (acquired: nat, ghost won: set<nat>)
      requires Monotone(world.clock)
      modifies nodes
      ensures OthersUntouched(resource)
      ensures acquired == |won|
      ensures forall n | n in won ::
                n < nodes.Length && HeldUntil(nodes[n], resource, token, world.clock(base) + cfg.ttl)
      ensures forall n | 0 <= n < nodes.Length ::
                n in won <==> && world.reaches(attempt, n) && world.replies(attempt, n)
                              && !Live(old(nodes[n]), resource, world.clock(base + n))
      ensures forall n | 0 <= n < nodes.Length && Live(old(nodes[n]), resource, world.clock(base + n)) ::
                nodes[n] == old(nodes[n])
    {
      acquired, won := 0, {};
      for n := 0 to nodes.Length
        invariant acquired == |won| && forall m | m in won :: m < n
        invariant OthersUntouched(resource)
        invariant forall m | n <= m < nodes.Length :: nodes[m] == old(nodes[m])
        invariant forall m | m in won :: HeldUntil(nodes[m], resource, token, world.clock(base) + cfg.ttl)
        invariant forall m | 0 <= m < n ::
                    m in won <==> && world.reaches(attempt, m) && world.replies(attempt, m)
                                  && !Live(old(nodes[m]), resource, world.clock(base + m))
        invariant forall m | 0 <= m < n && Live(old(nodes[m]), resource, world.clock(base + m)) ::
                    nodes[m] == old(nodes[m])
      {
        assert world.clock(base) <= world.clock(base + n);
        var ok := SetOne(resource, token, world.reaches(attempt, n), world.clock(base + n), n, world.clock(base));
        if ok && world.replies(attempt, n) {
          acquired := acquired + 1;
          won := won + {n};
        }
      }
    }

    /** One SetNX call; it may not reach its node. */
    method SetOne(resource: string, token: string, reaches: bool, now: int, n: nat, ghost from: int) returns (ok: bool)
      requires n < nodes.Length && from <= now
      modifies nodes
      ensures forall m | 0 <= m < nodes.Length && m != n :: nodes[m] == old(nodes[m])
      ensures OthersUntouched(resource)
      ensures ok <==> reaches && !Live(old(nodes[n]), resource, now)
      ensures ok ==> HeldUntil(nodes[n], resource, token, from + cfg.ttl)
      ensures !ok ==> nodes[n] == old(nodes[n])
    {
      ok := false;
      if reaches {
        var before := nodes[n];
        ok := !Live(before, resource, now);
        if ok {
          SetHolds(before, resource, token, now, cfg.ttl, from);
        }
        nodes[n] := SetIfAbsent(before, resource, token, now, cfg.ttl);
      }
    }

    /** Runs the release script on every node in turn. */
    method CleanAll(resource: string, token: string, world: World, attempt: nat, base: nat)
      requires Monotone(world.clock)
      modifies nodes
      ensures OthersUntouched(resource)
      ensures forall n | 0 <= n < nodes.Length && world.cleans(attempt, n) ::
                !Holds(nodes[n], resource, token, world.clock(base + nodes.Length))
      ensures forall n, k | 0 <= n < nodes.Length && k in old(nodes[n]) && old(nodes[n][k]).token != token ::
                k in nodes[n] && nodes[n][k] == old(nodes[n][k])
    {
      for n := 0 to nodes.Length
        invariant OthersUntouched(resource)
        invariant forall m | n <= m < nodes.Length :: nodes[m] == old(nodes[m])
        invariant forall m | 0 <= m < n && world.cleans(attempt, m) ::
                    !Holds(nodes[m], resource, token, world.clock(base + nodes.Length))
        invariant forall m, k | 0 <= m < n && k in old(nodes[m]) && old(nodes[m][k]).token != token ::
                    k in nodes[m] && nodes[m][k] == old(nodes[m][k])
      {
        if world.cleans(attempt, n) {
          assert world.clock(base + n) <= world.clock(base + nodes.Length);
          nodes[n] := DeleteIfMine(nodes[n], resource, token, world.clock(base + n));
        }
      }
    }

    /** Every release call reaches its node. */
    ghost predicate AllClean(world: World) {
      forall a: nat, n: nat | n < nodes.Length :: world.cleans(a, n)
    }

    /**
     * On success a quorum of nodes holds the token until `start + ttl`, and the lock expires no later than that if
     * the pause before the last clock reading fits in the drift. On failure no node holds the token.
     */
    method Acquire(resource: string, token: string, world: World)
      returns (r: Option<Lock>, ghost start: int, ghost pause: int, ghost won: set<nat>, ghost end: nat)
      requires Monotone(world.clock) && cfg.retryCount > 0
      requires forall n | 0 <= n < nodes.Length :: !Holds(nodes[n], resource, token, world.clock(0))
      modifies nodes
      ensures OthersUntouched(resource)
      ensures r.Some? ==>
                && r.value.resource == resource && r.value.value == token
                && |won| >= cfg.quorum
                && (forall n | n in won :: n < nodes.Length && HeldUntil(nodes[n], resource, token, start + cfg.ttl))
                && (pause <= Drift() ==> r.value.expiry <= start + cfg.ttl)
                && start <= world.clock(end) < r.value.expiry
      ensures r.None? && AllClean(world) ==>
                forall n | 0 <= n < nodes.Length :: !Holds(nodes[n], resource, token, world.clock(end))
      ensures forall n | 0 <= n < nodes.Length && Foreign(old(nodes[n]), resource, token, world.clock(end)) ::
                resource in nodes[n] && nodes[n][resource] == old(nodes[n])[resource]
    {
      var reading := 0;
      start, pause, won, end := 0, 0, {}, 0;
      for attempt := 0 to cfg.retryCount
        invariant OthersUntouched(resource)
        invariant reading >= 0 && end == reading
        invariant AllClean(world) ==>
                    forall n | 0 <= n < nodes.Length :: !Holds(nodes[n], resource, token, world.clock(reading))
        invariant forall n | 0 <= n < nodes.Length && Foreign(old(nodes[n]), resource, token, world.clock(reading)) ::
                    resource in nodes[n] && nodes[n][resource] == old(nodes[n])[resource]
      {
        if attempt > 0 && world.cancelledBefore(attempt) {
          return None, start, pause, won, end;
        }
        var begun := world.clock(reading);
        var acquired, w := SetAll(resource, token, world, attempt, reading);
        var measured := reading + nodes.Length;
        var elapsed := world.clock(measured) - begun;
        var validity := cfg.ttl - elapsed - Drift();
        if acquired >= cfg.quorum && validity > 0 {
          start, won, end := begun, w, measured + 1;
          pause := world.clock(measured + 1) - world.clock(measured);
          return Some(Lock(resource, token, world.clock(measured + 1) + validity)), start, pause, won, end;
        }
        CleanAll(resource, token, world, attempt, measured);
        reading := measured + nodes.Length;
        end := reading;
      }
      r := None;
    }

    /** Deletes the lock's own keys and nothing else. */
    method Release(lock: Lock, world: World)
      requires Monotone(world.clock)
      modifies nodes
      ensures OthersUntouched(lock.resource)
      ensures forall n | 0 <= n < nodes.Length && world.cleans(0, n) ::
                !Holds(nodes[n], lock.resource, lock.value, world.clock(nodes.Length))
      ensures forall n, k | 0 <= n < nodes.Length && k in old(nodes[n]) && old(nodes[n][k]).token != lock.value ::
                k in nodes[n] && nodes[n][k] == old(nodes[n][k])
    {
      CleanAll(lock.resource, lock.value, world, 0, 0);
    }
  }
}
