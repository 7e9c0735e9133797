/** The calls of the adaptive pool as they run when nobody interrupts, on the counter and the
    queue themselves: each is the steps of the accounting machine for the task that makes it. */
module PoolCalls {
  import opened Bytes
  import opened Options
  import opened PoolAccounting
  import Q = DestPool

  // ---- How many connections a destination deserves -------------------------------------------

  /** From the hits of the last windows; nothing below `minHotness`. */
  function Tier(hits: nat, max: nat, minHotness: nat): (r: nat)
    ensures r <= max
  {
    if hits < minHotness then 0
    else
      Min(if hits == 0 then 0
          else if hits <= 3 then 1
          else if hits <= 7 then 2
          else if hits <= 15 then 4
          else if hits <= 31 then 8
          else if hits <= 63 then 16
          else max, max)
  }

  /** One connection for two hits up to one for four, and as many as allowed from 64 hits on;
      one for a few, none for none; never fewer for more hits. */
  lemma TierMeans(hits: nat, more: nat, max: nat, minHotness: nat)
    requires hits <= more
    ensures Tier(hits, max, minHotness) <= Tier(more, max, minHotness)
    ensures 4 <= hits < 64 && minHotness <= hits && max >= 16 ==>
              var t := Tier(hits, max, minHotness); 2 * t <= hits < 4 * t && t in {2, 4, 8, 16}
    ensures 0 < hits < 4 && minHotness <= hits && max > 0 ==> Tier(hits, max, minHotness) == 1
    ensures hits >= 64 && minHotness <= hits ==> Tier(hits, max, minHotness) == max
    ensures hits == 0 || hits < minHotness ==> Tier(hits, max, minHotness) == 0
    ensures Tier(hits, max, minHotness) == Min(Tier(hits, max + 16, minHotness), max) || hits >= 64
  {
  }

  // ---- The steps of a connection ----------------------------------------------------------------

  function Spawns(i: nat, n: nat): (steps: seq<Step>)
  {
    if n == 0 then [] else [SpawnRefill(i)] + Spawns(i, n - 1)
  }

  function Refills(p: nat, n: nat): (actors: seq<Actor>)
  {
    if n == 0 then [] else [Refilling(p)] + Refills(p, n - 1)
  }

  /** Look for an idle socket, give back the stale ones' slots, reserve and spawn refills, and
      give back the slot of the socket taken. */
  function ConnectSteps(i: nat, stale: nat, hit: bool, want: nat): (steps: seq<Step>)
  {
    [TakeIdle(i, stale, hit), ReleaseStale(i)] + (ReserveSteps(i, want) + [EndReplenish(i), ReleaseTaken(i)])
  }

  function ReserveSteps(i: nat, want: nat): (steps: seq<Step>)
  {
    if want > 0 then [Reserve(i, want)] + Spawns(i, want) else []
  }

  lemma {:induction false} RunsJoin(s: Pool, a: seq<Step>, b: seq<Step>)
    requires Runnable(s, a) && Runnable(After(s, a), b)
    ensures Runnable(s, a + b) && After(s, a + b) == After(After(s, a), b)
    decreases |a|
  {
    if a == [] {
      assert a + b == b;
    } else {
      assert (a + b)[1..] == a[1..] + b;
      RunsJoin(Take(s, a[0]), a[1..], b);
    }
  }

  lemma TwoSteps(s: Pool, x: Step, y: Step)
    requires Enabled(s, x) && Enabled(Take(s, x), y)
    ensures Runnable(s, [x, y]) && After(s, [x, y]) == Take(Take(s, x), y)
  {
    assert [x, y][1..] == [y] && [y][1..] == [];
    assert After(Take(s, x), [y]) == After(Take(Take(s, x), y), []);
  }

  lemma {:induction false} SpawnsRun(s: Pool, i: nat, p: nat, took: nat, n: nat)
    requires i < |s.actors| && s.actors[i] == Reserved(p, took, n)
    ensures Runnable(s, Spawns(i, n))
    ensures After(s, Spawns(i, n)) == s.(actors := s.actors[i := Reserved(p, took, 0)] + Refills(p, n))
    decreases n
  {
    if n == 0 {
      assert s.actors[i := Reserved(p, took, 0)] + [] == s.actors;
    } else {
      var s' := Take(s, SpawnRefill(i));
      SpawnsRun(s', i, p, took, n - 1);
      OneThenMore(s, SpawnRefill(i), Spawns(i, n - 1));
      OneSpawned(s.actors, i, Reserved(p, took, n - 1), Reserved(p, took, 0), p, n);
    }
  }

  lemma OneThenMore(s: Pool, step: Step, steps: seq<Step>)
    requires Enabled(s, step) && Runnable(Take(s, step), steps)
    ensures Runnable(s, [step] + steps) && After(s, [step] + steps) == After(Take(s, step), steps)
  {
    assert ([step] + steps)[1..] == steps;
  }

  lemma OneSpawned(actors: seq<Actor>, i: nat, x: Actor, y: Actor, p: nat, n: nat)
    requires i < |actors| && n > 0
    ensures (actors[i := x] + [Refilling(p)])[i := y] + Refills(p, n - 1) == actors[i := y] + Refills(p, n)
  {
  }

  /** Some steps lead from one state to another. */
  predicate Leads(s: Pool, steps: seq<Step>, s': Pool)
  {
    Runnable(s, steps) && After(s, steps) == s'
  }

  lemma LeadsOn(s: Pool, a: seq<Step>, s1: Pool, b: seq<Step>, s2: Pool)
    requires Leads(s, a, s1) && Leads(s1, b, s2)
    ensures Leads(s, a + b, s2)
  {
    RunsJoin(s, a, b);
  }

  lemma ReserveLeads(s: Pool, i: nat, p: nat, took: nat, want: nat)
    requires i < |s.actors| && s.actors[i] == Settled(p, took)
    requires 0 < want <= s.maxPerDest && s.globalIdle + want <= s.maxGlobal
    ensures Leads(s, ReserveSteps(i, want),
                  s.(globalIdle := s.globalIdle + want,
                     actors := s.actors[i := Reserved(p, took, 0)] + Refills(p, want)))
  {
    var s1 := s.(globalIdle := s.globalIdle + want, actors := s.actors[i := Reserved(p, took, want)]);
    assert Enabled(s, Reserve(i, want)) && Take(s, Reserve(i, want)) == s1;
    SpawnsRun(s1, i, p, took, want);
    assert ReserveSteps(i, want)[1..] == Spawns(i, want);
    assert s1.actors[i := Reserved(p, took, 0)] == s.actors[i := Reserved(p, took, 0)];
  }

  lemma LeaveLeads(s: Pool, i: nat, took: nat, s': Pool)
    requires i < |s.actors| && (s.actors[i].Settled? || (s.actors[i].Reserved? && s.actors[i].want == 0))
    requires s.actors[i].took == took && s' == s.(globalIdle := s.globalIdle - took, actors := s.actors[i := Done])
    ensures Leads(s, [EndReplenish(i), ReleaseTaken(i)], s')
  {
    TwoSteps(s, EndReplenish(i), ReleaseTaken(i));
    assert s.actors[i := Leaving(took)][i := Done] == s.actors[i := Done];
  }

  lemma ReplenishLeads(s: Pool, i: nat, p: nat, took: nat, want: nat)
    requires i < |s.actors| && s.actors[i] == Settled(p, took)
    requires want > 0 ==> want <= s.maxPerDest && s.globalIdle + want <= s.maxGlobal
    ensures Leads(s, ReserveSteps(i, want) + [EndReplenish(i), ReleaseTaken(i)],
                  s.(globalIdle := s.globalIdle + want - took, actors := s.actors[i := Done] + Refills(p, want)))
  {
    if want > 0 {
      ReserveLeads(s, i, p, took, want);
      AllSpawned(s, i, p, took, want);
    } else {
      assert s.actors[i := Done] + [] == s.actors[i := Done];
      LeaveLeads(s, i, took, s.(globalIdle := s.globalIdle - took, actors := s.actors[i := Done]));
      assert [] + [EndReplenish(i), ReleaseTaken(i)] == [EndReplenish(i), ReleaseTaken(i)];
    }
  }

  lemma AllSpawned(s: Pool, i: nat, p: nat, took: nat, want: nat)
    requires i < |s.actors|
    requires Leads(s, ReserveSteps(i, want),
                   s.(globalIdle := s.globalIdle + want,
                      actors := s.actors[i := Reserved(p, took, 0)] + Refills(p, want)))
    ensures Leads(s, ReserveSteps(i, want) + [EndReplenish(i), ReleaseTaken(i)],
                  s.(globalIdle := s.globalIdle + want - took, actors := s.actors[i := Done] + Refills(p, want)))
  {
    var s1 := s.(globalIdle := s.globalIdle + want, actors := s.actors[i := Reserved(p, took, 0)] + Refills(p, want));
    var end := s.(globalIdle := s.globalIdle + want - took, actors := s.actors[i := Done] + Refills(p, want));
    assert s1.actors[i := Done] == end.actors;
    LeaveLeads(s1, i, took, end);
    LeadsOn(s, ReserveSteps(i, want), s1, [EndReplenish(i), ReleaseTaken(i)], end);
  }

  lemma TakeLeads(s: Pool, i: nat, p: nat, stale: nat, hit: bool, took: nat)
    requires Enabled(s, TakeIdle(i, stale, hit)) && p == s.actors[i].p && took == if hit then 1 else 0
    ensures Leads(s, [TakeIdle(i, stale, hit), ReleaseStale(i)],
                  s.(globalIdle := s.globalIdle - stale, dests := s.dests[p := Popping(s.dests[p], stale + took)],
                     actors := s.actors[i := Settled(p, took)]))
  {
    TwoSteps(s, TakeIdle(i, stale, hit), ReleaseStale(i));
    assert s.actors[i := Popped(p, stale, took)][i := Settled(p, took)] == s.actors[i := Settled(p, took)];
  }

  /** The pool after an uninterrupted connection. */
  function Connected(s: Pool, i: nat, stale: nat, hit: bool, want: nat): (r: Pool)
    requires Enabled(s, TakeIdle(i, stale, hit))
  {
    var p, took := s.actors[i].p, if hit then 1 else 0;
    s.(globalIdle := s.globalIdle - stale + want - took,
       dests := s.dests[p := Popping(s.dests[p], stale + took)],
       actors := s.actors[i := Done] + Refills(p, want))
  }

  lemma ConnectRuns(s: Pool, i: nat, stale: nat, hit: bool, want: nat)
    requires Enabled(s, TakeIdle(i, stale, hit))
    requires want > 0 ==> want <= s.maxPerDest && s.globalIdle - stale + want <= s.maxGlobal
    ensures Leads(s, ConnectSteps(i, stale, hit, want), Connected(s, i, stale, hit, want))
  {
    var p, took := s.actors[i].p, if hit then 1 else 0;
    TakeLeads(s, i, p, stale, hit, took);
    var s2 := s.(globalIdle := s.globalIdle - stale, dests := s.dests[p := Popping(s.dests[p], stale + took)],
                 actors := s.actors[i := Settled(p, took)]);
    ReplenishLeads(s2, i, p, took, want);
    assert s2.actors[i := Done] == s.actors[i := Done];
    LeadsOn(s, [TakeIdle(i, stale, hit), ReleaseStale(i)], s2,
            ReserveSteps(i, want) + [EndReplenish(i), ReleaseTaken(i)], Connected(s, i, stale, hit, want));
  }

  // ---- The calls ----------------------------------------------------------------------------------

  /** What is missing to `cap`, and what is left under a ceiling. */
  function Lacking(cap: nat, have: nat): (n: nat)
    ensures n <= cap
  {
    if have < cap then cap - have else 0
  }

  function Room(ceiling: nat, committed: int): (n: nat)
    ensures n == 0 || committed + n <= ceiling
  {
    if committed < ceiling then ceiling - committed else 0
  }

  class AdaptivePool {
    const maxPerDest: nat
    const maxGlobalIdle: nat
    var globalIdle: int

    constructor (maxPerDest: nat, maxGlobalIdle: nat)
      ensures this.maxPerDest == maxPerDest && this.maxGlobalIdle == maxGlobalIdle
      ensures Mirrors(Start(maxGlobalIdle, maxPerDest))
    {
      this.maxPerDest, this.maxGlobalIdle, globalIdle := maxPerDest, maxGlobalIdle, 0;
    }

    ghost predicate Mirrors(s: Pool)
      reads this
    {
      s.globalIdle == globalIdle && s.maxGlobal == maxGlobalIdle && s.maxPerDest == maxPerDest
    }

    /** A connection: the first usable socket if there is one, refills toward what the hits of the
        destination deserve as far as the ceiling allows, and the slots given back. */
    method Connect(queue: Q.DestPool, now: int, idleTtl: int, hits: nat, minHotness: nat, inFlight: nat,
                   ghost s: Pool, ghost i: nat)
      returns (taken: Option<(Q.Conn, int)>, stale: nat, spawned: nat)
      requires Mirrors(s) && i < |s.actors| && s.actors[i].Holding? && s.actors[i].p < |s.dests|
      requires s.dests[s.actors[i].p].idle == |queue.idle|
      modifies this, queue
      ensures taken.Some? <==> exists k :: 0 <= k < old(|queue.idle|) && Q.Usable(old(queue.idle)[k], now, idleTtl)
      ensures |queue.idle| + stale + (if taken.Some? then 1 else 0) == old(|queue.idle|)
      ensures spawned == Min(Lacking(Tier(hits, maxPerDest, minHotness), |queue.idle| + inFlight),
                             Room(maxGlobalIdle, old(globalIdle) - stale))
      ensures globalIdle == old(globalIdle) - stale + spawned - (if taken.Some? then 1 else 0)
      ensures Runnable(s, ConnectSteps(i, stale, taken.Some?, spawned))
      ensures var r := After(s, ConnectSteps(i, stale, taken.Some?, spawned));
              Mirrors(r) && |r.dests| == |s.dests| && r.dests[s.actors[i].p].idle == |queue.idle|
    {
      taken, stale := queue.TryTake(now, idleTtl);
      globalIdle := globalIdle - stale;
      spawned := Replenish(|queue.idle|, hits, minHotness, inFlight);
      if taken.Some? {
        globalIdle := globalIdle - 1;
      }
      ConnectRuns(s, i, stale, taken.Some?, spawned);
    }

    /** Reserving slots for refills; uninterrupted, the first exchange succeeds. */
    method Replenish(idle: nat, hits: nat, minHotness: nat, inFlight: nat) returns (spawned: nat)
      modifies this
      ensures spawned == Min(Lacking(Tier(hits, maxPerDest, minHotness), idle + inFlight),
                             Room(maxGlobalIdle, old(globalIdle)))
      ensures globalIdle == old(globalIdle) + spawned
    {
      var cap := Tier(hits, maxPerDest, minHotness);
      var needed := Min(Lacking(cap, idle + inFlight), Room(maxGlobalIdle, globalIdle));
      if needed == 0 {
        return 0;
      }
      spawned := Min(needed, Room(maxGlobalIdle, globalIdle));
      globalIdle := globalIdle + spawned;
    }

    /** A refill, connected or not: its socket is queued if there is room, and otherwise its slot
        is given back. */
    method Refill(queue: Q.DestPool, connected: Option<Q.Conn>, ghost s: Pool, ghost i: nat) returns (kept: bool)
      requires Mirrors(s) && i < |s.actors| && s.actors[i].Refilling? && s.actors[i].p < |s.dests|
      requires s.dests[s.actors[i].p].idle == |queue.idle|
      modifies this, queue`idle
      ensures kept <==> connected.Some? && old(|queue.idle|) < maxPerDest
      ensures queue.idle == if kept then old(queue.idle) + [connected.value] else old(queue.idle)
      ensures globalIdle == old(globalIdle) - (if kept then 0 else 1)
      ensures var step := if connected.Some? then RefillConnected(i) else RefillFailed(i);
              && Enabled(s, step) && Mirrors(Take(s, step))
              && Take(s, step).dests[s.actors[i].p].idle == |queue.idle| && Take(s, step).actors[i].Done?
    {
      kept := false;
      if connected.Some? {
        kept := queue.Push(connected.value, maxPerDest);
      }
      if !kept {
        globalIdle := globalIdle - 1;
      }
    }

    /** An eviction: the slots of the sockets in the queue are given back. */
    method Evict(queue: Q.DestPool, ghost s: Pool, ghost i: nat, ghost p: nat)
      requires Mirrors(s) && i < |s.actors| && s.actors[i].Entering? && p < |s.dests|
      requires s.dests[p].idle == |queue.idle| && s.dests[p].link.Attached?
      modifies this
      ensures globalIdle == old(globalIdle) - |queue.idle|
      ensures var steps := [PoolAccounting.Evict(i, p)] + [CountEvicted(i), ReturnEvicted(i)];
              && Runnable(s, steps) && Mirrors(After(s, steps))
              && |After(s, steps).dests| == |s.dests| && !After(s, steps).dests[p].link.Attached?
    {
      var n := |queue.idle|;
      if n > 0 {
        globalIdle := globalIdle - n;
      }
      ghost var s1 := Take(s, PoolAccounting.Evict(i, p));
      TwoSteps(s1, CountEvicted(i), ReturnEvicted(i));
      assert [PoolAccounting.Evict(i, p)][1..] == [];
      RunsJoin(s, [PoolAccounting.Evict(i, p)], [CountEvicted(i), ReturnEvicted(i)]);
    }
  }
}
