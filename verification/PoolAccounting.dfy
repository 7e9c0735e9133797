/** Slot accounting of the adaptive connection pool: connections taking idle sockets,
    refills reserving slots and filling them in the background, and evictions returning an
    evicted queue's slots while others may still hold that queue. */
module PoolAccounting {

  // ---- State -------------------------------------------------------------------------

  /** A destination's queue is in the map, out of the map but not yet counted by its
      evictor, or counted and gone. */
  datatype Link = Attached | Removed | Detached

  /** `credit`: idle slots an eviction returned for sockets still in the queue.  `drift`:
      sockets pushed to it since, less sockets popped from it since. */
  datatype Dest = Dest(idle: nat, link: Link, credit: int, drift: int)

  /** Where a task is between two atomic actions, and which queue it holds. */
  datatype Actor =
    | Entering
    | Evicting(p: nat)
    | Counted(p: nat, n: nat)
    | Holding(p: nat)
    | Popped(p: nat, stale: nat, took: nat)
    | Settled(p: nat, took: nat)
    | Reserved(p: nat, took: nat, want: nat)
    | Leaving(took: nat)
    | Refilling(p: nat)
    | Done

  datatype Pool = Pool(globalIdle: int, dests: seq<Dest>, actors: seq<Actor>, maxGlobal: nat, maxPerDest: nat)

  /** Slots an actor has popped or reserved and not yet accounted for. */
  function Unsettled(a: Actor): (n: int)
  {
    match a
    case Counted(_, n) => n
    case Popped(_, stale, took) => stale + took
    case Settled(_, took) => took
    case Reserved(_, took, want) => took + want
    case Leaving(took) => took
    case Refilling(_) => 1
    case _ => 0
  }

  function IdleOf(d: Dest): (n: int) { d.idle }
  function CreditOf(d: Dest): (n: int) { d.credit }
  function DriftOf(d: Dest): (n: int) { d.drift }

  /** Idle sockets the pool still answers for. */
  function LiveIdle(d: Dest): (n: int) { if d.link.Detached? then 0 else d.idle }

  function Sum<T>(f: T -> int, s: seq<T>): (n: int)
  {
    if s == [] then 0 else f(s[0]) + Sum(f, s[1..])
  }

  lemma {:induction false} SumUpdate<T>(f: T -> int, s: seq<T>, i: nat, x: T)
    requires i < |s|
    ensures Sum(f, s[i := x]) == Sum(f, s) - f(s[i]) + f(x)
  {
    if i == 0 {
      assert s[0 := x][1..] == s[1..];
    } else {
      assert s[i := x][1..] == s[1..][i - 1 := x];
      SumUpdate(f, s[1..], i - 1, x);
    }
  }

  lemma {:induction false} SumSnoc<T>(f: T -> int, s: seq<T>, x: T)
    ensures Sum(f, s + [x]) == Sum(f, s) + f(x)
  {
    if s == [] {
      assert s + [x] == [x];
      assert [x][1..] == [];
    } else {
      assert (s + [x])[1..] == s[1..] + [x];
      SumSnoc(f, s[1..], x);
    }
  }

  // ---- Steps -------------------------------------------------------------------------

  /** One atomic action of one task.  Values a task read earlier and may find stale (how
      many slots it needs) are free within the bounds the code puts on them. */
  datatype Step =
    | Connect
    | Evict(i: nat, p: nat)
    | CountEvicted(i: nat)
    | ReturnEvicted(i: nat)
    | Create(i: nat)
    | Lookup(i: nat, p: nat)
    | TakeIdle(i: nat, stale: nat, hit: bool)
    | ReleaseStale(i: nat)
    | Reserve(i: nat, want: nat)
    | SpawnRefill(i: nat)
    | EndReplenish(i: nat)
    | RefillConnected(i: nat)
    | RefillFailed(i: nat)
    | ReleaseTaken(i: nat)
    | Drop(p: nat)

  /** The queue an actor may still push to or pop from. */
  predicate Holds(a: Actor, p: nat)
  {
    match a
    case Holding(q) => q == p
    case Popped(q, _, _) => q == p
    case Settled(q, _) => q == p
    case Reserved(q, _, _) => q == p
    case Refilling(q) => q == p
    case _ => false
  }

  predicate Unheld(s: Pool, p: nat)
  {
    forall j :: 0 <= j < |s.actors| ==> !Holds(s.actors[j], p)
  }

  predicate Enabled(s: Pool, step: Step)
  {
    match step
    case Connect => true
    case Evict(i, p) => (i < |s.actors| && s.actors[i].Entering?) && p < |s.dests| && s.dests[p].link.Attached?
    case CountEvicted(i) => i < |s.actors| && s.actors[i].Evicting? && s.actors[i].p < |s.dests|
    case ReturnEvicted(i) => (i < |s.actors| && s.actors[i].Counted?)
    case Create(i) => (i < |s.actors| && s.actors[i].Entering?)
    case Lookup(i, p) => (i < |s.actors| && s.actors[i].Entering?) && p < |s.dests| && s.dests[p].link.Attached?
    case TakeIdle(i, stale, hit) =>
      && (i < |s.actors| && s.actors[i].Holding?) && s.actors[i].p < |s.dests|
      && (if hit then stale < s.dests[s.actors[i].p].idle else stale == s.dests[s.actors[i].p].idle)
    case ReleaseStale(i) => (i < |s.actors| && s.actors[i].Popped?)
    case Reserve(i, want) =>
      (i < |s.actors| && s.actors[i].Settled?) && 1 <= want <= s.maxPerDest && s.globalIdle + want <= s.maxGlobal
    case SpawnRefill(i) => i < |s.actors| && s.actors[i].Reserved? && s.actors[i].want > 0
    case EndReplenish(i) => i < |s.actors| && (s.actors[i].Settled? || (s.actors[i].Reserved? && s.actors[i].want == 0))
    case RefillConnected(i) => (i < |s.actors| && s.actors[i].Refilling?) && s.actors[i].p < |s.dests|
    case RefillFailed(i) => (i < |s.actors| && s.actors[i].Refilling?)
    case ReleaseTaken(i) => (i < |s.actors| && s.actors[i].Leaving?)
    case Drop(p) => p < |s.dests| && s.dests[p].link.Detached? && Unheld(s, p)
  }

  /** The queue after `k` sockets leave it (negative `k`: arrive). */
  function Popping(d: Dest, k: int): (r: Dest)
    requires k <= d.idle
  {
    d.(idle := d.idle - k, drift := if d.link.Detached? then d.drift - k else d.drift)
  }

  function Take(s: Pool, step: Step): (r: Pool)
    requires Enabled(s, step)
  {
    match step
    case Connect => s.(actors := s.actors + [Entering])
    case Evict(i, p) =>
      s.(dests := s.dests[p := s.dests[p].(link := Removed)], actors := s.actors[i := Evicting(p)])
    case CountEvicted(i) =>
      var p := s.actors[i].p;
      var d := s.dests[p];
      s.(dests := s.dests[p := d.(link := Detached, credit := d.idle, drift := 0)],
         actors := s.actors[i := Counted(p, d.idle)])
    case ReturnEvicted(i) =>
      s.(globalIdle := s.globalIdle - s.actors[i].n, actors := s.actors[i := Entering])
    case Create(i) =>
      s.(dests := s.dests + [Dest(0, Attached, 0, 0)], actors := s.actors[i := Holding(|s.dests|)])
    case Lookup(i, p) => s.(actors := s.actors[i := Holding(p)])
    case TakeIdle(i, stale, hit) =>
      var p := s.actors[i].p;
      var took := if hit then 1 else 0;
      s.(dests := s.dests[p := Popping(s.dests[p], stale + took)], actors := s.actors[i := Popped(p, stale, took)])
    case ReleaseStale(i) =>
      var a := s.actors[i];
      s.(globalIdle := s.globalIdle - a.stale, actors := s.actors[i := Settled(a.p, a.took)])
    case Reserve(i, want) =>
      var a := s.actors[i];
      s.(globalIdle := s.globalIdle + want, actors := s.actors[i := Reserved(a.p, a.took, want)])
    case SpawnRefill(i) =>
      var a := s.actors[i];
      s.(actors := s.actors[i := Reserved(a.p, a.took, a.want - 1)] + [Refilling(a.p)])
    case EndReplenish(i) => s.(actors := s.actors[i := Leaving(s.actors[i].took)])
    case RefillConnected(i) =>
      var p := s.actors[i].p;
      if s.dests[p].idle < s.maxPerDest then
        s.(dests := s.dests[p := Popping(s.dests[p], -1)], actors := s.actors[i := Done])
      else
        s.(globalIdle := s.globalIdle - 1, actors := s.actors[i := Done])
    case RefillFailed(i) => s.(globalIdle := s.globalIdle - 1, actors := s.actors[i := Done])
    case ReleaseTaken(i) => s.(globalIdle := s.globalIdle - s.actors[i].took, actors := s.actors[i := Done])
    case Drop(p) =>
      var d := s.dests[p];
      s.(dests := s.dests[p := d.(idle := 0, credit := d.credit - d.idle)])
  }

  function Start(maxGlobal: nat, maxPerDest: nat): (s: Pool)
  {
    Pool(0, [], [], maxGlobal, maxPerDest)
  }

  // ---- The law -----------------------------------------------------------------------

  predicate DestOk(d: Dest, maxPerDest: nat)
  {
    && d.idle <= maxPerDest
    && d.drift == (if d.link.Detached? then d.idle - d.credit else 0)
    && (!d.link.Detached? ==> d.credit == 0)
  }

  predicate ActorOk(a: Actor, dests: seq<Dest>)
  {
    match a
    case Evicting(p) => p < |dests| && dests[p].link.Removed?
    case Holding(p) => p < |dests|
    case Popped(p, _, _) => p < |dests|
    case Settled(p, _) => p < |dests|
    case Reserved(p, _, _) => p < |dests|
    case Refilling(p) => p < |dests|
    case _ => true
  }

  /** No queue has two evictors. */
  predicate EvictorsDiffer(actors: seq<Actor>)
  {
    forall i, j :: 0 <= i < j < |actors| && actors[i].Evicting? && actors[j].Evicting? ==> actors[i].p != actors[j].p
  }

  /** Conservation: the counter plus the slots returned by evictions are the idle sockets of
      every queue, in the map or not, plus the slots tasks have yet to account for. */
  predicate Conserved(s: Pool)
  {
    s.globalIdle + Sum(CreditOf, s.dests) == Sum(IdleOf, s.dests) + Sum(Unsettled, s.actors)
  }

  predicate Inv(s: Pool)
  {
    && Conserved(s)
    && s.globalIdle <= s.maxGlobal
    && (forall p :: 0 <= p < |s.dests| ==> DestOk(s.dests[p], s.maxPerDest))
    && (forall i :: 0 <= i < |s.actors| ==> ActorOk(s.actors[i], s.dests))
    && EvictorsDiffer(s.actors)
  }

  // ---- Every step keeps it -------------------------------------------------------------

  /** One actor moves on and the counter moves by what that settles. */
  lemma ActorMoves(s: Pool, i: nat, a: Actor, g: int)
    requires Inv(s) && i < |s.actors| && ActorOk(a, s.dests) && !a.Evicting?
    requires g <= s.maxGlobal && g - s.globalIdle == Unsettled(a) - Unsettled(s.actors[i])
    ensures Inv(s.(globalIdle := g, actors := s.actors[i := a]))
  {
    SumUpdate(Unsettled, s.actors, i, a);
  }

  /** Nobody else is evicting `p` once its link changes. */
  predicate SoleEvictor(s: Pool, i: nat, p: nat)
  {
    forall j :: 0 <= j < |s.actors| && j != i && s.actors[j].Evicting? ==> s.actors[j].p != p
  }

  /** One actor moves on and a queue changes; what one gains the other gives up. */
  lemma ActorAndDestMove(s: Pool, i: nat, a: Actor, p: nat, d: Dest)
    requires Inv(s) && i < |s.actors| && p < |s.dests| && DestOk(d, s.maxPerDest)
    requires ActorOk(a, s.dests[p := d]) && (a.Evicting? ==> a.p == p)
    requires d.link == s.dests[p].link || SoleEvictor(s, i, p)
    requires a.Evicting? ==> SoleEvictor(s, i, p)
    requires (d.idle - d.credit) + Unsettled(a) == (s.dests[p].idle - s.dests[p].credit) + Unsettled(s.actors[i])
    ensures Inv(s.(dests := s.dests[p := d], actors := s.actors[i := a]))
  {
    SumUpdate(Unsettled, s.actors, i, a);
    SumUpdate(IdleOf, s.dests, p, d);
    SumUpdate(CreditOf, s.dests, p, d);
  }

  lemma EvictionKeeps(s: Pool, step: Step)
    requires Inv(s) && Enabled(s, step) && (step.Evict? || step.CountEvicted? || step.ReturnEvicted?)
    ensures Inv(Take(s, step))
  {
    match step
    case Evict(i, p) => ActorAndDestMove(s, i, Evicting(p), p, s.dests[p].(link := Removed));
    case CountEvicted(i) =>
      var p := s.actors[i].p;
      var d := s.dests[p];
      ActorAndDestMove(s, i, Counted(p, d.idle), p, d.(link := Detached, credit := d.idle, drift := 0));
    case ReturnEvicted(i) => ActorMoves(s, i, Entering, s.globalIdle - s.actors[i].n);
  }

  lemma CreateKeeps(s: Pool, i: nat)
    requires Inv(s) && Enabled(s, Create(i))
    ensures Inv(Take(s, Create(i)))
  {
    var d := Dest(0, Attached, 0, 0);
    var a := Holding(|s.dests|);
    SumSnoc(IdleOf, s.dests, d);
    SumSnoc(CreditOf, s.dests, d);
    SumUpdate(Unsettled, s.actors, i, a);
    var actors := s.actors[i := a];
    forall j | 0 <= j < |actors| ensures ActorOk(actors[j], s.dests + [d]) {
      assert j != i ==> ActorOk(s.actors[j], s.dests);
    }
  }

  lemma ConnectionKeeps(s: Pool, step: Step)
    requires Inv(s) && Enabled(s, step)
    requires || step.Lookup? || step.TakeIdle? || step.ReleaseStale? || step.Reserve?
             || step.EndReplenish? || step.ReleaseTaken?
    ensures Inv(Take(s, step))
  {
    match step
    case Lookup(i, p) => ActorMoves(s, i, Holding(p), s.globalIdle);
    case TakeIdle(i, stale, hit) =>
      var p := s.actors[i].p;
      var took := if hit then 1 else 0;
      ActorAndDestMove(s, i, Popped(p, stale, took), p, Popping(s.dests[p], stale + took));
    case ReleaseStale(i) =>
      ActorMoves(s, i, Settled(s.actors[i].p, s.actors[i].took), s.globalIdle - s.actors[i].stale);
    case Reserve(i, want) => ActorMoves(s, i, Reserved(s.actors[i].p, s.actors[i].took, want), s.globalIdle + want);
    case EndReplenish(i) => ActorMoves(s, i, Leaving(s.actors[i].took), s.globalIdle);
    case ReleaseTaken(i) => ActorMoves(s, i, Done, s.globalIdle - s.actors[i].took);
  }

  lemma ConnectKeeps(s: Pool)
    requires Inv(s)
    ensures Inv(Take(s, Connect))
  {
    SumSnoc(Unsettled, s.actors, Entering);
  }

  lemma SpawnKeeps(s: Pool, i: nat)
    requires Inv(s) && Enabled(s, SpawnRefill(i))
    ensures Inv(Take(s, SpawnRefill(i)))
  {
    var a := s.actors[i];
    var less := Reserved(a.p, a.took, a.want - 1);
    assert ActorOk(a, s.dests);
    SumUpdate(Unsettled, s.actors, i, less);
    SumSnoc(Unsettled, s.actors[i := less], Refilling(a.p));
  }

  lemma RefillKeeps(s: Pool, i: nat)
    requires Inv(s) && Enabled(s, RefillConnected(i))
    ensures Inv(Take(s, RefillConnected(i)))
  {
    var p := s.actors[i].p;
    if s.dests[p].idle < s.maxPerDest {
      ActorAndDestMove(s, i, Done, p, Popping(s.dests[p], -1));
    } else {
      ActorMoves(s, i, Done, s.globalIdle - 1);
    }
  }

  lemma DropKeeps(s: Pool, p: nat)
    requires Inv(s) && Enabled(s, Drop(p))
    ensures Inv(Take(s, Drop(p)))
  {
    var d := s.dests[p];
    var d' := d.(idle := 0, credit := d.credit - d.idle);
    SumUpdate(IdleOf, s.dests, p, d');
    SumUpdate(CreditOf, s.dests, p, d');
  }

  lemma StepKeeps(s: Pool, step: Step)
    requires Inv(s) && Enabled(s, step)
    ensures Inv(Take(s, step))
  {
    match step
    case Connect => ConnectKeeps(s);
    case Create(i) => CreateKeeps(s, i);
    case SpawnRefill(i) => SpawnKeeps(s, i);
    case RefillConnected(i) => RefillKeeps(s, i);
    case RefillFailed(i) => ActorMoves(s, i, Done, s.globalIdle - 1);
    case Drop(p) => DropKeeps(s, p);
    case _ =>
      if step.Evict? || step.CountEvicted? || step.ReturnEvicted? {
        EvictionKeeps(s, step);
      } else {
        ConnectionKeeps(s, step);
      }
  }

  // ---- Every run -------------------------------------------------------------------------

  predicate Runnable(s: Pool, steps: seq<Step>)
    decreases |steps|
  {
    steps == [] || (Enabled(s, steps[0]) && Runnable(Take(s, steps[0]), steps[1..]))
  }

  function After(s: Pool, steps: seq<Step>): (r: Pool)
    requires Runnable(s, steps)
    decreases |steps|
  {
    if steps == [] then s else After(Take(s, steps[0]), steps[1..])
  }

  lemma {:induction false} RunKeeps(s: Pool, steps: seq<Step>)
    requires Inv(s) && Runnable(s, steps)
    ensures Inv(After(s, steps))
    ensures After(s, steps).maxGlobal == s.maxGlobal && After(s, steps).maxPerDest == s.maxPerDest
    decreases |steps|
  {
    if steps != [] {
      StepKeeps(s, steps[0]);
      RunKeeps(Take(s, steps[0]), steps[1..]);
    }
  }

  lemma {:induction false} DriftSums(dests: seq<Dest>, maxPerDest: nat)
    requires forall p :: 0 <= p < |dests| ==> DestOk(dests[p], maxPerDest)
    ensures Sum(IdleOf, dests) - Sum(CreditOf, dests) == Sum(LiveIdle, dests) + Sum(DriftOf, dests)
  {
    if dests != [] {
      assert DestOk(dests[0], maxPerDest);
      DriftSums(dests[1..], maxPerDest);
    }
  }

  /** In every interleaving: the conservation law, the two ceilings, and how far the counter
      is from the slots really committed.  It is off by exactly the sockets pushed to
      queues after their eviction was counted, less the sockets popped from them. */
  lemma AccountingLaw(maxGlobal: nat, maxPerDest: nat, steps: seq<Step>)
    requires Runnable(Start(maxGlobal, maxPerDest), steps)
    ensures var s := After(Start(maxGlobal, maxPerDest), steps);
            && s.globalIdle + Sum(CreditOf, s.dests) == Sum(IdleOf, s.dests) + Sum(Unsettled, s.actors)
            && s.globalIdle <= maxGlobal
            && (forall p :: 0 <= p < |s.dests| ==> s.dests[p].idle <= maxPerDest)
            && s.globalIdle == Sum(LiveIdle, s.dests) + Sum(Unsettled, s.actors) + Sum(DriftOf, s.dests)
  {
    var s0 := Start(maxGlobal, maxPerDest);
    assert Inv(s0);
    RunKeeps(s0, steps);
    DriftSums(After(s0, steps).dests, maxPerDest);
  }

  // ---- When the counter is exact -------------------------------------------------------------

  /** The eviction's count is taken while no task holds the queue or owes it a socket. */
  predicate Quiet(s: Pool, step: Step)
    requires Enabled(s, step)
  {
    step.CountEvicted? ==> Unheld(s, s.actors[step.i].p)
  }

  predicate QuietRun(s: Pool, steps: seq<Step>)
    requires Runnable(s, steps)
    decreases |steps|
  {
    steps == [] || (Quiet(s, steps[0]) && QuietRun(Take(s, steps[0]), steps[1..]))
  }

  predicate NoLateUse(s: Pool)
  {
    forall p :: 0 <= p < |s.dests| && s.dests[p].link.Detached? ==> s.dests[p].drift == 0 && Unheld(s, p)
  }

  lemma QuietStepKeeps(s: Pool, step: Step)
    requires Inv(s) && NoLateUse(s) && Enabled(s, step) && Quiet(s, step)
    ensures NoLateUse(Take(s, step))
  {
    var s' := Take(s, step);
    forall p | 0 <= p < |s'.dests| && s'.dests[p].link.Detached?
      ensures s'.dests[p].drift == 0 && Unheld(s', p)
    {
      assert p < |s.dests|;
      if s.dests[p].link.Detached? {
        assert Unheld(s, p);
        UnheldStays(s, step, p);
      } else {
        assert step.CountEvicted? && s.actors[step.i].p == p;
      }
    }
  }

  /** A queue out of the map that nobody holds can be picked up by nobody. */
  lemma UnheldStays(s: Pool, step: Step, p: nat)
    requires Inv(s) && Enabled(s, step) && p < |s.dests| && s.dests[p].link.Detached? && Unheld(s, p)
    ensures Unheld(Take(s, step), p) && Take(s, step).dests[p].drift == s.dests[p].drift
  {
    if step.SpawnRefill? {
      assert !Holds(s.actors[step.i], p);
    }
  }

  lemma {:induction false} QuietRunKeeps(s: Pool, steps: seq<Step>)
    requires Inv(s) && NoLateUse(s) && Runnable(s, steps) && QuietRun(s, steps)
    ensures NoLateUse(After(s, steps))
    decreases |steps|
  {
    if steps != [] {
      StepKeeps(s, steps[0]);
      QuietStepKeeps(s, steps[0]);
      QuietRunKeeps(Take(s, steps[0]), steps[1..]);
    }
  }

  lemma {:induction false} NoDriftSums(dests: seq<Dest>)
    requires forall p :: 0 <= p < |dests| ==> dests[p].drift == 0
    ensures Sum(DriftOf, dests) == 0
  {
    if dests != [] {
      assert forall p :: 0 <= p < |dests[1..]| ==> dests[1..][p] == dests[p + 1];
      NoDriftSums(dests[1..]);
    }
  }

  /** If every eviction finds its queue unheld, the counter is exactly the idle sockets
      of the live queues plus the slots tasks have yet to account for. */
  lemma QuietEvictionsKeepCounterExact(maxGlobal: nat, maxPerDest: nat, steps: seq<Step>)
    requires Runnable(Start(maxGlobal, maxPerDest), steps) && QuietRun(Start(maxGlobal, maxPerDest), steps)
    ensures var s := After(Start(maxGlobal, maxPerDest), steps);
            s.globalIdle == Sum(LiveIdle, s.dests) + Sum(Unsettled, s.actors) >= 0
  {
    var s0 := Start(maxGlobal, maxPerDest);
    AccountingLaw(maxGlobal, maxPerDest, steps);
    RunKeeps(s0, steps);
    QuietRunKeeps(s0, steps);
    var s := After(s0, steps);
    forall p | 0 <= p < |s.dests| ensures s.dests[p].drift == 0 {
      assert DestOk(s.dests[p], s.maxPerDest);
    }
    NoDriftSums(s.dests);
    SumNonNegative(LiveIdle, s.dests);
    SumNonNegative(Unsettled, s.actors);
  }

  lemma {:induction false} SumNonNegative<T>(f: T -> int, s: seq<T>)
    requires forall i :: 0 <= i < |s| ==> f(s[i]) >= 0
    ensures Sum(f, s) >= 0
  {
    if s != [] {
      assert forall i :: 0 <= i < |s[1..]| ==> s[1..][i] == s[i + 1];
      SumNonNegative(f, s[1..]);
    }
  }

  // ---- When it is not ------------------------------------------------------------------------

  lemma {:induction false} RunnableSnoc(s: Pool, steps: seq<Step>, step: Step)
    requires Runnable(s, steps) && Enabled(After(s, steps), step)
    ensures Runnable(s, steps + [step]) && After(s, steps + [step]) == Take(After(s, steps), step)
    decreases |steps|
  {
    var all := steps + [step];
    if steps == [] {
      assert all == [step] && all[1..] == [];
    } else {
      assert all[1..] == steps[1..] + [step] && all[0] == steps[0];
      RunnableSnoc(Take(s, steps[0]), steps[1..], step);
    }
  }

  /** Some run leads from `s0` to `s`. */
  ghost predicate Reaches(s0: Pool, s: Pool)
  {
    exists steps :: Runnable(s0, steps) && After(s0, steps) == s
  }

  lemma Goes(s0: Pool, s: Pool, step: Step, s': Pool)
    requires Reaches(s0, s) && Enabled(s, step)
    requires Take(s, step).globalIdle == s'.globalIdle && Take(s, step).dests == s'.dests
    requires Take(s, step).actors == s'.actors
    requires s'.maxGlobal == s.maxGlobal && s'.maxPerDest == s.maxPerDest
    ensures Reaches(s0, s')
  {
    var steps :| Runnable(s0, steps) && After(s0, steps) == s;
    RunnableSnoc(s0, steps, step);
    assert Runnable(s0, steps + [step]) && After(s0, steps + [step]) == s';
  }

  /** A first connection that finds nothing idle ... */
  lemma ConnectionMisses()
    ensures Reaches(Start(1, 1), Pool(0, [Dest(0, Attached, 0, 0)], [Settled(0, 0)], 1, 1))
  {
    var s0, queue := Start(1, 1), [Dest(0, Attached, 0, 0)];
    assert Runnable(s0, []) && After(s0, []) == s0;
    var s1 := Pool(0, [], [Entering], 1, 1);
    assert Reaches(s0, s1) by { Goes(s0, s0, Connect, s1); }
    var s2 := Pool(0, queue, [Holding(0)], 1, 1);
    assert Reaches(s0, s2) by { Goes(s0, s1, Create(0), s2); }
    var s3 := Pool(0, queue, [Popped(0, 0, 0)], 1, 1);
    assert Reaches(s0, s3) by { Goes(s0, s2, TakeIdle(0, 0, false), s3); }
    Goes(s0, s3, ReleaseStale(0), Pool(0, queue, [Settled(0, 0)], 1, 1));
  }

  /** ... and leaves one refill in flight. */
  lemma OneRefillInFlight()
    ensures Reaches(Start(1, 1), Pool(1, [Dest(0, Attached, 0, 0)], [Done, Refilling(0)], 1, 1))
  {
    ConnectionMisses();
    var s0, queue := Start(1, 1), [Dest(0, Attached, 0, 0)];
    var s4 := Pool(0, queue, [Settled(0, 0)], 1, 1);
    var s5 := Pool(1, queue, [Reserved(0, 0, 1)], 1, 1);
    assert Reaches(s0, s5) by { Goes(s0, s4, Reserve(0, 1), s5); }
    var s6 := Pool(1, queue, [Reserved(0, 0, 0), Refilling(0)], 1, 1);
    assert Reaches(s0, s6) by { Goes(s0, s5, SpawnRefill(0), s6); }
    var s7 := Pool(1, queue, [Leaving(0), Refilling(0)], 1, 1);
    assert Reaches(s0, s7) by { Goes(s0, s6, EndReplenish(0), s7); }
    Goes(s0, s7, ReleaseTaken(0), Pool(1, queue, [Done, Refilling(0)], 1, 1));
  }

  lemma EvictedUnderARefill()
    ensures Reaches(Start(1, 1), Pool(1, [Dest(0, Detached, 0, 0)], [Done, Refilling(0), Counted(0, 0)], 1, 1))
  {
    OneRefillInFlight();
    var s0 := Start(1, 1);
    var s1 := Pool(1, [Dest(0, Attached, 0, 0)], [Done, Refilling(0)], 1, 1);
    var s2 := s1.(actors := [Done, Refilling(0), Entering]);
    assert Reaches(s0, s2) by { Goes(s0, s1, Connect, s2); }
    var s3 := Pool(1, [Dest(0, Removed, 0, 0)], [Done, Refilling(0), Evicting(0)], 1, 1);
    assert Reaches(s0, s3) by { Goes(s0, s2, Evict(2, 0), s3); }
    Goes(s0, s3, CountEvicted(2), Pool(1, [Dest(0, Detached, 0, 0)], [Done, Refilling(0), Counted(0, 0)], 1, 1));
  }

  /** The counter is at its ceiling, though no queue holds a socket and no task a slot. */
  predicate Stuck(s: Pool)
  {
    && s.globalIdle >= s.maxGlobal
    && (forall p :: 0 <= p < |s.dests| ==> s.dests[p].idle == 0)
    && (forall i :: 0 <= i < |s.actors| ==> Unsettled(s.actors[i]) == 0)
  }

  lemma StuckStep(s: Pool, step: Step)
    requires Stuck(s) && Enabled(s, step)
    ensures Stuck(Take(s, step)) && !step.Reserve?
  {
  }

  /** From there on, whatever connections, refills and evictions do, the pool stays empty and
      no refill ever reserves a slot. */
  lemma {:induction false} StuckForGood(s: Pool, steps: seq<Step>)
    requires Stuck(s) && Runnable(s, steps)
    ensures Stuck(After(s, steps))
    ensures forall k :: 0 <= k < |steps| ==> !steps[k].Reserve?
    decreases |steps|
  {
    if steps != [] {
      StuckStep(s, steps[0]);
      StuckForGood(Take(s, steps[0]), steps[1..]);
      assert forall k :: 1 <= k < |steps| ==> steps[k] == steps[1..][k - 1];
    }
  }

  /** A slot lost for good: a refill finishes on a queue whose eviction was already counted,
      and the queue is dropped with the socket in it.  With a ceiling of one, no run from
      there has an idle socket or a reservation again. */
  lemma SlotLeaksAfterEviction(leaked: Pool, more: seq<Step>)
    requires leaked == Pool(1, [Dest(0, Detached, -1, 1)], [Done, Done, Entering], 1, 1) && Runnable(leaked, more)
    ensures Reaches(Start(1, 1), leaked)
    ensures Stuck(After(leaked, more)) && forall k :: 0 <= k < |more| ==> !more[k].Reserve?
  {
    LeakIsReached();
    StuckForGood(leaked, more);
  }

  lemma LeakIsReached()
    ensures Reaches(Start(1, 1), Pool(1, [Dest(0, Detached, -1, 1)], [Done, Done, Entering], 1, 1))
  {
    EvictedUnderARefill();
    var s0 := Start(1, 1);
    var s4 := Pool(1, [Dest(0, Detached, 0, 0)], [Done, Refilling(0), Counted(0, 0)], 1, 1);
    var s5 := s4.(actors := [Done, Refilling(0), Entering]);
    assert Reaches(s0, s5) by { Goes(s0, s4, ReturnEvicted(2), s5); }
    var s6 := Pool(1, [Dest(1, Detached, 0, 1)], [Done, Done, Entering], 1, 1);
    assert Reaches(s0, s6) by { Goes(s0, s5, RefillConnected(1), s6); }
    Goes(s0, s6, Drop(0), Pool(1, [Dest(0, Detached, -1, 1)], [Done, Done, Entering], 1, 1));
  }

  /** A connection holds the queue with one idle socket in it while another arrives. */
  lemma HolderOfAnIdleSocket()
    ensures Reaches(Start(1, 1), Pool(1, [Dest(1, Attached, 0, 0)], [Done, Done, Holding(0), Entering], 1, 1))
  {
    OneRefillInFlight();
    var s0 := Start(1, 1);
    var s1 := Pool(1, [Dest(0, Attached, 0, 0)], [Done, Refilling(0)], 1, 1);
    var s2 := Pool(1, [Dest(1, Attached, 0, 0)], [Done, Done], 1, 1);
    assert Reaches(s0, s2) by { Goes(s0, s1, RefillConnected(1), s2); }
    var s3 := s2.(actors := [Done, Done, Entering]);
    assert Reaches(s0, s3) by { Goes(s0, s2, Connect, s3); }
    var s4 := s2.(actors := [Done, Done, Holding(0)]);
    assert Reaches(s0, s4) by { Goes(s0, s3, Lookup(2, 0), s4); }
    Goes(s0, s4, Connect, s2.(actors := [Done, Done, Holding(0), Entering]));
  }

  lemma EvictedUnderAHolder()
    ensures Reaches(Start(1, 1), Pool(0, [Dest(1, Detached, 1, 0)], [Done, Done, Holding(0), Entering], 1, 1))
  {
    HolderOfAnIdleSocket();
    var s0 := Start(1, 1);
    var s5 := Pool(1, [Dest(1, Attached, 0, 0)], [Done, Done, Holding(0), Entering], 1, 1);
    var s6 := Pool(1, [Dest(1, Removed, 0, 0)], [Done, Done, Holding(0), Evicting(0)], 1, 1);
    assert Reaches(s0, s6) by { Goes(s0, s5, Evict(3, 0), s6); }
    var s7 := Pool(1, [Dest(1, Detached, 1, 0)], [Done, Done, Holding(0), Counted(0, 1)], 1, 1);
    assert Reaches(s0, s7) by { Goes(s0, s6, CountEvicted(3), s7); }
    Goes(s0, s7, ReturnEvicted(3), Pool(0, [Dest(1, Detached, 1, 0)], [Done, Done, Holding(0), Entering], 1, 1));
  }

  /** The other way round: a connection already holding the queue pops a socket whose slot
      the eviction has returned, returns it again, and the counter goes below zero. */
  lemma SlotReturnedTwice()
    ensures Reaches(Start(1, 1), Pool(-1, [Dest(0, Detached, 1, -1)], [Done, Done, Settled(0, 0), Entering], 1, 1))
  {
    EvictedUnderAHolder();
    var s0 := Start(1, 1);
    var s8 := Pool(0, [Dest(1, Detached, 1, 0)], [Done, Done, Holding(0), Entering], 1, 1);
    var s9 := Pool(0, [Dest(0, Detached, 1, -1)], [Done, Done, Popped(0, 1, 0), Entering], 1, 1);
    assert Reaches(s0, s9) by { Goes(s0, s8, TakeIdle(2, 1, false), s9); }
    Goes(s0, s9, ReleaseStale(2), Pool(-1, [Dest(0, Detached, 1, -1)], [Done, Done, Settled(0, 0), Entering], 1, 1));
  }
}
