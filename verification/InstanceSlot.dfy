/** The slot that holds the running instance, shared by a reload task, management calls and
    shutdown: whoever takes the instance out rebuilds it, rolls back if that fails, and
    puts the result back. */
module InstanceSlot {

  import opened Options

  type Config = int

  /** An instance, by identity and by the configuration it was built from. */
  datatype Instance = Instance(id: nat, builtFrom: Config)

  datatype Running = Running(config: Config, instance: Instance)

  /** Where a rebuild stands.  The lock is held only while the slot is read, taken or stored;
      between any two phases the others may act. */
  datatype Phase =
    | Start
    | Wanting(base: Config, seen: nat, wanted: Config)
    | Holding(taken: Running, wanted: Config)
    | Building(former: Config, wanted: Config)
    | RollingBack(former: Config, wanted: Config)
    | Storing(former: Config, wanted: Config, rolledBack: bool, result: Option<Running>)
    | Gone

  /** The reload task starts over after a rebuild; a management call is over. */
  datatype Actor = Actor(loops: bool, phase: Phase)

  /** `log`: the configuration at the start and after every store, none where a rollback
      failed; it is not in the program. */
  datatype World = World(slot: Option<Running>, actors: seq<Actor>, nextId: nat, log: seq<Option<Config>>)

  datatype Step =
    | Call
    | Read(i: nat, wanted: Config)
    | GiveUp(i: nat)
    | Take(i: nat)
    | DropOld(i: nat)
    | Build(i: nat, works: bool)
    | RollBack(i: nat, works: bool)
    | Store(i: nat)
    | Shutdown

  predicate Enabled(w: World, step: Step)
  {
    match step
    case Call => true
    case Read(i, _) => i < |w.actors| && w.actors[i].phase.Start?
    case GiveUp(i) => i < |w.actors| && w.actors[i].phase.Wanting?
    case Take(i) => i < |w.actors| && w.actors[i].phase.Wanting?
    case DropOld(i) => i < |w.actors| && w.actors[i].phase.Holding?
    case Build(i, _) => i < |w.actors| && w.actors[i].phase.Building?
    case RollBack(i, _) => i < |w.actors| && w.actors[i].phase.RollingBack?
    case Store(i) => i < |w.actors| && w.actors[i].phase.Storing?
    case Shutdown => true
  }

  function Set(w: World, i: nat, phase: Phase): (r: World)
    requires i < |w.actors|
  {
    w.(actors := w.actors[i := w.actors[i].(phase := phase)])
  }

  function Rest(a: Actor): (p: Phase)
  {
    if a.loops then Start else Gone
  }

  /** One step.  An actor that finds the slot empty is gone: the call fails, the task ends. */
  function Next(w: World, step: Step): (r: World)
    requires Enabled(w, step)
  {
    match step
    case Call => w.(actors := w.actors + [Actor(false, Start)])
    case Read(i, wanted) =>
      Set(w, i, if w.slot.Some? then Wanting(w.slot.value.config, |w.log|, wanted) else Gone)
    case GiveUp(i) => Set(w, i, Rest(w.actors[i]))
    case Take(i) =>
      if w.slot.None? then Set(w, i, Gone)
      else Set(w.(slot := None), i, Holding(w.slot.value, w.actors[i].phase.wanted))
    case DropOld(i) =>
      var p := w.actors[i].phase;
      Set(w, i, Building(p.taken.config, p.wanted))
    case Build(i, works) =>
      var p := w.actors[i].phase;
      if works then
        Set(w.(nextId := w.nextId + 1), i, 
            Storing(p.former, p.wanted, false, Some(Running(p.wanted, Instance(w.nextId, p.wanted)))))
      else Set(w, i, RollingBack(p.former, p.wanted))
    case RollBack(i, works) =>
      var p := w.actors[i].phase;
      if works then
        Set(w.(nextId := w.nextId + 1), i, 
            Storing(p.former, p.wanted, true, Some(Running(p.former, Instance(w.nextId, p.former)))))
      else Set(w, i, Storing(p.former, p.wanted, true, None))
    case Store(i) =>
      var r := w.actors[i].phase.result;
      Set(w.(slot := r, log := w.log + [if r.Some? then Some(r.value.config) else None]), i, Rest(w.actors[i]))
    case Shutdown => w.(slot := None)
  }

  predicate Runnable(w: World, steps: seq<Step>)
    decreases |steps|
  {
    steps == [] || (Enabled(w, steps[0]) && Runnable(Next(w, steps[0]), steps[1..]))
  }

  function After(w: World, steps: seq<Step>): (r: World)
    requires Runnable(w, steps)
    decreases |steps|
  {
    if steps == [] then w else After(Next(w, steps[0]), steps[1..])
  }

  // ---- The invariant ----------------------------------------------------------------------

  /** Between taking the instance out and storing the outcome. */
  predicate Builder(a: Actor)
  {
    a.phase.Holding? || a.phase.Building? || a.phase.RollingBack? || a.phase.Storing?
  }

  predicate Matches(r: Running)
  {
    r.config == r.instance.builtFrom
  }

  predicate PhaseOk(w: World, p: Phase)
  {
    match p
    case Holding(taken, _) => Matches(taken)
    case Storing(former, wanted, rolledBack, result) =>
      && (result.None? ==> rolledBack)
      && (result.Some? ==> Matches(result.value) && result.value.config == if rolledBack then former else wanted)
    case Wanting(base, seen, _) => 1 <= seen <= |w.log| && w.log[seen - 1] == Some(base)
    case _ => true
  }

  predicate Inv(w: World)
  {
    && w.log != []
    && (w.slot.Some? ==> Matches(w.slot.value) && w.log[|w.log| - 1] == Some(w.slot.value.config))
    && (forall i :: 0 <= i < |w.actors| && Builder(w.actors[i]) ==> w.slot.None?)
    && (forall i, j :: 0 <= i < j < |w.actors| ==> !(Builder(w.actors[i]) && Builder(w.actors[j])))
    && (forall i :: 0 <= i < |w.actors| ==> PhaseOk(w, w.actors[i].phase))
  }

  predicate Initial(w: World)
  {
    && w.slot.Some? && Matches(w.slot.value) && w.log == [Some(w.slot.value.config)]
    && w.actors == [Actor(true, Start)]
  }

  /** Steps on the slot. */
  lemma SlotStepKeeps(w: World, step: Step)
    requires Inv(w) && Enabled(w, step) && (step.Take? || step.Store? || step.Shutdown? || step.Call?)
    ensures Inv(Next(w, step))
  {
    match step
    case Store(i) => assert Builder(w.actors[i]);
    case _ =>
  }

  /** Steps that leave the slot alone. */
  lemma PhaseStepKeeps(w: World, step: Step)
    requires Inv(w) && Enabled(w, step) && !(step.Take? || step.Store? || step.Shutdown? || step.Call?)
    ensures Inv(Next(w, step))
  {
    var was, now := w.actors[step.i], Next(w, step).actors[step.i];
    assert Builder(now) ==> Builder(was);
  }

  lemma StepKeeps(w: World, step: Step)
    requires Inv(w) && Enabled(w, step)
    ensures Inv(Next(w, step))
  {
    if step.Take? || step.Store? || step.Shutdown? || step.Call? {
      SlotStepKeeps(w, step);
    } else {
      PhaseStepKeeps(w, step);
    }
  }

  lemma {:induction false} RunKeeps(w: World, steps: seq<Step>)
    requires Inv(w) && Runnable(w, steps)
    ensures Inv(After(w, steps))
    decreases |steps|
  {
    if steps != [] {
      StepKeeps(w, steps[0]);
      RunKeeps(Next(w, steps[0]), steps[1..]);
    }
  }

  // ---- What it means ------------------------------------------------------------------------

  function Builders(actors: seq<Actor>): (n: nat)
  {
    if actors == [] then 0
    else Builders(actors[..|actors| - 1]) + if Builder(actors[|actors| - 1]) then 1 else 0
  }

  lemma {:induction false} CountBuilders(actors: seq<Actor>)
    requires forall i, j :: 0 <= i < j < |actors| ==> !(Builder(actors[i]) && Builder(actors[j]))
    ensures Builders(actors) <= 1
    ensures Builders(actors) == 1 <==> exists i :: 0 <= i < |actors| && Builder(actors[i])
  {
    if actors != [] {
      var head := actors[..|actors| - 1];
      CountBuilders(head);
      if Builders(head) == 1 {
        var i :| 0 <= i < |head| && Builder(head[i]);
        assert Builder(actors[i]);
      }
    }
  }

  /** Some instance is in the slot or in an actor's hands. */
  predicate Alive(w: World, x: Instance)
  {
    || (w.slot.Some? && w.slot.value.instance == x)
    || exists i :: 0 <= i < |w.actors| && Owns(w.actors[i], x)
  }

  predicate Owns(a: Actor, x: Instance)
  {
    || (a.phase.Holding? && a.phase.taken.instance == x)
    || (a.phase.Storing? && a.phase.result.Some? && a.phase.result.value.instance == x)
  }

  /** In every reachable state: the slot and the builders in flight are one at most, so are
      the instances alive, and the stored configuration is that of the stored instance. */
  lemma SlotProtocol(w: World, steps: seq<Step>, a: Instance, b: Instance)
    requires Initial(w) && Runnable(w, steps)
    ensures var v := After(w, steps);
            && (if v.slot.Some? then 1 else 0) + Builders(v.actors) <= 1
            && (v.slot.Some? ==> v.slot.value.config == v.slot.value.instance.builtFrom)
            && (Alive(v, a) && Alive(v, b) ==> a == b)
  {
    RunKeeps(w, steps);
    var v := After(w, steps);
    CountBuilders(v.actors);
    if Alive(v, a) && Alive(v, b) {
      OwnersAreBuilders(v, a);
      OwnersAreBuilders(v, b);
    }
  }

  lemma OwnersAreBuilders(w: World, x: Instance)
    requires Inv(w) && Alive(w, x)
    ensures w.slot.Some? ==> w.slot.value.instance == x
    ensures w.slot.None? ==> exists i :: 0 <= i < |w.actors| && Builder(w.actors[i]) && Owns(w.actors[i], x)
  {
  }

  /** A store finds the slot empty, and stores what was wanted, or, rolled back, what had been
      taken, or nothing. */
  lemma StoreIsSafe(w: World, steps: seq<Step>, i: nat)
    requires Initial(w) && Runnable(w, steps) && Enabled(After(w, steps), Store(i))
    ensures var v := After(w, steps); var p := v.actors[i].phase; var r := Next(v, Store(i)).slot;
            && v.slot.None? && (r.None? ==> p.rolledBack)
            && (r.Some? ==> Matches(r.value) && r.value.config == if p.rolledBack then p.former else p.wanted)
  {
    RunKeeps(w, steps);
    assert Builder(After(w, steps).actors[i]);
  }

  /** From taking an instance to storing the outcome the slot is empty, and the builder keeps
      the configuration it took and the one it wants. */
  predicate Remembers(w: World, i: nat, taken: Config, wanted: Config)
  {
    && i < |w.actors| && w.slot.None?
    && match w.actors[i].phase
       case Holding(t, x) => t.config == taken && x == wanted
       case Building(former, x) => former == taken && x == wanted
       case RollingBack(former, x) => former == taken && x == wanted
       case Storing(former, x, _, _) => former == taken && x == wanted
       case _ => false
  }

  predicate Ends(steps: seq<Step>, i: nat)
  {
    exists k :: 0 <= k < |steps| && steps[k] == Store(i)
  }

  lemma RememberStep(w: World, step: Step, i: nat, taken: Config, wanted: Config)
    requires Inv(w) && Enabled(w, step) && step != Store(i) && Remembers(w, i, taken, wanted)
    ensures Remembers(Next(w, step), i, taken, wanted)
  {
    assert Builder(w.actors[i]);
    assert forall j :: 0 <= j < |w.actors| && w.actors[j].phase.Storing? ==> Builder(w.actors[j]);
  }

  lemma {:induction false} RememberRun(w: World, steps: seq<Step>, i: nat, taken: Config, wanted: Config)
    requires Inv(w) && Runnable(w, steps) && Remembers(w, i, taken, wanted) && !Ends(steps, i)
    ensures Remembers(After(w, steps), i, taken, wanted)
    decreases |steps|
  {
    if steps != [] {
      assert steps[0] != Store(i);
      StepKeeps(w, steps[0]);
      RememberStep(w, steps[0], i, taken, wanted);
      forall k | 0 <= k < |steps| - 1 ensures steps[1..][k] != Store(i) {
        assert steps[1..][k] == steps[k + 1];
      }
      RememberRun(Next(w, steps[0]), steps[1..], i, taken, wanted);
    }
  }

  /** A rebuild from end to end.  However the program got to the take, and whatever all others
      do between the take and the store: the store puts an instance of the wanted
      configuration in the slot, or, if building that failed, one of the configuration that
      was running at the take, or, if that failed too, nothing. */
  lemma RollbackRestores(w: World, before: seq<Step>, i: nat, during: seq<Step>)
    requires Initial(w) && Runnable(w, before)
    requires Enabled(After(w, before), Take(i)) && After(w, before).slot.Some?
    requires Runnable(Next(After(w, before), Take(i)), during) && !Ends(during, i)
    requires Enabled(After(Next(After(w, before), Take(i)), during), Store(i))
    ensures var v := After(w, before); var u := After(Next(v, Take(i)), during); var end := Next(u, Store(i));
            var rolledBack := u.actors[i].phase.rolledBack;
            && u.slot.None? && (end.slot.None? ==> rolledBack)
            && (end.slot.Some? ==>
                  && Matches(end.slot.value)
                  && end.slot.value.config == if rolledBack then v.slot.value.config else v.actors[i].phase.wanted)
  {
    var v := After(w, before);
    RunKeeps(w, before);
    StepKeeps(v, Take(i));
    RememberRun(Next(v, Take(i)), during, i, v.slot.value.config, v.actors[i].phase.wanted);
    RunKeeps(Next(v, Take(i)), during);
  }

  // ---- Shutdown ---------------------------------------------------------------------------------

  /** A rebuild that may yet give an instance. */
  predicate Promising(a: Actor)
  {
    Builder(a) && !(a.phase.Storing? && a.phase.result.None?)
  }

  predicate Vacant(w: World)
  {
    w.slot.None? && forall i :: 0 <= i < |w.actors| ==> !Promising(w.actors[i])
  }

  lemma {:induction false} VacantStays(w: World, steps: seq<Step>)
    requires Vacant(w) && Runnable(w, steps)
    ensures Vacant(After(w, steps))
    decreases |steps|
  {
    if steps != [] {
      VacantStays(Next(w, steps[0]), steps[1..]);
    }
  }

  ghost predicate CanRefill(w: World)
  {
    exists steps :: Runnable(w, steps) && After(w, steps).slot.Some?
  }

  /** What a builder has left to do, if everything works. */
  function Finish(i: nat, p: Phase): (steps: seq<Step>)
  {
    match p
    case Holding(_, _) => [DropOld(i), Build(i, true), Store(i)]
    case Building(_, _) => [Build(i, true), Store(i)]
    case RollingBack(_, _) => [RollBack(i, true), Store(i)]
    case _ => [Store(i)]
  }

  lemma FinishRefills(w: World, i: nat)
    requires i < |w.actors| && Promising(w.actors[i])
    ensures Runnable(w, Finish(i, w.actors[i].phase)) && After(w, Finish(i, w.actors[i].phase)).slot.Some?
  {
    match w.actors[i].phase
    case Storing(_, _, _, _) => StoreRuns(w, i);
    case RollingBack(_, _) =>
      assert Finish(i, w.actors[i].phase)[1..] == [Store(i)];
      StoreRuns(Next(w, RollBack(i, true)), i);
    case Building(_, _) => BuildRuns(w, i);
    case Holding(_, _) =>
      assert Finish(i, w.actors[i].phase)[1..] == [Build(i, true), Store(i)];
      BuildRuns(Next(w, DropOld(i)), i);
  }

  lemma StoreRuns(w: World, i: nat)
    requires i < |w.actors| && w.actors[i].phase.Storing? && w.actors[i].phase.result.Some?
    ensures Runnable(w, [Store(i)]) && After(w, [Store(i)]).slot.Some?
  {
    assert [Store(i)][1..] == [];
  }

  lemma BuildRuns(w: World, i: nat)
    requires i < |w.actors| && w.actors[i].phase.Building?
    ensures Runnable(w, [Build(i, true), Store(i)]) && After(w, [Build(i, true), Store(i)]).slot.Some?
  {
    assert [Build(i, true), Store(i)][1..] == [Store(i)];
    StoreRuns(Next(w, Build(i, true)), i);
  }

  /** After shutdown the slot can fill again exactly if a rebuild was under way that had not
      already failed. */
  lemma ShutdownIsFinalExactly(w: World)
    requires Inv(w)
    ensures CanRefill(Next(w, Shutdown))
            <==> exists i :: 0 <= i < |w.actors| && Promising(w.actors[i])
  {
    var v := Next(w, Shutdown);
    if i :| 0 <= i < |w.actors| && Promising(w.actors[i]) {
      FinishRefills(v, i);
    } else {
      assert Vacant(v);
      if CanRefill(v) {
        var steps :| Runnable(v, steps) && After(v, steps).slot.Some?;
        VacantStays(v, steps);
      }
    }
  }

  // ---- Updates on top of each other ---------------------------------------------------------------

  /** A change computed from a configuration is applied to that configuration if and only if
      nothing was stored since it was read, or the last store brought that configuration
      back. */
  lemma AppliedToItsBaseExactly(w: World, steps: seq<Step>, i: nat)
    requires Initial(w) && Runnable(w, steps)
    requires Enabled(After(w, steps), Take(i)) && After(w, steps).slot.Some?
    ensures After(w, steps).log != []
    ensures var v := After(w, steps); var p := v.actors[i].phase;
            Next(v, Take(i)).actors[i].phase.taken.config == p.base
            <==> |v.log| == p.seen || v.log[|v.log| - 1] == Some(p.base)
  {
    RunKeeps(w, steps);
  }

  /** Both calls have read configuration 0, and want 1 and 2. */
  const BOTH_READ: World :=
    World(Some(Running(0, Instance(0, 0))),
          [Actor(true, Start), Actor(false, Wanting(0, 1, 1)), Actor(false, Wanting(0, 1, 2))], 1, [Some(0)])

  const ONE_STORED: World :=
    World(Some(Running(1, Instance(1, 1))),
          [Actor(true, Start), Actor(false, Gone), Actor(false, Wanting(0, 1, 2))], 2, [Some(0), Some(1)])

  /** Otherwise it is lost: two calls read configuration 0, one stores 1, and the other,
      computed from 0, then stores 2. */
  lemma UpdateIsLost(w: World)
    requires w == World(Some(Running(0, Instance(0, 0))), [Actor(true, Start)], 1, [Some(0)])
    ensures Initial(w)
    ensures var steps := [Call, Call, Read(1, 1), Read(2, 2)] + Rebuild(1, true, true) + Rebuild(2, true, true);
            && Runnable(w, steps)
            && After(w, steps).slot == Some(Running(2, Instance(2, 2)))
            && After(w, steps).log == [Some(0), Some(1), Some(2)]
  {
    var opening := [Call, Call, Read(1, 1), Read(2, 2)];
    Opening(w, BOTH_READ);
    RebuildRuns(BOTH_READ, 1, true, true);
    assert [Some(0)] + [Some(1)] == [Some(0), Some(1)];
    assert After(BOTH_READ, Rebuild(1, true, true)) == ONE_STORED;
    RunsJoin(w, opening, Rebuild(1, true, true));
    RebuildRuns(ONE_STORED, 2, true, true);
    assert [Some(0), Some(1)] + [Some(2)] == [Some(0), Some(1), Some(2)];
    RunsJoin(w, opening + Rebuild(1, true, true), Rebuild(2, true, true));
  }

  lemma Opening(w: World, w1: World)
    requires w == World(Some(Running(0, Instance(0, 0))), [Actor(true, Start)], 1, [Some(0)]) && w1 == BOTH_READ
    ensures Runnable(w, [Call, Call, Read(1, 1), Read(2, 2)]) && After(w, [Call, Call, Read(1, 1), Read(2, 2)]) == w1
  {
    var steps := [Call, Call, Read(1, 1), Read(2, 2)];
    assert steps[1..] == [Call, Read(1, 1), Read(2, 2)];
    assert steps[1..][1..] == [Read(1, 1), Read(2, 2)];
    assert [Read(1, 1), Read(2, 2)][1..] == [Read(2, 2)];
    assert [Read(2, 2)][1..] == [];
  }

  // ---- A rebuild nobody interrupts --------------------------------------------------------------

  /** The steps of a rebuild: the new instance is built, or the old one again, or neither. */
  function Rebuild(i: nat, builds: bool, rollsBack: bool): (steps: seq<Step>)
  {
    [Take(i), DropOld(i), Build(i, builds)] + Ending(i, builds, rollsBack)
  }

  function Ending(i: nat, builds: bool, rollsBack: bool): (steps: seq<Step>)
  {
    if builds then [Store(i)] else [RollBack(i, rollsBack), Store(i)]
  }

  /** What they store. */
  function Rebuilt(w: World, i: nat, builds: bool, rollsBack: bool): (slot: Option<Running>)
    requires i < |w.actors| && w.actors[i].phase.Wanting? && w.slot.Some?
  {
    var c := if builds then w.actors[i].phase.wanted else w.slot.value.config;
    if builds || rollsBack then Some(Running(c, Instance(w.nextId, c))) else None
  }

  lemma RebuildRuns(w: World, i: nat, builds: bool, rollsBack: bool)
    requires i < |w.actors| && w.actors[i].phase.Wanting? && w.slot.Some?
    ensures Runnable(w, Rebuild(i, builds, rollsBack))
    ensures var r := Rebuilt(w, i, builds, rollsBack); var loops := w.actors[i].loops;
            After(w, Rebuild(i, builds, rollsBack))
            == World(r, w.actors[i := Actor(loops, if loops then Start else Gone)],
                     if r.Some? then w.nextId + 1 else w.nextId,
                     w.log + [if r.Some? then Some(r.value.config) else None])
  {
    var a := Next(w, Take(i));
    var b := Next(a, DropOld(i));
    var c := Next(b, Build(i, builds));
    var last := Ending(i, builds, rollsBack);
    EndingRuns(c, i, builds, rollsBack);
    StepFirst(b, Build(i, builds), last);
    StepFirst(a, DropOld(i), [Build(i, builds)] + last);
    StepFirst(w, Take(i), [DropOld(i)] + ([Build(i, builds)] + last));
    assert Rebuild(i, builds, rollsBack) == [Take(i)] + ([DropOld(i)] + ([Build(i, builds)] + last));
    var end := After(c, last);
    var loops := w.actors[i].loops;
    assert end.actors == w.actors[i := Actor(loops, if loops then Start else Gone)];
  }

  lemma EndingRuns(w: World, i: nat, builds: bool, rollsBack: bool)
    requires i < |w.actors| && (if builds then w.actors[i].phase.Storing? else w.actors[i].phase.RollingBack?)
    ensures Runnable(w, Ending(i, builds, rollsBack))
    ensures After(w, Ending(i, builds, rollsBack))
            == Next(if builds then w else Next(w, RollBack(i, rollsBack)), Store(i))
  {
    var v := if builds then w else Next(w, RollBack(i, rollsBack));
    assert [Store(i)][1..] == [];
    assert Runnable(v, [Store(i)]) && After(v, [Store(i)]) == Next(v, Store(i));
    if !builds {
      StepFirst(w, RollBack(i, rollsBack), [Store(i)]);
      assert [RollBack(i, rollsBack)] + [Store(i)] == Ending(i, builds, rollsBack);
    }
  }

  lemma StepFirst(w: World, step: Step, rest: seq<Step>)
    requires Enabled(w, step) && Runnable(Next(w, step), rest)
    ensures Runnable(w, [step] + rest) && After(w, [step] + rest) == After(Next(w, step), rest)
  {
    assert ([step] + rest)[1..] == rest;
  }

  lemma {:induction false} RunsJoin(w: World, a: seq<Step>, b: seq<Step>)
    requires Runnable(w, a) && Runnable(After(w, a), b)
    ensures Runnable(w, a + b) && After(w, a + b) == After(After(w, a), b)
    decreases |a|
  {
    if a == [] {
      assert a + b == b;
    } else {
      assert (a + b)[1..] == a[1..] + b;
      RunsJoin(Next(w, a[0]), a[1..], b);
    }
  }

  /** The reload task reads again after a rebuild, however that went, or after giving a change
      up; a call does neither, and once gone nobody acts again. */
  lemma ReadsAgainExactly(w: World, step: Step, i: nat, c: Config)
    requires i < |w.actors| && Enabled(w, step) && (step == Store(i) || step == GiveUp(i))
    ensures Enabled(Next(w, step), Read(i, c)) <==> w.actors[i].loops
  {
  }

  lemma {:induction false} GoneStays(w: World, steps: seq<Step>, i: nat)
    requires i < |w.actors| && w.actors[i].phase.Gone? && Runnable(w, steps)
    ensures i < |After(w, steps).actors| && After(w, steps).actors[i] == w.actors[i]
    ensures forall k :: 0 <= k < |steps| ==> steps[k].Call? || steps[k].Shutdown? || steps[k].i != i
    decreases |steps|
  {
    if steps != [] {
      GoneStays(Next(w, steps[0]), steps[1..], i);
      assert forall k :: 1 <= k < |steps| ==> steps[k] == steps[1..][k - 1];
    }
  }

  class RuntimeControl {
    var slot: Option<Running>
    var nextId: nat

    constructor (config: Config)
      ensures slot == Some(Running(config, Instance(0, config))) && nextId == 1
    {
      slot, nextId := Some(Running(config, Instance(0, config))), 1;
    }

    /** The call as it runs when nobody interrupts: it is the steps of the machine, for the
        actor `i` that makes it in any world with this slot.  An invalid configuration or an
        empty slot changes nothing. */
    method RebuildWithConfig(wanted: Config, valid: bool, builds: bool, rollsBack: bool, ghost w: World, ghost i: nat)
      returns (ok: bool)
      requires w.slot == slot && w.nextId == nextId
      requires i < |w.actors| && w.actors[i].phase.Wanting? && w.actors[i].phase.wanted == wanted
      modifies this
      ensures ok <==> valid && old(slot).Some? && builds
      ensures !valid || old(slot).None? ==> slot == old(slot) && nextId == old(nextId)
      ensures valid && old(slot).Some? ==>
                && Runnable(w, Rebuild(i, builds, rollsBack))
                && slot == After(w, Rebuild(i, builds, rollsBack)).slot
                && nextId == After(w, Rebuild(i, builds, rollsBack)).nextId
    {
      if !valid || slot.None? {
        return false;
      }
      RebuildRuns(w, i, builds, rollsBack);
      var former := slot.value.config;
      slot := None;
      if builds {
        slot := Some(Running(wanted, Instance(nextId, wanted)));
        nextId := nextId + 1;
      } else if rollsBack {
        slot := Some(Running(former, Instance(nextId, former)));
        nextId := nextId + 1;
      }
      ok := builds;
    }
  }
}
