/** The counters of the io_uring relay as the program keeps them, both directions written
    out, and the loop over a batch of completions that updates them in place. */
module UringState {
  import opened Options
  import opened UringRelay

  /** Both halves after a batch, the operations pushed, and whether an error ended it. */
  datatype Outcome = Outcome(ab: Half, ba: Half, pushes: seq<(Side, Op)>, failed: bool)

  function React(o: Outcome, c: Cqe): (r: Outcome)
  {
    if o.failed || c.PollFailed? then o
    else
      var reaction := On(if c.side.AB? then o.ab else o.ba, c.op, c.res);
      var o1 := if c.side.AB? then o.(ab := reaction.half) else o.(ba := reaction.half);
      o1.(pushes := o.pushes + (if reaction.push.Some? then [(c.side, reaction.push.value)] else []),
          failed := reaction.failed)
  }

  /** A batch handled front to back. */
  function ReactAll(o: Outcome, batch: seq<Cqe>): (r: Outcome)
    decreases |batch|
  {
    if batch == [] then o else ReactAll(React(o, batch[0]), batch[1..])
  }

  class State {
    var abInPipe: nat
    var baInPipe: nat
    var abEof: bool
    var baEof: bool
    var abPending: int
    var baPending: int
    var totalAb: nat
    var totalBa: nat
    /** Half-closes the batch asked for. */
    var shutdownA: bool
    var shutdownB: bool

    function Ab(): (h: Half)
      reads this
    {
      Half(abInPipe, abEof, abPending, totalAb, shutdownB)
    }

    function Ba(): (h: Half)
      reads this
    {
      Half(baInPipe, baEof, baPending, totalBa, shutdownA)
    }

    constructor ()
      ensures Ab() == Half(0, false, 0, 0, false) && Ba() == Half(0, false, 0, 0, false)
    {
      abInPipe, baInPipe, abEof, baEof, abPending, baPending := 0, 0, false, false, 0, 0;
      totalAb, totalBa, shutdownA, shutdownB := 0, 0, false, false;
    }

    /** One completion: the direction it belongs to reacts, the other is untouched. */
    method OnCompletion(c: Cqe) returns (push: Option<Op>, failed: bool)
      modifies this
      ensures Outcome(Ab(), Ba(), if push.Some? && c.Splice? then [(c.side, push.value)] else [], failed)
           == React(Outcome(old(Ab()), old(Ba()), [], false), c)
      ensures c.PollFailed? ==> push.None?
    {
      push, failed := None, false;
      if c.PollFailed? {
        return;
      }
      var n := c.res;
      if c.side.AB? && c.op.In? {
        abPending := abPending - 1;
        if n == 0 || n == -ECANCELED {
          abEof := true;
          shutdownB := true;
        } else if n < 0 {
          failed := true;
        } else {
          abInPipe := abInPipe + n;
          push := Some(Out(abInPipe, false));
          abPending := abPending + 1;
        }
      } else if c.side.AB? {
        abPending := abPending - 1;
        if n == -EAGAIN {
          push := Some(Out(abInPipe, true));
          abPending := abPending + 1;
        } else if n > 0 {
          abInPipe := abInPipe - (if n <= abInPipe then n else abInPipe);
          totalAb := totalAb + n;
          if abInPipe > 0 {
            push := Some(Out(abInPipe, false));
            abPending := abPending + 1;
          } else if !abEof {
            push := Some(In);
            abPending := abPending + 1;
          }
        } else {
          abEof := true;
        }
      } else if c.op.In? {
        baPending := baPending - 1;
        if n == 0 || n == -ECANCELED {
          baEof := true;
          shutdownA := true;
        } else if n < 0 {
          failed := true;
        } else {
          baInPipe := baInPipe + n;
          push := Some(Out(baInPipe, false));
          baPending := baPending + 1;
        }
      } else {
        baPending := baPending - 1;
        if n == -EAGAIN {
          push := Some(Out(baInPipe, true));
          baPending := baPending + 1;
        } else if n > 0 {
          baInPipe := baInPipe - (if n <= baInPipe then n else baInPipe);
          totalBa := totalBa + n;
          if baInPipe > 0 {
            push := Some(Out(baInPipe, false));
            baPending := baPending + 1;
          } else if !baEof {
            push := Some(In);
            baPending := baPending + 1;
          }
        } else {
          baEof := true;
        }
      }
    }

    /** The loop over a collected batch; an error leaves the rest unhandled. */
    method OnBatch(batch: seq<Cqe>) returns (pushes: seq<(Side, Op)>, failed: bool)
      modifies this
      ensures Outcome(Ab(), Ba(), pushes, failed) == ReactAll(Outcome(old(Ab()), old(Ba()), [], false), batch)
    {
      pushes, failed := [], false;
      ghost var start := Outcome(Ab(), Ba(), [], false);
      for i := 0 to |batch|
        invariant !failed
        invariant ReactAll(Outcome(Ab(), Ba(), pushes, failed), batch[i..]) == ReactAll(start, batch)
      {
        ghost var before := Outcome(Ab(), Ba(), pushes, false);
        var push;
        push, failed := OnCompletion(batch[i]);
        pushes := pushes + if push.Some? then [(batch[i].side, push.value)] else [];
        assert batch[i..][0] == batch[i] && batch[i..][1..] == batch[i + 1..];
        assert React(before, batch[i]) == Outcome(Ab(), Ba(), pushes, failed);
        if failed {
          FailureIsFinal(Outcome(Ab(), Ba(), pushes, true), batch[i + 1..]);
          return;
        }
      }
    }
  }

  lemma {:induction false} FailureIsFinal(o: Outcome, batch: seq<Cqe>)
    requires o.failed
    ensures ReactAll(o, batch) == o
    decreases |batch|
  {
    if batch != [] {
      FailureIsFinal(o, batch[1..]);
    }
  }

  // ---- The loop is the state machine's handling steps ------------------------------------

  function HandleAll(s: Relay): (r: Relay)
    decreases |s.batch|
  {
    if s.batch == [] || s.phase.Ended? then s else HandleAll(Handle(s))
  }

  /** From any reachable state, handling a whole batch step by step leaves the counters the
      loop computes, and fails exactly when the loop does. */
  lemma {:induction false} BatchIsSteps(s: Relay, pushes: seq<(Side, Op)>)
    requires Inv(s) && s.phase.Handling?
    ensures var o := ReactAll(Outcome(s.ab.half, s.ba.half, pushes, false), s.batch);
            var s' := HandleAll(s);
            && Inv(s') && s'.ab.half == o.ab && s'.ba.half == o.ba
            && (o.failed <==> s'.phase == Ended(false)) && (!o.failed ==> s'.batch == [])
    decreases |s.batch|
  {
    if s.batch != [] {
      HandleKeeps(s);
      var o := Outcome(s.ab.half, s.ba.half, pushes, false);
      var o1 := React(o, s.batch[0]);
      HandleIsReact(s, pushes);
      if o1.failed {
        FailureIsFinal(o1, s.batch[1..]);
      } else {
        BatchIsSteps(Handle(s), o1.pushes);
      }
    }
  }

  lemma HandleIsReact(s: Relay, pushes: seq<(Side, Op)>)
    requires Inv(s) && s.phase.Handling? && s.batch != []
    ensures var o := React(Outcome(s.ab.half, s.ba.half, pushes, false), s.batch[0]);
            var s' := Handle(s);
            && s'.ab.half == o.ab && s'.ba.half == o.ba && s'.batch == s.batch[1..]
            && s'.phase == if o.failed then Ended(false) else Handling
  {
    if s.batch[0].Splice? {
      HeadExpected(s);
      QueueRoom(s, s.batch[0].side);
    }
  }
}
