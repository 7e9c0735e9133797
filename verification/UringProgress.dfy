/** What the io_uring relay can do: any two byte streams, in any chunks a pipe takes, can be
    relayed whole, with exact counts, both destinations half-closed, and success returned. */
module UringProgress {
  import opened Bytes
  import opened Options
  import opened UringRelay

  function Other(side: Side): (r: Side)
  {
    if side.AB? then BA else AB
  }

  /** A direction that has delivered `x` and waits for more, or has come to its end. */
  function Waiting(x: seq<byte>): (d: Dir)
  {
    Dir(Half(0, false, 1, |x|, false), Submitted(In), x, [], x, false, false)
  }

  function Over(x: seq<byte>): (d: Dir)
  {
    Dir(Half(0, true, 0, |x|, false), Idle, x, [], x, false, true)
  }

  /** With `bytes` in the pipe, on their way out. */
  function Holding(x: seq<byte>, bytes: seq<byte>): (d: Dir)
  {
    Dir(Half(|bytes|, false, 1, |x|, false), Submitted(Out(|bytes|, false)), x + bytes, bytes, x, false, false)
  }

  /** Between two rounds, nothing posted: one direction is `d` and the other `o`, as soon as what
      they have queued is submitted. */
  predicate Between(s: Relay, side: Side, d: Dir, o: Dir)
  {
    && s.phase.Checking? && s.cq == [] && s.batch == [] && s.efd == 0 && s.signalsDue == 0 && s.sq <= 4
    && SubmitDir(Get(s, side)) == d && SubmitDir(Get(s, Other(side))) == o
  }

  /** Parked, woken up by one completion, collected. */
  function Collected(s: Relay, side: Side, d: Dir, o: Dir, res: int, bytes: seq<byte>): (r: Relay)
    requires KernelMay(d, res, bytes)
  {
    Set(Set(s, side, Moved(d, res, bytes)), Other(side), o)
    .(sq := 0, batch := [Splice(side, d.flight.op, res)], phase := Handling)
  }

  lemma Woken(steps: seq<Step>, s: Relay, side: Side, d: Dir, o: Dir, res: int, bytes: seq<byte>)
    returns (more: seq<Step>)
    requires Runnable(Start(), steps) && After(Start(), steps) == s
    requires Between(s, side, d, o) && KernelMay(d, res, bytes)
    ensures Runnable(Start(), more) && After(Start(), more) == Collected(s, side, d, o, res, bytes)
  {
    RunSnoc(Start(), steps, CheckQueue);
    more := steps + [CheckQueue];
    RunSnoc(Start(), more, UringRelay.Finish(side, res, bytes));
    more := more + [UringRelay.Finish(side, res, bytes)];
    RunSnoc(Start(), more, Signal);
    more := more + [Signal];
    RunSnoc(Start(), more, ReadEventfd);
    more := more + [ReadEventfd];
    RunSnoc(Start(), more, Collect);
    more := more + [Collect];
  }

  /** One round: the completion is handled, and the batch finished. */
  lemma Round(steps: seq<Step>, s: Relay, side: Side, d: Dir, o: Dir, res: int, bytes: seq<byte>)
    returns (more: seq<Step>)
    requires Runnable(Start(), steps) && After(Start(), steps) == s
    requires Between(s, side, d, o) && KernelMay(d, res, bytes)
    requires Handle(Collected(s, side, d, o, res, bytes)).phase.Handling?
    ensures Runnable(Start(), more)
    ensures After(Start(), more) == EndOfBatch(Handle(Collected(s, side, d, o, res, bytes)))
  {
    more := Woken(steps, s, side, d, o, res, bytes);
    var c := Collected(s, side, d, o, res, bytes);
    RunSnoc(Start(), more, HandleOne);
    more := more + [HandleOne];
    assert Handle(c).batch == [];
    RunSnoc(Start(), more, FinishBatch);
    more := more + [FinishBatch];
  }

  predicate Settled(o: Dir)
  {
    !o.flight.Queued? && !o.half.closeDue
  }

  /** A chunk comes in, and goes out again. */
  lemma InRound(s: Relay, side: Side, x: seq<byte>, o: Dir, bytes: seq<byte>)
    requires Between(s, side, Waiting(x), o) && Settled(o) && 0 < |bytes| <= PIPE_CAPACITY
    ensures KernelMay(Waiting(x), |bytes|, bytes)
    ensures var h := Handle(Collected(s, side, Waiting(x), o, |bytes|, bytes));
            h.phase.Handling? && Between(EndOfBatch(h), side, Holding(x, bytes), o)
  {
    assert [] + bytes == bytes;
  }

  lemma OutRound(s: Relay, side: Side, x: seq<byte>, o: Dir, bytes: seq<byte>)
    requires Between(s, side, Holding(x, bytes), o) && Settled(o) && bytes != []
    ensures KernelMay(Holding(x, bytes), |bytes|, bytes)
    ensures var h := Handle(Collected(s, side, Holding(x, bytes), o, |bytes|, bytes));
            h.phase.Handling? && Between(EndOfBatch(h), side, Waiting(x + bytes), o)
  {
    assert bytes[|bytes|..] == [];
  }

  lemma EndRound(s: Relay, side: Side, x: seq<byte>, o: Dir)
    requires Between(s, side, Waiting(x), o) && Settled(o)
    ensures KernelMay(Waiting(x), 0, [])
    ensures var h := Handle(Collected(s, side, Waiting(x), o, 0, [])); var e := EndOfBatch(h);
            && h.phase.Handling?
            && (!o.half.eof ==> Between(e, side, Over(x), o))
            && (o.half.eof && o.half.pending == 0 ==>
                  e.phase == Ended(true) && Get(e, side) == Over(x) && Get(e, Other(side)) == o)
  {
    assert x + [] == x;
  }

  predicate Chunked(chunks: seq<seq<byte>>)
  {
    forall i :: 0 <= i < |chunks| ==> 0 < |chunks[i]| <= 262144
  }

  lemma {:induction false} Chunks(steps: seq<Step>, s: Relay, side: Side, x: seq<byte>, o: Dir, chunks: seq<seq<byte>>)
    returns (more: seq<Step>)
    requires Runnable(Start(), steps) && After(Start(), steps) == s
    requires Between(s, side, Waiting(x), o) && Settled(o) && Chunked(chunks)
    ensures Runnable(Start(), more) && Between(After(Start(), more), side, Waiting(x + Flatten(chunks)), o)
    decreases |chunks|
  {
    if chunks == [] {
      more := steps;
      assert x + [] == x;
    } else {
      var bytes := chunks[0];
      InRound(s, side, x, o, bytes);
      more := Round(steps, s, side, Waiting(x), o, |bytes|, bytes);
      var s1 := After(Start(), more);
      OutRound(s1, side, x, o, bytes);
      more := Round(more, s1, side, Holding(x, bytes), o, |bytes|, bytes);
      more := Chunks(more, After(Start(), more), side, x + bytes, o, chunks[1..]);
      Associative(x, bytes, Flatten(chunks[1..]));
    }
  }

  lemma Direction(steps: seq<Step>, s: Relay, side: Side, o: Dir, chunks: seq<seq<byte>>) returns (more: seq<Step>)
    requires Runnable(Start(), steps) && After(Start(), steps) == s
    requires Between(s, side, Waiting([]), o) && Settled(o) && Chunked(chunks)
    ensures Runnable(Start(), more)
    ensures var e := After(Start(), more); var x := Flatten(chunks);
            && (!o.half.eof ==> Between(e, side, Over(x), o))
            && (o.half.eof && o.half.pending == 0 ==>
                  e.phase == Ended(true) && Get(e, side) == Over(x) && Get(e, Other(side)) == o)
  {
    more := Chunks(steps, s, side, [], o, chunks);
    var x, s1 := Flatten(chunks), After(Start(), more);
    assert [] + x == x;
    EndRound(s1, side, x, o);
    more := Round(more, s1, side, Waiting(x), o, 0, []);
  }

  /** For any two streams there is a run that delivers both whole, counts them, half-closes both
      sides and returns success. */
  lemma AnyStreamsAreRelayed(ups: seq<seq<byte>>, downs: seq<seq<byte>>) returns (steps: seq<Step>)
    requires Chunked(ups) && Chunked(downs)
    ensures Runnable(Start(), steps)
    ensures var s := After(Start(), steps);
            && s.phase == Ended(true) && s.ab.closed && s.ba.closed
            && s.ab.delivered == s.ab.consumed == Flatten(ups) && s.ab.half.total == |Flatten(ups)|
            && s.ba.delivered == s.ba.consumed == Flatten(downs) && s.ba.half.total == |Flatten(downs)|
  {
    steps := Direction([], Start(), AB, Waiting([]), ups);
    var s := After(Start(), steps);
    assert Between(s, BA, Waiting([]), Over(Flatten(ups)));
    steps := Direction(steps, s, BA, Over(Flatten(ups)), downs);
  }
}
