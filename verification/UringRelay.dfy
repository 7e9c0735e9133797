/** The io_uring splice relay: two directions, each with a kernel pipe, driven by
    completions that may arrive in any order.  The program's counters, the ring, the
    eventfd and the bytes are one state; program and kernel take turns stepping it. */
module UringRelay {
  import opened Bytes
  import opened Options

  const PIPE_CAPACITY: nat := 256 * 1024
  const RING_ENTRIES: nat := 32
  const BATCH_SLOTS: nat := 16
  const EAGAIN: int := 11
  const ECANCELED: int := 125

  /** `AB` moves bytes from socket a to socket b, `BA` the other way. */
  datatype Side = AB | BA

  /** A splice: from the socket into the pipe, or `len` bytes out of the pipe, perhaps
      behind a poll for room in the send buffer. */
  datatype Op = In | Out(len: nat, guarded: bool)

  /** Submission entries an operation takes: a guarding poll is an entry of its own. */
  function Entries(op: Op): (n: nat)
  {
    if op.In? || op.guarded then 2 else 1
  }

  predicate Polls(op: Op)
  {
    op.In? || op.guarded
  }

  // ---- The program's side of one direction -------------------------------------

  datatype Half = Half(inPipe: nat, eof: bool, pending: int, total: nat, closeDue: bool)

  /** What handling one completion amounts to. */
  datatype Reaction = Reaction(half: Half, push: Option<Op>, failed: bool)

  /** The completion of a splice into the pipe. */
  function OnIn(h: Half, res: int): (r: Reaction)
  {
    var h1 := h.(pending := h.pending - 1);
    if res == 0 || res == -ECANCELED then Reaction(h1.(eof := true, closeDue := true), None, false)
    else if res < 0 then Reaction(h1, None, true)
    else
      var h2 := h1.(inPipe := h1.inPipe + res, pending := h1.pending + 1);
      Reaction(h2, Some(Out(h2.inPipe, false)), false)
  }

  /** The completion of a splice out of the pipe. */
  function OnOut(h: Half, res: int): (r: Reaction)
  {
    var h1 := h.(pending := h.pending - 1);
    if res == -EAGAIN then
      Reaction(h1.(pending := h1.pending + 1), Some(Out(h1.inPipe, true)), false)
    else if res > 0 then
      var left := if res <= h1.inPipe then h1.inPipe - res else 0;
      var h2 := h1.(inPipe := left, total := h1.total + res);
      if left > 0 then Reaction(h2.(pending := h2.pending + 1), Some(Out(left, false)), false)
      else if !h2.eof then Reaction(h2.(pending := h2.pending + 1), Some(In), false)
      else Reaction(h2, None, false)
    else Reaction(h1.(eof := true), None, false)
  }

  function On(h: Half, op: Op, res: int): (r: Reaction)
  {
    if op.In? then OnIn(h, res) else OnOut(h, res)
  }

  // ---- The kernel's side -----------------------------------------------------------

  /** Where a direction's operation is: nowhere, queued by the program, submitted, its
      poll failed and the splice about to be cancelled, or done with its completion
      not yet handled. */
  datatype Flight =
    | Idle
    | Queued(op: Op)
    | Submitted(op: Op)
    | Cancelling(op: Op)
    | Completed(op: Op, res: int)

  /** One direction: counters, operation, and the bytes taken from the source, held in
      the pipe, and given to the destination. */
  datatype Dir = Dir(half: Half, flight: Flight, consumed: seq<byte>, pipe: seq<byte>, delivered: seq<byte>,
                     pollLost: bool, closed: bool)

  /** An entry of the completion queue: a failed poll, or a splice's result. */
  datatype Cqe = PollFailed | Splice(side: Side, op: Op, res: int)

  datatype Phase = Checking | Parked | Collecting | Handling | Ended(ok: bool)

  datatype Relay = Relay(ab: Dir, ba: Dir, cq: seq<Cqe>, batch: seq<Cqe>, sq: nat,
                         efd: nat, signalsDue: nat, draining: bool, phase: Phase)

  function Get(s: Relay, side: Side): (d: Dir)
  {
    if side.AB? then s.ab else s.ba
  }

  function Set(s: Relay, side: Side, d: Dir): (r: Relay)
  {
    if side.AB? then s.(ab := d) else s.(ba := d)
  }

  function Fresh(): (d: Dir)
  {
    Dir(Half(0, false, 1, 0, false), Queued(In), [], [], [], false, false)
  }

  /** Both directions start with a queued splice in. */
  function Start(): (s: Relay)
  {
    Relay(Fresh(), Fresh(), [], [], 4, 0, 0, false, Checking)
  }

  function SubmitDir(d: Dir): (r: Dir)
  {
    if d.flight.Queued? then d.(flight := Submitted(d.flight.op)) else d
  }

  function Submit(s: Relay): (r: Relay)
  {
    s.(ab := SubmitDir(s.ab), ba := SubmitDir(s.ba), sq := 0)
  }

  /** Steps of the program and of the kernel, in any interleaving. */
  datatype Step =
    | CheckQueue | ReadEventfd | DrainExpired | WaitFails | Collect | HandleOne | FinishBatch | SubmitFails
    | PollFails(side: Side) | Cancel(side: Side) | Finish(side: Side, res: int, bytes: seq<byte>) | Signal

  /** What the kernel may report for a submitted operation and the bytes it then moves. */
  predicate KernelMay(d: Dir, res: int, bytes: seq<byte>)
  {
    && d.flight.Submitted?
    && (res <= 0 ==> bytes == [])
    && (res > 0 ==> |bytes| == res)
    && (res > 0 && d.flight.op.In? ==> res <= PIPE_CAPACITY)
    && (res > 0 && d.flight.op.Out? ==> res <= d.flight.op.len && bytes <= d.pipe)
  }

  predicate Enabled(s: Relay, step: Step)
  {
    match step
    case CheckQueue => s.phase.Checking?
    case ReadEventfd => s.phase.Parked? && s.efd > 0
    case DrainExpired => (s.phase.Checking? || s.phase.Parked?) && s.draining
    case WaitFails => s.phase.Checking? || s.phase.Parked?
    case Collect => s.phase.Collecting?
    case HandleOne => s.phase.Handling? && s.batch != []
    case FinishBatch => s.phase.Handling? && s.batch == []
    case SubmitFails => s.phase.Handling? && s.batch == [] && !IsDone(Closed(s))
    case PollFails(side) => Get(s, side).flight.Submitted? && Polls(Get(s, side).flight.op)
    case Cancel(side) => Get(s, side).flight.Cancelling?
    case Finish(side, res, bytes) => KernelMay(Get(s, side), res, bytes)
    case Signal => s.signalsDue > 0
  }

  function Post(s: Relay, cqe: Cqe): (r: Relay)
  {
    s.(cq := s.cq + [cqe], signalsDue := s.signalsDue + 1)
  }

  /** The program takes the head of the batch; a push that finds the submission queue
      full ends the relay with an error, as does an error completion. */
  function Handle(s: Relay): (r: Relay)
    requires s.batch != []
  {
    var s1 := s.(batch := s.batch[1..]);
    match s.batch[0]
    case PollFailed => s1
    case Splice(side, op, res) =>
      var d := Get(s1, side);
      var reaction := On(d.half, op, res);
      if reaction.failed then Set(s1, side, d.(half := reaction.half, flight := Idle)).(phase := Ended(false))
      else
        match reaction.push
        case None => Set(s1, side, d.(half := reaction.half, flight := Idle))
        case Some(next) =>
          if s1.sq + Entries(next) > RING_ENTRIES then s1.(phase := Ended(false))
          else Set(s1, side, d.(half := reaction.half, flight := Queued(next))).(sq := s1.sq + Entries(next))
  }

  function CloseDir(d: Dir): (r: Dir)
  {
    if d.half.closeDue then d.(closed := true, half := d.half.(closeDue := false)) else d
  }

  predicate IsDone(s: Relay)
  {
    s.ab.half.eof && s.ba.half.eof && s.ab.half.pending == 0 && s.ba.half.pending == 0
  }

  /** The half-closes that are due. */
  function Closed(s: Relay): (r: Relay)
  {
    s.(ab := CloseDir(s.ab), ba := CloseDir(s.ba))
  }

  function EndOfBatch(s: Relay): (r: Relay)
  {
    var s1 := Closed(s);
    if IsDone(s1) then s1.(phase := Ended(true))
    else Submit(s1.(draining := s1.draining || s1.ab.half.eof || s1.ba.half.eof, phase := Checking))
  }

  function Moved(d: Dir, res: int, bytes: seq<byte>): (r: Dir)
    requires KernelMay(d, res, bytes)
  {
    var d1 := d.(flight := Completed(d.flight.op, res));
    if d.flight.op.In? then d1.(consumed := d.consumed + bytes, pipe := d.pipe + bytes)
    else d1.(delivered := d.delivered + bytes, pipe := d.pipe[|bytes|..])
  }

  function Take(s: Relay, step: Step): (r: Relay)
    requires Enabled(s, step)
  {
    match step
    case CheckQueue => if s.cq != [] then s.(phase := Collecting) else Submit(s).(phase := Parked)
    case ReadEventfd => s.(efd := 0, phase := Collecting)
    case DrainExpired => s.(phase := Ended(true))
    case WaitFails => s.(phase := Ended(false))
    case Collect =>
      s.(batch := if |s.cq| <= BATCH_SLOTS then s.cq else s.cq[..BATCH_SLOTS], cq := [], phase := Handling)
    case HandleOne => Handle(s)
    case FinishBatch => EndOfBatch(s)
    case SubmitFails => Closed(s).(phase := Ended(false))
    case PollFails(side) =>
      var d := Get(s, side);
      Post(Set(s, side, d.(flight := Cancelling(d.flight.op), pollLost := true)), PollFailed)
    case Cancel(side) =>
      var d := Get(s, side);
      Post(Set(s, side, d.(flight := Completed(d.flight.op, -ECANCELED))), Splice(side, d.flight.op, -ECANCELED))
    case Finish(side, res, bytes) =>
      var d := Get(s, side);
      Post(Set(s, side, Moved(d, res, bytes)), Splice(side, d.flight.op, res))
    case Signal => s.(signalsDue := s.signalsDue - 1, efd := s.efd + 1)
  }

  // ---- What every step keeps ---------------------------------------------------------

  /** The splice completions for one direction, in order. */
  function For(side: Side, q: seq<Cqe>): (r: seq<Cqe>)
  {
    if q == [] then []
    else (if q[0].Splice? && q[0].side == side then [q[0]] else []) + For(side, q[1..])
  }

  function PollCount(q: seq<Cqe>): (n: nat)
  {
    if q == [] then 0 else (if q[0].PollFailed? then 1 else 0) + PollCount(q[1..])
  }

  function Expected(side: Side, d: Dir): (r: seq<Cqe>)
  {
    if d.flight.Completed? then [Splice(side, d.flight.op, d.flight.res)] else []
  }

  /** The operation a direction has outstanding, completed or not. */
  predicate Outstanding(d: Dir)
  {
    !d.flight.Idle?
  }

  /** Bytes and counters of one direction agree, whatever its operation is doing. */
  predicate Ledger(d: Dir)
  {
    var h := d.half;
    && d.consumed == d.delivered + d.pipe
    && match d.flight
       case Completed(op, res) =>
         if op.In? then
           h.inPipe == 0 && |d.pipe| == (if res > 0 then res else 0) && h.total == |d.delivered|
         else
           var w := if res > 0 then res else 0;
           h.inPipe > 0 && |d.pipe| + w == h.inPipe && h.total + w == |d.delivered|
       case Idle => |d.pipe| == h.inPipe && h.total == |d.delivered|
       case _ =>
         && h.total == |d.delivered| && |d.pipe| == h.inPipe
         && (d.flight.op.In? ==> d.pipe == [])
         && (d.flight.op.Out? ==> d.flight.op.len == h.inPipe > 0)
  }

  predicate DirInv(d: Dir)
  {
    var h := d.half;
    && Ledger(d)
    && (h.pending == if Outstanding(d) then 1 else 0)
    && (h.eof <==> !Outstanding(d))
    && (h.closeDue || d.closed <==> h.eof && d.pipe == [])
    && (d.pollLost ==> d.flight.Idle? || d.flight.Cancelling? || (d.flight.Completed? && d.flight.res == -ECANCELED))
    && (d.flight.Cancelling? ==> d.pollLost)
  }

  function QueuedEntries(d: Dir): (n: nat)
  {
    if d.flight.Queued? then Entries(d.flight.op) else 0
  }

  function Lost(d: Dir): (n: nat)
  {
    if d.pollLost then 1 else 0
  }

  /** The completions not yet handled: one for each direction whose operation is done, and
      at most one failed poll for each direction that lost its poll. */
  predicate QueueInv(q: seq<Cqe>, ab: Dir, ba: Dir)
  {
    && For(AB, q) == Expected(AB, ab)
    && For(BA, q) == Expected(BA, ba)
    && PollCount(q) <= Lost(ab) + Lost(ba)
  }

  predicate RingInv(s: Relay)
  {
    && QueueInv(s.batch + s.cq, s.ab, s.ba)
    && s.sq == QueuedEntries(s.ab) + QueuedEntries(s.ba)
    && (s.batch != [] ==> s.phase.Handling?)
    && (s.phase.Parked? && s.cq != [] ==> s.efd > 0 || s.signalsDue > 0)
    && (s.phase.Parked? ==> s.sq == 0)
    && (s.draining ==> s.ab.half.eof || s.ba.half.eof)
    && (s.phase == Ended(true) ==> IsDone(s) || s.draining)
  }

  /** The bytes always add up; the rest holds until the relay returns an error. */
  predicate Inv(s: Relay)
  {
    && Ledger(s.ab) && Ledger(s.ba)
    && (s.phase != Ended(false) ==> DirInv(s.ab) && DirInv(s.ba) && RingInv(s))
  }

  lemma {:induction false} ForSnoc(side: Side, q: seq<Cqe>, c: Cqe)
    ensures For(side, q + [c]) == For(side, q) + if c.Splice? && c.side == side then [c] else []
    ensures PollCount(q + [c]) == PollCount(q) + if c.PollFailed? then 1 else 0
  {
    PollCountSnoc(q, c);
    if q == [] {
      assert q + [c] == [c];
      assert [c][1..] == [];
    } else {
      ForSnoc(side, q[1..], c);
      ForFirst(side, q, c);
    }
  }

  lemma ForFirst(side: Side, q: seq<Cqe>, c: Cqe)
    requires q != []
    ensures For(side, q + [c]) == (if q[0].Splice? && q[0].side == side then [q[0]] else []) + For(side, q[1..] + [c])
  {
    assert (q + [c])[0] == q[0] && (q + [c])[1..] == q[1..] + [c];
  }

  lemma {:induction false} PollCountSnoc(q: seq<Cqe>, c: Cqe)
    ensures PollCount(q + [c]) == PollCount(q) + if c.PollFailed? then 1 else 0
  {
    if q == [] {
      assert q + [c] == [c];
      assert [c][1..] == [];
    } else {
      assert (q + [c])[1..] == q[1..] + [c];
      PollCountSnoc(q[1..], c);
    }
  }

  /** At most one splice completion a direction and one failed poll a direction. */
  lemma {:induction false} QueueLength(q: seq<Cqe>)
    ensures |q| == |For(AB, q)| + |For(BA, q)| + PollCount(q)
  {
    if q != [] {
      QueueLength(q[1..]);
    }
  }

  /** Bytes from the source go to the end of the pipe. */
  lemma InKeepsLedger(d: Dir, res: int, bytes: seq<byte>)
    requires Ledger(d) && KernelMay(d, res, bytes) && d.flight.op.In?
    ensures Ledger(Moved(d, res, bytes))
  {
    Associative(d.delivered, d.pipe, bytes);
  }

  /** Bytes for the destination come off the front of the pipe. */
  lemma OutKeepsLedger(d: Dir, res: int, bytes: seq<byte>)
    requires Ledger(d) && KernelMay(d, res, bytes) && d.flight.op.Out?
    ensures Ledger(Moved(d, res, bytes))
  {
    var rest := d.pipe[|bytes|..];
    assert d.pipe == bytes + rest;
    Associative(d.delivered, bytes, rest);
  }

  /** The rest of the invariant looks at the pipe only at the end of a direction. */
  lemma MovedKeepsDir(d: Dir, res: int, bytes: seq<byte>)
    requires DirInv(d) && KernelMay(d, res, bytes) && Ledger(Moved(d, res, bytes))
    ensures DirInv(Moved(d, res, bytes))
  {
  }

  /** The kernel's moves on one direction keep its half of the invariant. */
  lemma KernelKeepsDir(d: Dir, res: int, bytes: seq<byte>)
    requires Ledger(d) && KernelMay(d, res, bytes)
    ensures Ledger(Moved(d, res, bytes))
    ensures DirInv(d) ==> DirInv(Moved(d, res, bytes))
  {
    if d.flight.op.In? {
      InKeepsLedger(d, res, bytes);
    } else {
      OutKeepsLedger(d, res, bytes);
    }
    if DirInv(d) {
      MovedKeepsDir(d, res, bytes);
    }
  }

  /** `c` is what going from `d` to `d'` posts. */
  predicate Posts(side: Side, d: Dir, d': Dir, c: Cqe)
  {
    && QueuedEntries(d') == QueuedEntries(d) && d'.half == d.half
    && match c
       case PollFailed => Expected(side, d') == Expected(side, d) && !d.pollLost && d'.pollLost
       case Splice(at, _, _) =>
         at == side && Expected(side, d) == [] && Expected(side, d') == [c] && d'.pollLost == d.pollLost
  }

  lemma QueuePosts(q: seq<Cqe>, ab: Dir, ba: Dir, side: Side, d': Dir, c: Cqe)
    requires QueueInv(q, ab, ba) && Posts(side, if side.AB? then ab else ba, d', c)
    ensures side.AB? ==> QueueInv(q + [c], d', ba)
    ensures side.BA? ==> QueueInv(q + [c], ab, d')
  {
    ForSnoc(AB, q, c);
    ForSnoc(BA, q, c);
  }

  lemma PostKeeps(s: Relay, side: Side, d: Dir, c: Cqe)
    requires Inv(s) && s.phase != Ended(false)
    requires DirInv(d) && Posts(side, Get(s, side), d, c)
    ensures Inv(Post(Set(s, side, d), c))
  {
    var s' := Post(Set(s, side, d), c);
    QueuePosts(s.batch + s.cq, s.ab, s.ba, side, d, c);
    Associative(s.batch, s.cq, [c]);
    RestPosts(s, side, d, c, s', s'.batch + s'.cq);
  }

  lemma RestPosts(s: Relay, side: Side, d: Dir, c: Cqe, s': Relay, q: seq<Cqe>)
    requires RingInv(s) && QueuedEntries(d) == QueuedEntries(Get(s, side)) && d.half == Get(s, side).half
    requires s' == Post(Set(s, side, d), c) && q == s'.batch + s'.cq && QueueInv(q, s'.ab, s'.ba)
    ensures RingInv(s')
  {
  }

  lemma PollFailsKeeps(s: Relay, side: Side)
    requires Inv(s) && Enabled(s, PollFails(side))
    ensures Inv(Take(s, PollFails(side)))
  {
    if s.phase != Ended(false) {
      var d := Get(s, side);
      PostKeeps(s, side, d.(flight := Cancelling(d.flight.op), pollLost := true), PollFailed);
    }
  }

  lemma CancelKeeps(s: Relay, side: Side)
    requires Inv(s) && Enabled(s, Cancel(side))
    ensures Inv(Take(s, Cancel(side)))
  {
    if s.phase != Ended(false) {
      var d := Get(s, side);
      PostKeeps(s, side, d.(flight := Completed(d.flight.op, -ECANCELED)), Splice(side, d.flight.op, -ECANCELED));
    }
  }

  lemma FinishKeeps(s: Relay, side: Side, res: int, bytes: seq<byte>)
    requires Inv(s) && Enabled(s, Finish(side, res, bytes))
    ensures Inv(Take(s, Finish(side, res, bytes)))
  {
    var d := Get(s, side);
    KernelKeepsDir(d, res, bytes);
    if s.phase != Ended(false) {
      PostKeeps(s, side, Moved(d, res, bytes), Splice(side, d.flight.op, res));
    }
  }

  /** Handling the completion a direction waits for: the counters absorb the result, and
      the next operation, if any, is the one the bytes in the pipe call for. */
  lemma ReactionKeeps(d: Dir)
    requires DirInv(d) && d.flight.Completed?
    ensures var r := On(d.half, d.flight.op, d.flight.res);
            var flight := if r.push.Some? then Queued(r.push.value) else Idle;
            && Ledger(d.(half := r.half, flight := flight))
            && (r.failed ==> r.push.None?)
            && (!r.failed ==> DirInv(d.(half := r.half, flight := flight)))
  {
  }

  /** The head of the batch is the one completion its direction has, so handling it
      leaves that direction none. */
  lemma QueueHandled(q: seq<Cqe>, ab: Dir, ba: Dir, d: Dir)
    requires QueueInv(q, ab, ba) && q != [] && q[0].Splice?
    requires !d.flight.Completed? && d.pollLost == (if q[0].side.AB? then ab else ba).pollLost
    ensures q[0].side.AB? ==> QueueInv(q[1..], d, ba)
    ensures q[0].side.BA? ==> QueueInv(q[1..], ab, d)
  {
    var side := q[0].side;
    assert For(side, q) == [q[0]] + For(side, q[1..]);
    assert |For(side, q)| <= 1;
  }

  lemma HeadHandled(s: Relay, d: Dir, sq: nat)
    requires Inv(s) && s.phase.Handling? && s.batch != [] && s.batch[0].Splice?
    requires var side := s.batch[0].side;
             && DirInv(d) && !d.flight.Completed? && d.pollLost == Get(s, side).pollLost
             && sq + QueuedEntries(Get(s, side)) == s.sq + QueuedEntries(d)
    ensures Inv(Set(s.(batch := s.batch[1..]), s.batch[0].side, d).(sq := sq))
  {
    var q := s.batch + s.cq;
    assert q[0] == s.batch[0] && q[1..] == s.batch[1..] + s.cq;
    QueueHandled(q, s.ab, s.ba, d);
  }

  lemma HeadExpected(s: Relay)
    requires Inv(s) && s.phase.Handling? && s.batch != [] && s.batch[0].Splice?
    ensures Get(s, s.batch[0].side).flight == Completed(s.batch[0].op, s.batch[0].res)
  {
    var q := s.batch + s.cq;
    var side := s.batch[0].side;
    assert q[0] == s.batch[0];
    assert For(side, q)[0] == q[0];
  }

  lemma PollHandled(s: Relay)
    requires Inv(s) && s.phase.Handling? && s.batch != [] && s.batch[0].PollFailed?
    ensures Inv(s.(batch := s.batch[1..]))
  {
    var q := s.batch + s.cq;
    assert q[0] == s.batch[0] && q[1..] == s.batch[1..] + s.cq;
  }

  lemma HandleSpliceKeeps(s: Relay)
    requires Inv(s) && Enabled(s, HandleOne) && s.batch[0].Splice?
    requires !On(Get(s, s.batch[0].side).half, s.batch[0].op, s.batch[0].res).failed
    ensures Inv(Handle(s))
  {
    var side := s.batch[0].side;
    var d := Get(s, side);
    HeadExpected(s);
    ReactionKeeps(d);
    QueueRoom(s, side);
    var r := On(d.half, d.flight.op, d.flight.res);
    match r.push {
      case None => HeadHandled(s, d.(half := r.half, flight := Idle), s.sq);
      case Some(op) => HeadHandled(s, d.(half := r.half, flight := Queued(op)), s.sq + Entries(op));
    }
  }

  lemma HandleKeeps(s: Relay)
    requires Inv(s) && Enabled(s, HandleOne)
    ensures Inv(Handle(s))
  {
    if s.batch[0].PollFailed? {
      PollHandled(s);
    } else {
      HeadExpected(s);
      if On(Get(s, s.batch[0].side).half, s.batch[0].op, s.batch[0].res).failed {
        ReactionKeeps(Get(s, s.batch[0].side));
      } else {
        HandleSpliceKeeps(s);
      }
    }
  }

  /** A push never finds the submission queue full. */
  lemma QueueRoom(s: Relay, side: Side)
    requires Inv(s) && s.phase != Ended(false) && Get(s, side).flight.Completed?
    ensures s.sq + 2 <= 4 <= RING_ENTRIES
  {
  }

  lemma CloseKeeps(d: Dir)
    requires DirInv(d)
    ensures DirInv(CloseDir(d)) && CloseDir(d).flight == d.flight && CloseDir(d).pollLost == d.pollLost
  {
  }

  lemma SubmitKeeps(d: Dir)
    requires DirInv(d)
    ensures DirInv(SubmitDir(d)) && QueuedEntries(SubmitDir(d)) == 0 && SubmitDir(d).pollLost == d.pollLost
    ensures forall side :: Expected(side, SubmitDir(d)) == Expected(side, d)
  {
  }

  lemma EndOfBatchKeeps(s: Relay)
    requires Inv(s) && Enabled(s, FinishBatch)
    ensures Inv(EndOfBatch(s))
  {
    CloseKeeps(s.ab);
    CloseKeeps(s.ba);
    SubmitKeeps(CloseDir(s.ab));
    SubmitKeeps(CloseDir(s.ba));
  }

  lemma CheckQueueKeeps(s: Relay)
    requires Inv(s) && Enabled(s, CheckQueue)
    ensures Inv(Take(s, CheckQueue))
  {
    if s.cq == [] {
      SubmitKeeps(s.ab);
      SubmitKeeps(s.ba);
    }
  }

  lemma CollectKeeps(s: Relay)
    requires Inv(s) && Enabled(s, Collect)
    ensures |s.cq| <= 4
    ensures Take(s, Collect).batch == s.cq
    ensures Inv(Take(s, Collect))
  {
    QueueLength(s.batch + s.cq);
    assert s.batch + s.cq == s.cq;
    assert s.cq + [] == s.cq;
  }

  lemma StepKeeps(s: Relay, step: Step)
    requires Inv(s) && Enabled(s, step)
    ensures Inv(Take(s, step))
  {
    match step
    case HandleOne => HandleKeeps(s);
    case FinishBatch => EndOfBatchKeeps(s);
    case Collect => CollectKeeps(s);
    case CheckQueue => CheckQueueKeeps(s);
    case PollFails(side) => PollFailsKeeps(s, side);
    case Cancel(side) => CancelKeeps(s, side);
    case Finish(side, res, bytes) => FinishKeeps(s, side, res, bytes);
    case _ => PhaseStepKeeps(s, step);
  }

  /** Steps that move no byte and touch no queue. */
  lemma PhaseStepKeeps(s: Relay, step: Step)
    requires Inv(s) && Enabled(s, step)
    requires step.ReadEventfd? || step.DrainExpired? || step.SubmitFails? || step.WaitFails? || step.Signal?
    ensures Inv(Take(s, step))
  {
  }

  // ---- Every run -----------------------------------------------------------------------

  /** The steps can be taken one after another from `s`. */
  predicate Runnable(s: Relay, steps: seq<Step>)
    decreases |steps|
  {
    steps == [] || (Enabled(s, steps[0]) && Runnable(Take(s, steps[0]), steps[1..]))
  }

  function After(s: Relay, steps: seq<Step>): (r: Relay)
    requires Runnable(s, steps)
    decreases |steps|
  {
    if steps == [] then s else After(Take(s, steps[0]), steps[1..])
  }

  lemma {:induction false} RunKeeps(s: Relay, steps: seq<Step>)
    requires Inv(s) && Runnable(s, steps)
    ensures Inv(After(s, steps))
    decreases |steps|
  {
    if steps != [] {
      StepKeeps(s, steps[0]);
      RunKeeps(Take(s, steps[0]), steps[1..]);
    }
  }

  lemma StartInv()
    ensures Inv(Start())
  {
  }

  /** In every reachable state, errors included, what was taken from a source is what its
      destination got followed by what the pipe holds, in order. */
  lemma NoByteLostOrReordered(steps: seq<Step>, side: Side)
    requires Runnable(Start(), steps)
    ensures var d := Get(After(Start(), steps), side);
            d.consumed == d.delivered + d.pipe
  {
    StartInv();
    RunKeeps(Start(), steps);
  }

  /** In every reachable state of a live relay each direction has at most one operation
      outstanding and none exactly at its end; a splice in is outstanding only with an
      empty pipe; and the destination is closed only when all that was read is delivered. */
  lemma DirectionDiscipline(steps: seq<Step>, side: Side)
    requires Runnable(Start(), steps) && After(Start(), steps).phase != Ended(false)
    ensures var d := Get(After(Start(), steps), side);
            && 0 <= d.half.pending <= 1
            && (d.half.pending == 0 <==> d.half.eof)
            && ((d.flight.Queued? || d.flight.Submitted?) && d.flight.op.In? ==> d.pipe == [] && d.half.inPipe == 0)
            && (d.closed ==> d.delivered == d.consumed)
  {
    StartInv();
    RunKeeps(Start(), steps);
    var d := Get(After(Start(), steps), side);
    if d.closed {
      assert d.consumed == d.delivered + [];
    }
  }

  /** The count returned for a direction is what was delivered, short only of a completion
      that was posted and not handled; it is exact unless the drain window cut the relay
      off at such a moment. */
  lemma CountsAreExact(steps: seq<Step>, side: Side)
    requires Runnable(Start(), steps)
    ensures var s := After(Start(), steps);
            var d := Get(s, side);
            && d.half.total <= |d.delivered|
            && (d.half.total == |d.delivered| <==>
                !(d.flight.Completed? && d.flight.op.Out? && d.flight.res > 0))
  {
    StartInv();
    RunKeeps(Start(), steps);
  }

  /** When both directions are done nothing is outstanding and the counts are exact.  A
      direction has then delivered all it took exactly if its destination was half-closed,
      or is about to be; one that a failed splice out ended keeps bytes in the pipe. */
  lemma DoneIsQuiet(steps: seq<Step>, side: Side)
    requires Runnable(Start(), steps)
    requires After(Start(), steps).phase != Ended(false) && IsDone(After(Start(), steps))
    ensures var d := Get(After(Start(), steps), side);
            && d.flight.Idle? && d.half.total == |d.delivered| && |d.consumed| == d.half.total + d.half.inPipe
            && (d.delivered == d.consumed <==> d.closed || d.half.closeDue)
  {
    StartInv();
    RunKeeps(Start(), steps);
    var d := Get(After(Start(), steps), side);
    assert d.pipe == [] ==> d.delivered + d.pipe == d.delivered;
  }

  /** No completion is dropped: whenever the queue is collected it holds at most four
      entries, and the batch is all of them. */
  lemma NoCompletionDropped(steps: seq<Step>)
    requires Runnable(Start(), steps) && After(Start(), steps).phase.Collecting?
    ensures var s := After(Start(), steps);
            |s.cq| <= 4 && Take(s, Collect).batch == s.cq
  {
    StartInv();
    RunKeeps(Start(), steps);
    CollectKeeps(After(Start(), steps));
  }

  /** The submission queue never holds more than four of its 32 entries. */
  lemma SubmissionQueueNeverFull(steps: seq<Step>)
    requires Runnable(Start(), steps) && After(Start(), steps).phase != Ended(false)
    ensures After(Start(), steps).sq <= 4
  {
    StartInv();
    RunKeeps(Start(), steps);
  }

  /** No wakeup is lost: a parked task with a completion waiting has been signalled or is
      about to be, and everything it queued has been submitted. */
  lemma NoLostWakeup(steps: seq<Step>)
    requires Runnable(Start(), steps) && After(Start(), steps).phase.Parked?
    ensures var s := After(Start(), steps);
            && (s.cq != [] ==> Enabled(s, ReadEventfd) || Enabled(s, Signal))
            && !s.ab.flight.Queued? && !s.ba.flight.Queued?
  {
    StartInv();
    RunKeeps(Start(), steps);
  }

  /** Bytes taken from the source have not reached the destination: nothing is outstanding
      and the direction did not end at the end of its source; or what was read has not been
      handled; or a splice out is still to be done, or moved less than the pipe held. */
  predicate Stranded(d: Dir)
  {
    match d.flight
    case Idle => !(d.closed || d.half.closeDue)
    case Completed(op, res) => if op.In? then res > 0 else res != d.half.inPipe
    case _ => d.flight.op.Out?
  }

  /** A relay that returns success has finished both directions, or one of them has ended
      and the drain window cut the other off.  Either way each direction delivered a prefix
      of what it took and counted at most that; all of it exactly if it is not stranded. */
  lemma SuccessMeans(steps: seq<Step>, side: Side)
    requires Runnable(Start(), steps) && After(Start(), steps).phase == Ended(true)
    ensures var s := After(Start(), steps); var d := Get(s, side);
            && (IsDone(s) || s.ab.half.eof || s.ba.half.eof)
            && d.delivered <= d.consumed && d.half.total <= |d.delivered|
            && (d.delivered == d.consumed <==> !Stranded(d))
  {
    StartInv();
    RunKeeps(Start(), steps);
    StrandedExactly(Get(After(Start(), steps), side));
  }

  lemma StrandedExactly(d: Dir)
    requires DirInv(d)
    ensures d.delivered == d.consumed <==> !Stranded(d)
  {
    assert d.pipe == [] ==> d.delivered + d.pipe == d.delivered;
  }

  /** The kernel may report anything of a submitted operation: any error, the end, or any bytes
      up to 256 KiB of the source, or as much of the pipe as it was asked to move. */
  lemma KernelMayReport(d: Dir, res: int, bytes: seq<byte>)
    requires d.flight.Submitted?
    ensures res <= 0 ==> KernelMay(d, res, [])
    ensures d.flight.op.In? && 0 < |bytes| <= 262144 ==> KernelMay(d, |bytes|, bytes)
    ensures d.flight.op.Out? && 0 < res <= d.flight.op.len && res <= |d.pipe| ==> KernelMay(d, res, d.pipe[..res])
  {
  }

  /** The ring may fail whenever the program waits for it or submits to it, which it does after
      every batch that does not end the relay; parked, it wakes up for a signal and only so.  A
      splice in takes two entries of the queue, as does one out behind a poll, and one takes one. */
  lemma RingMeans(s: Relay, n: nat)
    ensures Enabled(s, WaitFails) <==> s.phase.Checking? || s.phase.Parked?
    ensures s.phase.Handling? && s.batch == [] ==>
              (Enabled(s, SubmitFails) <==> Take(s, FinishBatch).phase != Ended(true))
    ensures s.phase.Parked? ==> (Enabled(s, ReadEventfd) <==> s.efd > 0)
    ensures s.signalsDue > 0 ==> Enabled(s, Signal) && Take(s, Signal).efd == s.efd + 1
    ensures Entries(In) == 2 && Entries(Out(n, true)) == 2 && Entries(Out(n, false)) == 1
  {
  }

  // ---- What completions mean ------------------------------------------------------------

  /** A splice in that completed, read off its result: 0 or -125, a cancelled poll, is the end
      of the source, and the destination is to be half-closed; any other negative result ends
      the relay in an error; a positive one leaves that many bytes to be spliced out. */
  predicate InHandled(d: Dir, res: int, d': Dir, phase: Phase)
  {
    && (phase == Ended(false) <==> res < 0 && res != -125)
    && (phase == Handling <==> res >= 0 || res == -125)
    && (d'.half.eof <==> res == 0 || res == -125)
    && (res == 0 || res == -125 ==> d'.flight == Idle && d'.half.closeDue && d.pipe == [])
    && (res > 0 ==> d'.flight == Queued(Out(|d.pipe|, false)) && |d.pipe| == res && !d'.half.closeDue)
    && d' == d.(half := d'.half, flight := d'.flight) && d'.half.total == d.half.total
  }

  /** A splice out that completed: -11, a full send buffer, asks for the same bytes again behind
      a poll; a positive result for the rest of the pipe or, when that is empty, for the next
      splice in; anything else ends the direction, without a half-close and with its bytes
      still in the pipe.  The relay goes on in every case. */
  predicate OutHandled(d: Dir, res: int, d': Dir, phase: Phase)
  {
    && phase == Handling
    && (d'.half.eof <==> res <= 0 && res != -11)
    && (res == -11 <==> d'.flight == Queued(Out(|d.pipe|, true)))
    && (res > 0 && d.pipe != [] ==> d'.flight == Queued(Out(|d.pipe|, false)))
    && (res > 0 && d.pipe == [] <==> d'.flight == Queued(In))
    && (res <= 0 && res != -11 ==> d'.flight == Idle && d.pipe != [])
    && d' == d.(half := d'.half, flight := d'.flight) && !d'.half.closeDue
    && d'.half.total == d.half.total + (if res > 0 then res else 0)
  }

  /** In every state the relay can be in, and whatever the completion at the head of the batch:
      a failed poll changes nothing; a splice in or out has its meaning for its own direction
      and none for the other. */
  lemma HandledMeans(s: Relay)
    requires Inv(s) && Enabled(s, HandleOne)
    ensures var r := Take(s, HandleOne);
            && r.batch == s.batch[1..] && r.cq == s.cq && r.draining == s.draining
            && match s.batch[0]
               case PollFailed => r == s.(batch := s.batch[1..])
               case Splice(side, op, res) =>
                 && Get(r, if side.AB? then BA else AB) == Get(s, if side.AB? then BA else AB)
                 && if op.In? then InHandled(Get(s, side), res, Get(r, side), r.phase)
                    else OutHandled(Get(s, side), res, Get(r, side), r.phase)
  {
    if s.batch[0].Splice? {
      HeadExpected(s);
      QueueRoom(s, s.batch[0].side);
      ReactionMeans(Get(s, s.batch[0].side));
      HandledByReaction(s, s.batch[0].side, s.batch[0].op, s.batch[0].res);
    }
  }

  /** With room in the queue, handling a completion is its direction's reaction. */
  lemma HandledByReaction(s: Relay, side: Side, op: Op, res: int)
    requires s.phase.Handling? && s.batch != [] && s.batch[0] == Splice(side, op, res) && s.sq + 2 <= RING_ENTRIES
    ensures var d, r := Get(s, side), On(Get(s, side).half, op, res); var s' := Handle(s);
            && s'.batch == s.batch[1..] && s'.cq == s.cq && s'.draining == s.draining
            && Get(s', if side.AB? then BA else AB) == Get(s, if side.AB? then BA else AB)
            && (r.failed ==> Get(s', side) == d.(half := r.half, flight := Idle) && s'.phase == Ended(false))
            && (!r.failed ==>
                  && Get(s', side) == d.(half := r.half, flight := if r.push.Some? then Queued(r.push.value) else Idle)
                  && s'.phase == Handling)
  {
  }

  lemma ReactionMeans(d: Dir)
    requires DirInv(d) && d.flight.Completed?
    ensures var r := On(d.half, d.flight.op, d.flight.res);
            var d' := d.(half := r.half, flight := if r.push.Some? then Queued(r.push.value) else Idle);
            var phase := if r.failed then Ended(false) else Handling;
            if d.flight.op.In? then InHandled(d, d.flight.res, d', phase) else OutHandled(d, d.flight.res, d', phase)
  {
  }

  /** The step handles a splice in that failed: its result is negative, and not -125. */
  predicate HandlesFailure(s: Relay, step: Step)
    requires Enabled(s, step)
  {
    step.HandleOne? && s.batch[0].Splice? && s.batch[0].op.In? && s.batch[0].res < 0 && s.batch[0].res != -125
  }

  /** Some step of the run handles a splice in that failed, or finds the ring failing. */
  predicate MeetsError(s: Relay, steps: seq<Step>)
    requires Runnable(s, steps)
    decreases |steps|
  {
    steps != [] && (steps[0].WaitFails? || steps[0].SubmitFails? || HandlesFailure(s, steps[0])
                    || MeetsError(Take(s, steps[0]), steps[1..]))
  }

  lemma {:induction false} EndedStays(s: Relay, steps: seq<Step>)
    requires s.phase.Ended? && Runnable(s, steps)
    ensures After(s, steps).phase == s.phase
    decreases |steps|
  {
    if steps != [] {
      EndedStays(Take(s, steps[0]), steps[1..]);
    }
  }

  lemma ErrorStep(s: Relay, step: Step)
    requires Inv(s) && s.phase != Ended(false) && Enabled(s, step)
    ensures Take(s, step).phase == Ended(false) <==> step.WaitFails? || step.SubmitFails? || HandlesFailure(s, step)
  {
    if step.HandleOne? {
      HandledMeans(s);
    }
  }

  lemma {:induction false} ErrorRun(s: Relay, steps: seq<Step>)
    requires Inv(s) && s.phase != Ended(false) && Runnable(s, steps)
    ensures After(s, steps).phase == Ended(false) <==> MeetsError(s, steps)
    decreases |steps|
  {
    if steps != [] {
      ErrorStep(s, steps[0]);
      StepKeeps(s, steps[0]);
      var s' := Take(s, steps[0]);
      if s'.phase == Ended(false) {
        EndedStays(s', steps[1..]);
      } else {
        ErrorRun(s', steps[1..]);
      }
    }
  }

  /** A relay has returned an error exactly if it handled a splice in that failed, or the ring
      itself failed; so one that returned success never did. */
  lemma ErrorsAreReturned(steps: seq<Step>)
    requires Runnable(Start(), steps)
    ensures After(Start(), steps).phase == Ended(false) <==> MeetsError(Start(), steps)
  {
    StartInv();
    ErrorRun(Start(), steps);
  }

  // ---- Two ways to return success with bytes missing ------------------------------------

  lemma {:induction false} RunSnoc(s: Relay, steps: seq<Step>, last: Step)
    requires Runnable(s, steps) && Enabled(After(s, steps), last)
    ensures Runnable(s, steps + [last]) && After(s, steps + [last]) == Take(After(s, steps), last)
    decreases |steps|
  {
    if steps == [] {
      assert steps + [last] == [last] && [last][1..] == [];
    } else {
      assert (steps + [last])[1..] == steps[1..] + [last];
      RunSnoc(Take(s, steps[0]), steps[1..], last);
    }
  }

  /** Handling the one completion in the queue: collect, react, close, submit. */
  lemma OneCompletion(steps: seq<Step>, s: Relay) returns (more: seq<Step>)
    requires Runnable(Start(), steps) && After(Start(), steps) == s
    requires s.phase.Collecting? && |s.cq| == 1 && !Handle(Take(s, Collect)).phase.Ended?
    requires |Handle(Take(s, Collect)).batch| == 0
    ensures Runnable(Start(), more) && After(Start(), more) == EndOfBatch(Handle(Take(s, Collect)))
  {
    RunSnoc(Start(), steps, Collect);
    more := steps + [Collect];
    RunSnoc(Start(), more, HandleOne);
    more := more + [HandleOne];
    RunSnoc(Start(), more, FinishBatch);
    more := more + [FinishBatch];
  }

  /** Parked with both splices in submitted; then the first of them completes, and the
      program wakes up. */
  lemma FirstCompletion(res: int, bytes: seq<byte>) returns (steps: seq<Step>)
    requires 0 <= res == |bytes| <= PIPE_CAPACITY
    ensures Runnable(Start(), steps)
    ensures var s := Submit(Start());
            After(Start(), steps) == s.(ab := Moved(s.ab, res, bytes), cq := [Splice(AB, In, res)], phase := Collecting)
  {
    RunSnoc(Start(), [], CheckQueue);
    steps := [] + [CheckQueue];
    RunSnoc(Start(), steps, Finish(AB, res, bytes));
    steps := steps + [Finish(AB, res, bytes)];
    RunSnoc(Start(), steps, Signal);
    steps := steps + [Signal];
    RunSnoc(Start(), steps, ReadEventfd);
    steps := steps + [ReadEventfd];
  }

  /** Side a half-closes; the drain window expires before side b has answered.  The relay
      succeeds, and has not looked at the answer. */
  lemma HalfCloseLosesTheReply() returns (steps: seq<Step>)
    ensures Runnable(Start(), steps)
    ensures var s := After(Start(), steps);
            && s.phase == Ended(true) && s.ab.closed && !s.ba.half.eof
            && s.ab.half.total == s.ba.half.total == 0
            && s.ab.consumed == s.ab.delivered == s.ba.consumed == s.ba.delivered == []
  {
    steps := FirstCompletion(0, []);
    steps := OneCompletion(steps, After(Start(), steps));
    RunSnoc(Start(), steps, DrainExpired);
    steps := steps + [DrainExpired];
  }

  /** A splice out that fails ends its direction with the byte still in the pipe; after the
      drain window the relay succeeds without it. */
  lemma FailedOutKeepsBytes(b: byte) returns (steps: seq<Step>)
    ensures Runnable(Start(), steps)
    ensures var s := After(Start(), steps);
            && s.phase == Ended(true) && s.ab.half.eof && !s.ab.closed
            && s.ab.consumed == [b] && s.ab.delivered == []
  {
    steps := FirstCompletion(1, [b]);
    steps := OneCompletion(steps, After(Start(), steps));
    var s := After(Start(), steps);
    assert s.ab.flight == Submitted(Out(1, false)) && s.phase.Checking? && s.cq == [];
    RunSnoc(Start(), steps, Finish(AB, -104, []));
    steps := steps + [Finish(AB, -104, [])];
    RunSnoc(Start(), steps, CheckQueue);
    steps := steps + [CheckQueue];
    steps := OneCompletion(steps, After(Start(), steps));
    RunSnoc(Start(), steps, DrainExpired);
    steps := steps + [DrainExpired];
  }
}
