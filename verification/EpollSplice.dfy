/** The epoll fallback: each direction relayed by splice calls through a pipe, where a call
    may move part of what it could, find nothing, or fail; and the two directions together. */
module EpollSplice {
  import opened Bytes

  /** A splice into the pipe; moving no bytes is the end of the source. */
  datatype InEvent = Read(bytes: seq<byte>) | NotReadable | ReadFails

  /** A splice out of the pipe; writing zero bytes is waited out and retried. */
  datatype OutEvent = Wrote(n: nat) | NotWritable | WriteFails

  /** `Waiting`: the script of events ran out while the relay still waits. */
  datatype Outcome = Finished(total: nat) | Failed | Waiting

  /** The bytes the source yields before its end or its first failure, and whether the
      end is reached. */
  function Source(ins: seq<InEvent>, i: nat): (r: (seq<byte>, bool))
    requires i <= |ins|
    decreases |ins| - i
  {
    if i == |ins| || ins[i].ReadFails? then ([], false)
    else if ins[i].NotReadable? then Source(ins, i + 1)
    else if ins[i].bytes == [] then ([], true)
    else (ins[i].bytes + Source(ins, i + 1).0, Source(ins, i + 1).1)
  }

  /** A failure comes before the end. */
  predicate SourceFails(ins: seq<InEvent>, i: nat)
    requires i <= |ins|
    decreases |ins| - i
  {
    i < |ins| && (ins[i].ReadFails? || (!(ins[i].Read? && ins[i].bytes == []) && SourceFails(ins, i + 1)))
  }

  function Whole(ins: seq<InEvent>): (bytes: seq<byte>)
  {
    Source(ins, 0).0
  }

  /** Where the read that holds position `p` of the source ends. */
  function Boundary(ins: seq<InEvent>, i: nat, p: nat): (q: nat)
    requires i <= |ins| && p < |Source(ins, i).0|
    ensures p < q <= |Source(ins, i).0|
    decreases |ins| - i
  {
    if ins[i].NotReadable? then Boundary(ins, i + 1, p)
    else if p < |ins[i].bytes| then |ins[i].bytes|
    else |ins[i].bytes| + Boundary(ins, i + 1, p - |ins[i].bytes|)
  }

  /** How far the destination gets, and whether a failed write stops it there. */
  datatype Walk = Walk(reached: nat, failed: bool)

  /** One walk along the source, a write at a time: a write moves what it could, but never
      past the end of the read it is in. */
  function Walked(ins: seq<InEvent>, outs: seq<OutEvent>, j: nat, p: nat): (w: Walk)
    requires j <= |outs| && p <= |Whole(ins)|
    ensures p <= w.reached <= |Whole(ins)|
    decreases |outs| - j
  {
    if p == |Whole(ins)| || j == |outs| then Walk(p, false)
    else
      match outs[j]
      case NotWritable => Walked(ins, outs, j + 1, p)
      case WriteFails => Walk(p, true)
      case Wrote(n) => Walked(ins, outs, j + 1, p + Min(n, Boundary(ins, 0, p) - p))
  }

  /** What one direction comes to. */
  function Ends(ins: seq<InEvent>, outs: seq<OutEvent>): (o: Outcome)
  {
    var w := Walked(ins, outs, 0, 0);
    if w.reached < |Whole(ins)| then (if w.failed then Failed else Waiting)
    else if Source(ins, 0).1 then Finished(|Whole(ins)|)
    else if SourceFails(ins, 0) then Failed
    else Waiting
  }

  function Sent(ins: seq<InEvent>, outs: seq<OutEvent>): (bytes: seq<byte>)
  {
    Whole(ins)[..Walked(ins, outs, 0, 0).reached]
  }

  /** The nested loops of the relay make that walk: the destination has exactly the bytes it
      reaches, the outcome is the one it leads to, and only the end of a source that was
      delivered whole closes the destination. */
  method RelayOneDirection(ins: seq<InEvent>, outs: seq<OutEvent>)
    returns (outcome: Outcome, delivered: seq<byte>, closed: bool)
    ensures delivered == Sent(ins, outs) && outcome == Ends(ins, outs)
    ensures closed <==> outcome.Finished?
  {
    delivered, closed := [], false;
    var total, i, j := 0, 0, 0;
    while i < |ins|
      invariant 0 <= i <= |ins| && 0 <= j <= |outs| && !closed
      invariant Midway(ins, outs, i, j, total) && delivered == Whole(ins)[..total]
      decreases |ins| - i
    {
      match ins[i] {
        case NotReadable => NothingRead(ins, outs, i, j, total);
        case ReadFails =>
          SourceOver(ins, outs, i, j, total);
          return Failed, delivered, closed;
        case Read(bytes) =>
          if bytes == [] {
            SourceOver(ins, outs, i, j, total);
            closed := true;
            return Finished(total), delivered, closed;
          }
          var moved, used, stop := RelayRead(bytes, outs, j, ins, i, total);
          delivered := delivered + bytes[..moved];
          total := total + moved;
          j := used;
          if stop != Flowing {
            return if stop == Blocked then Waiting else Failed, delivered, closed;
          }
      }
      i := i + 1;
    }
    SourceOver(ins, outs, i, j, total);
    outcome := Waiting;
  }

  /** What one read brought goes out: all of it, and the relay goes on, or as far as the
      writes get. */
  method RelayRead(bytes: seq<byte>, outs: seq<OutEvent>, start: nat,
                   ghost ins: seq<InEvent>, ghost i: nat, ghost total: nat)
    returns (moved: nat, j: nat, stop: Stop)
    requires i < |ins| && start <= |outs| && ins[i] == Read(bytes) && bytes != [] && Midway(ins, outs, i, start, total)
    ensures moved <= |bytes| && start <= j <= |outs| && total + moved <= |Whole(ins)|
    ensures Whole(ins)[..total] + bytes[..moved] == Whole(ins)[..total + moved]
    ensures stop == Flowing ==> Midway(ins, outs, i + 1, j, total + moved)
    ensures stop != Flowing ==> Sent(ins, outs) == Whole(ins)[..total + moved]
    ensures stop != Flowing ==> Ends(ins, outs) == if stop == Blocked then Waiting else Failed
  {
    BoundariesAhead(ins, i, total);
    moved, j, stop := EmptyPipe(bytes, outs, start, ins, total);
    Delivers(ins, total, bytes, moved);
  }

  /** Between two reads: `total` bytes delivered, the rest of both scripts to come. */
  predicate Midway(ins: seq<InEvent>, outs: seq<OutEvent>, i: nat, j: nat, total: nat)
    requires i <= |ins| && j <= |outs|
  {
    && Aligned(ins, i, total)
    && Source(ins, i).1 == Source(ins, 0).1 && SourceFails(ins, i) == SourceFails(ins, 0)
    && Walked(ins, outs, 0, 0) == Walked(ins, outs, j, total)
  }

  lemma NothingRead(ins: seq<InEvent>, outs: seq<OutEvent>, i: nat, j: nat, total: nat)
    requires i < |ins| && j <= |outs| && ins[i].NotReadable? && Midway(ins, outs, i, j, total)
    ensures Midway(ins, outs, i + 1, j, total)
  {
  }

  /** Where the source yields no more, all of it is delivered. */
  lemma SourceOver(ins: seq<InEvent>, outs: seq<OutEvent>, i: nat, j: nat, total: nat)
    requires i <= |ins| && j <= |outs| && Midway(ins, outs, i, j, total) && Source(ins, i).0 == []
    ensures total == |Whole(ins)| && Sent(ins, outs) == Whole(ins) == Whole(ins)[..total]
    ensures Ends(ins, outs)
            == if Source(ins, i).1 then Finished(total) else if SourceFails(ins, i) then Failed else Waiting
  {
  }

  /** Whether the pipe was emptied, or a failure or the end of the script came first. */
  datatype Stop = Flowing | Blocked | Broken

  /** Splicing out what one splice in brought. */
  method EmptyPipe(bytes: seq<byte>, outs: seq<OutEvent>, start: nat,
                   ghost ins: seq<InEvent>, ghost before: nat)
    returns (moved: nat, j: nat, stop: Stop)
    requires start <= |outs| && bytes != [] && OneRead(ins, before, before + |bytes|)
    ensures moved <= |bytes| && start <= j <= |outs|
    ensures Walked(ins, outs, start, before)
            == if stop == Flowing then Walked(ins, outs, j, before + moved) else Walk(before + moved, stop == Broken)
    ensures stop == Flowing <==> moved == |bytes|
  {
    j, moved := start, 0;
    var remaining := |bytes|;
    while remaining > 0
      invariant start <= j <= |outs| && 0 <= remaining <= |bytes| && moved + remaining == |bytes|
      invariant Walked(ins, outs, start, before) == Walked(ins, outs, j, before + moved)
      decreases |outs| - j
    {
      if j == |outs| {
        return moved, j, Blocked;
      }
      match outs[j] {
        case NotWritable =>
        case WriteFails => return moved, j, Broken;
        case Wrote(n) =>
          assert Boundary(ins, 0, before + moved) == before + |bytes|;
          var step := Min(n, remaining);
          remaining := remaining - step;
          moved := moved + step;
      }
      j := j + 1;
    }
    stop := Flowing;
  }

  /** After `done` bytes the source and its reads are those from `i` on. */
  predicate Aligned(ins: seq<InEvent>, i: nat, done: nat)
    requires i <= |ins|
  {
    && done <= |Whole(ins)| && Source(ins, i).0 == Whole(ins)[done..]
    && forall p :: done <= p < |Whole(ins)| ==> Boundary(ins, 0, p) == done + Boundary(ins, i, p - done)
  }

  /** One read brought the positions from `from` to `to`. */
  predicate OneRead(ins: seq<InEvent>, from: nat, to: nat)
  {
    to <= |Whole(ins)| && forall p :: from <= p < to ==> Boundary(ins, 0, p) == to
  }

  /** From a read on, the source and its boundaries move along with it. */
  lemma BoundariesAhead(ins: seq<InEvent>, i: nat, done: nat)
    requires i < |ins| && ins[i].Read? && ins[i].bytes != [] && Aligned(ins, i, done)
    ensures var next := done + |ins[i].bytes|;
            OneRead(ins, done, next) && Whole(ins)[done..next] == ins[i].bytes && Aligned(ins, i + 1, next)
  {
    var n := |ins[i].bytes|;
    assert Whole(ins)[done..] == ins[i].bytes + Source(ins, i + 1).0;
    assert Whole(ins)[done..][..n] == ins[i].bytes && Whole(ins)[done..][n..] == Source(ins, i + 1).0;
  }

  lemma Delivers(ins: seq<InEvent>, done: nat, bytes: seq<byte>, moved: nat)
    requires done + |bytes| <= |Whole(ins)| && Whole(ins)[done..done + |bytes|] == bytes && moved <= |bytes|
    ensures Whole(ins)[..done] + bytes[..moved] == Whole(ins)[..done + moved]
  {
    assert bytes[..moved] == Whole(ins)[done..done + moved];
  }

  // ---- How a direction ends, told from the events -----------------------------------------

  /** Event `i` is the first that ends or fails the source. */
  predicate StopsAt(ins: seq<InEvent>, from: nat, i: nat)
  {
    && from <= i < |ins| && (ins[i].ReadFails? || ins[i] == Read([]))
    && forall k :: from <= k < i ==> !ins[k].ReadFails? && ins[k] != Read([])
  }

  lemma {:induction false} SourceStops(ins: seq<InEvent>, from: nat)
    requires from <= |ins|
    ensures Source(ins, from).1 <==> exists i: nat :: StopsAt(ins, from, i) && ins[i] == Read([])
    ensures SourceFails(ins, from) <==> exists i: nat :: StopsAt(ins, from, i) && ins[i].ReadFails?
    decreases |ins| - from
  {
    if from < |ins| {
      var here := ins[from].ReadFails? || ins[from] == Read([]);
      if here {
        assert StopsAt(ins, from, from);
        assert forall i: nat :: StopsAt(ins, from, i) ==> i == from;
      } else {
        var next := from + 1;
        SourceStops(ins, next);
        assert forall i: nat :: StopsAt(ins, from, i) <==> StopsAt(ins, next, i);
      }
    }
  }

  /** Event `j` is the first write that fails. */
  predicate WriteStopsAt(outs: seq<OutEvent>, j: nat)
  {
    j < |outs| && outs[j].WriteFails? && forall k :: 0 <= k < j ==> !outs[k].WriteFails?
  }

  lemma {:induction false} WalkStops(ins: seq<InEvent>, outs: seq<OutEvent>, j: nat, i: nat, p: nat)
    requires WriteStopsAt(outs, j) && i <= j && p <= |Whole(ins)|
    ensures var before := Walked(ins, outs[..j], i, p);
            && !before.failed
            && Walked(ins, outs, i, p) == Walk(before.reached, before.reached < |Whole(ins)|)
    decreases j - i
  {
    if p < |Whole(ins)| && i < j {
      assert outs[..j][i] == outs[i];
      var next := if outs[i].NotWritable? then p else p + Min(outs[i].n, Boundary(ins, 0, p) - p);
      WalkStops(ins, outs, j, i + 1, next);
    }
  }

  lemma {:induction false} WalkUnharmed(ins: seq<InEvent>, outs: seq<OutEvent>, i: nat, p: nat)
    requires i <= |outs| && p <= |Whole(ins)| && forall k :: 0 <= k < |outs| ==> !outs[k].WriteFails?
    ensures !Walked(ins, outs, i, p).failed
    decreases |outs| - i
  {
    if p < |Whole(ins)| && i < |outs| {
      var next := if outs[i].NotWritable? then p else p + Min(outs[i].n, Boundary(ins, 0, p) - p);
      WalkUnharmed(ins, outs, i + 1, next);
    }
  }

  /** A direction finishes exactly if the source ends without a failure before and all of it got
      out; it fails exactly if a write fails with bytes left, or the source fails and all before
      that got out.  What got out when a write fails is what the writes before it moved. */
  lemma EndsExactly(ins: seq<InEvent>, outs: seq<OutEvent>, j: nat)
    ensures var all := Sent(ins, outs) == Whole(ins);
            && (Ends(ins, outs).Finished? <==> all && exists i: nat :: StopsAt(ins, 0, i) && ins[i] == Read([]))
            && (Ends(ins, outs).Finished? ==> Ends(ins, outs).total == |Sent(ins, outs)|)
            && (WriteStopsAt(outs, j) ==>
                  && Sent(ins, outs) == Sent(ins, outs[..j])
                  && (Ends(ins, outs).Failed?
                      <==> !all || exists i: nat :: StopsAt(ins, 0, i) && ins[i].ReadFails?))
            && ((forall k :: 0 <= k < |outs| ==> !outs[k].WriteFails?) ==>
                  (Ends(ins, outs).Failed? <==> all && exists i: nat :: StopsAt(ins, 0, i) && ins[i].ReadFails?))
  {
    SourceStops(ins, 0);
    var w := Walked(ins, outs, 0, 0);
    assert Sent(ins, outs) == Whole(ins) <==> w.reached == |Whole(ins)|;
    if Source(ins, 0).1 {
      EndOrFailure(ins, 0);
    }
    if WriteStopsAt(outs, j) {
      WalkStops(ins, outs, j, 0, 0);
    }
    if forall k :: 0 <= k < |outs| ==> !outs[k].WriteFails? {
      WalkUnharmed(ins, outs, 0, 0);
    }
  }

  lemma {:induction false} EndOrFailure(ins: seq<InEvent>, from: nat)
    requires from <= |ins| && Source(ins, from).1
    ensures !SourceFails(ins, from)
    decreases |ins| - from
  {
    if from < |ins| && ins[from] != Read([]) {
      EndOrFailure(ins, from + 1);
    }
  }

  // ---- Progress -------------------------------------------------------------------------

  /** The writes that move at least a byte, before the first that fails. */
  function Productive(outs: seq<OutEvent>, j: nat): (n: nat)
    requires j <= |outs|
    decreases |outs| - j
  {
    if j == |outs| || outs[j].WriteFails? then 0
    else Productive(outs, j + 1) + if outs[j].Wrote? && outs[j].n > 0 then 1 else 0
  }

  /** Every such write gets the destination at least a byte further. */
  lemma {:induction false} WritesMakeProgress(ins: seq<InEvent>, outs: seq<OutEvent>, j: nat, p: nat)
    requires j <= |outs| && p <= |Whole(ins)|
    ensures Walked(ins, outs, j, p).reached >= Min(|Whole(ins)|, p + Productive(outs, j))
    decreases |outs| - j
  {
    if p < |Whole(ins)| && j < |outs| && !outs[j].WriteFails? {
      var next := if outs[j].NotWritable? then p else p + Min(outs[j].n, Boundary(ins, 0, p) - p);
      WritesMakeProgress(ins, outs, j + 1, next);
    }
  }

  /** With writes enough everything is delivered; the relay then finishes exactly if the
      source ends. */
  lemma EnoughWritesDeliverAll(ins: seq<InEvent>, outs: seq<OutEvent>)
    requires Productive(outs, 0) >= |Whole(ins)|
    ensures Sent(ins, outs) == Whole(ins)
    ensures Ends(ins, outs).Finished? <==> Source(ins, 0).1
    ensures Ends(ins, outs).Failed? <==> !Source(ins, 0).1 && SourceFails(ins, 0)
  {
    WritesMakeProgress(ins, outs, 0, 0);
  }

  // ---- Both directions --------------------------------------------------------------------

  datatype Both = Relayed(up: nat, down: nat) | Error | Open

  /** The first direction to end decides: an error is the relay's; otherwise the other has
      the drain window, the rest of its script, and counts as nothing if that runs out. */
  predicate Decides(first: Outcome, second: Outcome, abFirst: bool, r: Both)
  {
    && (r.Open? <==> first.Waiting?)
    && (r.Relayed? <==> first.Finished? && !second.Failed?)
    && (r.Relayed? ==>
          && (if abFirst then r.up else r.down) == first.total
          && (if abFirst then r.down else r.up) == if second.Finished? then second.total else 0)
  }

  method RelayBothWays(abIns: seq<InEvent>, abOuts: seq<OutEvent>,
                       baIns: seq<InEvent>, baOuts: seq<OutEvent>, abFirst: bool)
    returns (r: Both, toB: seq<byte>, toA: seq<byte>)
    ensures toB == Sent(abIns, abOuts) && toA == Sent(baIns, baOuts)
    ensures var ab, ba := Ends(abIns, abOuts), Ends(baIns, baOuts);
            Decides(if abFirst then ab else ba, if abFirst then ba else ab, abFirst, r)
  {
    var ab, ba, closedB, closedA;
    ab, toB, closedB := RelayOneDirection(abIns, abOuts);
    ba, toA, closedA := RelayOneDirection(baIns, baOuts);
    var first, second := if abFirst then ab else ba, if abFirst then ba else ab;
    match first {
      case Waiting => r := Open;
      case Failed => r := Error;
      case Finished(total) =>
        if second.Failed? {
          r := Error;
        } else {
          var drained := if second.Finished? then second.total else 0;
          r := if abFirst then Relayed(total, drained) else Relayed(drained, total);
        }
    }
  }

  /** A direction that delivered a byte and was then cut off counts as nothing. */
  lemma CutOffCountsNothing(b: byte)
    ensures Ends([Read([b])], [Wrote(1)]) == Waiting && Sent([Read([b])], [Wrote(1)]) == [b]
  {
    var ins, outs := [Read([b])], [Wrote(1)];
    assert Source(ins, 1) == ([], false);
    assert Source(ins, 0) == ([b] + [], false);
    assert Whole(ins) == [b];
    assert Boundary(ins, 0, 0) == 1;
    assert Walked(ins, outs, 0, 0) == Walked(ins, outs, 1, 1) == Walk(1, false);
    assert Sent(ins, outs) == [b][..1];
    assert !SourceFails(ins, 1);
  }
}
