/** Two Gun streams joined by a wire: everything written at one end, read at the other,
    under every schedule of writes, flushes, partial sends, refragmentation and reads. */
module GunTunnel {
  import opened Bytes
  import opened GunFraming
  import opened GrpcStream

  /** Cut the front of `wire` into chunks of the given sizes. */
  function Cut(wire: seq<byte>, sizes: seq<nat>): (events: seq<RecvEvent>)
  {
    if sizes == [] || wire == [] then []
    else
      var n := Min(sizes[0], |wire|);
      [Chunk(wire[..n])] + Cut(wire[n..], sizes[1..])
  }

  /** Offering everything at once offers nothing empty, and used up leaves nothing. */
  lemma WholeCut(wire: seq<byte>)
    ensures AllChunks(Cut(wire, [|wire|]))
    ensures Delivered(Cut(wire, [|wire|]), |Cut(wire, [|wire|])|) == wire
  {
    if wire != [] {
      assert [|wire|][1..] == [];
      assert wire[..|wire|] == wire;
      assert Cut(wire, [|wire|]) == [Chunk(wire)];
      assert Delivered([Chunk(wire)], 1) == Delivered([Chunk(wire)], 0) + wire;
    }
  }

  lemma {:induction false} CutIsPrefix(wire: seq<byte>, sizes: seq<nat>, k: nat)
    requires k <= |Cut(wire, sizes)|
    ensures Delivered(Cut(wire, sizes), k) <= wire
  {
    if k > 0 {
      var n := Min(sizes[0], |wire|);
      CutIsPrefix(wire[n..], sizes[1..], k - 1);
      FirstCut(wire, n, Cut(wire[n..], sizes[1..]), k);
    }
  }

  lemma FirstCut(wire: seq<byte>, n: nat, rest: seq<RecvEvent>, k: nat)
    requires n <= |wire| && 0 < k <= |rest| + 1 && Delivered(rest, k - 1) <= wire[n..]
    ensures Delivered([Chunk(wire[..n])] + rest, k) <= wire
  {
    DeliveredCons(Chunk(wire[..n]), rest, k - 1);
    PrefixBehind(wire[..n], Delivered(rest, k - 1), wire[n..]);
    assert wire == wire[..n] + wire[n..];
  }

  lemma PrefixBehind(head: seq<byte>, x: seq<byte>, y: seq<byte>)
    requires x <= y
    ensures head + x <= head + y
  {
    assert head + y == (head + x) + y[|x|..];
  }

  lemma {:induction false} DeliveredCons(first: RecvEvent, events: seq<RecvEvent>, k: nat)
    requires k <= |events|
    ensures Delivered([first] + events, k + 1) == Payload(first) + Delivered(events, k)
  {
    var all := [first] + events;
    if k > 0 {
      DeliveredCons(first, events, k - 1);
      assert all[k] == events[k - 1];
      Associative(Payload(first), Delivered(events, k - 1), Payload(events[k - 1]));
    } else {
      assert all[0] == first && Delivered(all, 0) == [];
      assert [] + Payload(first) == Payload(first) == Payload(first) + [];
    }
  }

  lemma OnTheWire(received: seq<byte>, inFlight: seq<byte>, sent: seq<byte>)
    requires received + inFlight <= sent
    ensures received + (inFlight + sent[|received + inFlight|..]) == sent
  {
  }

  // ---- What the two laws say about bytes end to end ----------------------------

  /** At no time has the reader given out anything but a prefix of what was accepted. */
  lemma DeliveredIsPrefix(accepted: seq<byte>, chunks: seq<seq<byte>>, sent: seq<byte>,
                          received: seq<byte>, out: seq<byte>)
    requires Emittable(chunks) && Flatten(chunks) <= accepted
    requires received <= sent <= WireImage(chunks)
    requires out <= DecodeAll(received).data
    ensures out <= accepted
  {
    var wire := WireImage(chunks);
    assert wire == received + wire[|received|..];
    DecodeGrows(received, wire[|received|..]);
    WireRoundTrip(chunks);
  }

  /** Once everything framed has arrived and everything decodable has been given out, all
      of it was delivered, exactly when every chunk left room for the hunk header. */
  lemma ExhaustedIsComplete(chunks: seq<seq<byte>>, recvBuf: seq<byte>, out: seq<byte>)
    requires Emittable(chunks)
    requires Accounts(out, recvBuf, WireImage(chunks)) && NextFrame(recvBuf).NeedMore?
    ensures out == Flatten(chunks) <==> Acceptable(chunks)
  {
    assert DecodeAll(recvBuf) == Decoded([], recvBuf, false);
    WireRoundTrip(chunks);
  }

  /** A rejection means some chunk did not, and then not everything is delivered. */
  lemma RejectedIsIncomplete(chunks: seq<seq<byte>>, received: seq<byte>, out: seq<byte>)
    requires Emittable(chunks) && received <= WireImage(chunks)
    requires RejectedAt(out, received)
    ensures out != Flatten(chunks) && !Acceptable(chunks)
  {
    var more := WireImage(chunks)[|received|..];
    DecodeResumes(received, more);
    assert received + more == WireImage(chunks);
    WireRoundTrip(chunks);
  }

  lemma {:induction false} NoPanicSent(chunks: seq<seq<byte>>)
    requires Emittable(chunks)
    ensures !StopsAtPanic(WireImage(chunks))
  {
    if chunks != [] {
      FrameAcceptedExactly(chunks[0], WireImage(chunks[1..]));
      HunkRoundTrip(chunks[0]);
      NoPanicSent(chunks[1..]);
    }
  }

  lemma {:induction false} PanicStays(buf: seq<byte>, more: seq<byte>)
    requires StopsAtPanic(buf)
    ensures StopsAtPanic(buf + more)
    decreases |buf|
  {
    NextFrameExtends(buf, more);
    if !DecodeHunk(NextFrame(buf).payload).Panicked? {
      PanicStays(NextFrame(buf).rest, more);
    }
  }

  lemma NoPanicReceived(chunks: seq<seq<byte>>, received: seq<byte>)
    requires Emittable(chunks) && received <= WireImage(chunks)
    ensures !StopsAtPanic(received)
  {
    if StopsAtPanic(received) {
      PanicStays(received, WireImage(chunks)[|received|..]);
      assert received + WireImage(chunks)[|received|..] == WireImage(chunks);
      NoPanicSent(chunks);
    }
  }

  lemma {:induction false} NoEmptyMessageSent(chunks: seq<seq<byte>>)
    requires Emittable(chunks)
    ensures !HasEmptyMessage(WireImage(chunks))
  {
    if chunks != [] {
      FrameAcceptedExactly(chunks[0], WireImage(chunks[1..]));
      NoEmptyMessageSent(chunks[1..]);
    }
  }

  lemma {:induction false} EmptyMessageStays(buf: seq<byte>, more: seq<byte>)
    requires HasEmptyMessage(buf)
    ensures HasEmptyMessage(buf + more)
    decreases |buf|
  {
    NextFrameExtends(buf, more);
    if NextFrame(buf).payload != [] {
      EmptyMessageStays(NextFrame(buf).rest, more);
    }
  }

  lemma NoEmptyMessageReceived(chunks: seq<seq<byte>>, received: seq<byte>)
    requires Emittable(chunks) && received <= WireImage(chunks)
    ensures !HasEmptyMessage(received)
  {
    if HasEmptyMessage(received) {
      EmptyMessageStays(received, WireImage(chunks)[|received|..]);
      assert received + WireImage(chunks)[|received|..] == WireImage(chunks);
      NoEmptyMessageSent(chunks);
    }
  }

  // ---- Running it ----------------------------------------------------------------

  datatype Action =
    | Write(bytes: seq<byte>, sends: seq<SendEvent>)
    | Flush(sends: seq<SendEvent>, inner: Poll)
    | Read(room: nat, cuts: seq<nat>)

  class Tunnel {
    const writer: GrpcStream
    const reader: GrpcStream
    var inFlight: seq<byte>
    /** An end whose last call failed is not used again. */
    var writeBroken: bool
    var readBroken: bool
    /** The last action was a read that found nothing more, or met a rejected frame. */
    var readExhausted: bool

    ghost predicate Valid()
      reads this, writer, reader
    {
      && writer != reader
      && WriterEnd()
      && reader.received + inFlight == writer.sent
      && (!readBroken ==> reader.ReaderLaw())
      && (readBroken ==> RejectedAt(reader.delivered, reader.received))
      && (readExhausted && !readBroken ==> reader.readBuf == [] && NextFrame(reader.recvBuf).NeedMore?)
    }

    ghost predicate WriterEnd()
      reads this, writer
    {
      && (!writeBroken ==> writer.WriterLaw() && |writer.pendingPlain| < COALESCE_TARGET_BYTES)
      && Emittable(writer.chunks)
      && writer.sent <= WireImage(writer.chunks)
      && Flatten(writer.chunks) <= writer.accepted
    }

    constructor (overH2: bool)
      ensures Valid() && fresh(writer) && fresh(reader) && !writeBroken && writer.overH2 == overH2
      ensures writer.pendingPlain == []
      ensures writer.accepted == [] && writer.chunks == [] && reader.delivered == []
    {
      writer := new GrpcStream(overH2);
      reader := new GrpcStream(overH2);
      inFlight, writeBroken, readBroken, readExhausted := [], false, false, false;
    }

    /** The bytes given out are a prefix of the bytes accepted. */
    lemma Safety()
      requires Valid()
      ensures reader.delivered <= writer.accepted
    {
      assert reader.received <= writer.sent;
      DeliveredIsPrefix(writer.accepted, writer.chunks, writer.sent, reader.received, reader.delivered);
    }

    /** The writer never emits a hunk the reader crashes on. */
    lemma NeverCrashes()
      requires Valid()
      ensures !StopsAtPanic(reader.received)
    {
      assert reader.received <= writer.sent;
      NoPanicReceived(writer.chunks, reader.received);
    }

    /** Flushed, reader exhausted, and nothing on the wire it could still take. */
    predicate Settled()
      reads this, writer
    {
      && !writeBroken && writer.pendingPlain == [] && writer.writeBuf == []
      && readExhausted && (inFlight == [] || readBroken)
    }

    lemma Completeness()
      requires Valid() && Settled()
      ensures reader.delivered == writer.accepted <==> Acceptable(writer.chunks)
    {
      assert writer.accepted == Flatten(writer.chunks);
      if readBroken {
        RejectedIsIncomplete(writer.chunks, reader.received, reader.delivered);
      } else {
        assert reader.delivered + reader.readBuf == reader.delivered;
        assert reader.received == writer.sent == WireImage(writer.chunks);
        ExhaustedIsComplete(writer.chunks, reader.recvBuf, reader.delivered);
      }
    }

    method DoWrite(bytes: seq<byte>, sends: seq<SendEvent>) returns (taken: seq<byte>, fits: bool)
      requires Valid()
      modifies this, writer
      ensures Valid() && !readExhausted
      ensures writer.accepted == old(writer.accepted) + taken
      ensures Acceptable(writer.chunks) <==> old(Acceptable(writer.chunks)) && fits
      ensures old(!writeBroken) ==> taken == Taken(bytes) && fits == FitsBehind(old(|writer.pendingPlain|), bytes)
      ensures old(!writeBroken) ==> |writer.pendingPlain| == PlainLeft(false, old(|writer.pendingPlain|) + |taken|)
      ensures old(!writeBroken) && AllHarmless(sends, writer.overH2) ==> !writeBroken
      ensures old(writeBroken) ==> writeBroken && taken == []
    {
      readExhausted := false;
      taken, fits := [], true;
      if writeBroken {
        return;
      }
      fits := FitsBehind(|writer.pendingPlain|, bytes);
      var before := |writer.sent|;
      var r, n := writer.PollWrite(bytes, sends);
      taken := bytes[..n];
      OnTheWire(reader.received, inFlight, writer.sent);
      inFlight := inFlight + writer.sent[before..];
      writeBroken := r.Error?;
    }

    method DoFlush(sends: seq<SendEvent>, inner: Poll)
      requires Valid()
      modifies this, writer
      ensures Valid() && !readExhausted
      ensures writer.accepted == old(writer.accepted)
      ensures Acceptable(writer.chunks) <==> old(Acceptable(writer.chunks))
      ensures old(!writeBroken) ==> writer.pendingPlain == []
      ensures old(!writeBroken) && HarmlessAction(Flush(sends, inner), writer.overH2) ==> !writeBroken
      ensures old(!writeBroken && writer.pendingPlain == []) && sends == [Accept(old(|writer.writeBuf|) + 1)]
              && inner.Ready? ==>
                !writeBroken && writer.writeBuf == []
      ensures old(writeBroken) ==> writeBroken
    {
      readExhausted := false;
      if writeBroken {
        return;
      }
      var before := |writer.sent|;
      var r := writer.PollFlush(sends, inner);
      OnTheWire(reader.received, inFlight, writer.sent);
      inFlight := inFlight + writer.sent[before..];
      writeBroken := r.Error?;
    }

    method DoRead(room: nat, cuts: seq<nat>) returns (out: seq<byte>)
      requires Valid()
      modifies this, reader
      ensures Valid()
      ensures reader.delivered == old(reader.delivered) + out
      ensures room > 0 && cuts == [old(|inFlight|)] && old(!readBroken) ==>
                out != [] || (readExhausted && (inFlight == [] || readBroken))
      ensures old(readBroken) ==> readExhausted && readBroken
      ensures writeBroken == old(writeBroken)
    {
      out := [];
      if readBroken {
        readExhausted := true;
      } else {
        var r := ReadFromWire(room, cuts);
        out := if r.Data? then r.out else [];
        readBroken := r.InvalidData? || r.Crash?;
        readExhausted := r.ReadPending? || readBroken;
        NoEmptyMessageReceived(writer.chunks, reader.received);
      }
    }

    /** One poll of the reader against the bytes on the wire. */
    method ReadFromWire(room: nat, cuts: seq<nat>) returns (r: ReadResult)
      requires writer != reader && reader.ReaderLaw() && reader.received + inFlight == writer.sent
      modifies this`inFlight, reader
      ensures reader.received + inFlight == writer.sent
      ensures reader.ReadOutcome(r, room, old(reader.delivered))
      ensures cuts == [old(|inFlight|)] ==> !r.EndOfStream? && !r.TransportError? && (r.ReadPending? ==> inFlight == [])
    {
      var events := Cut(inFlight, cuts);
      var used;
      r, used := reader.PollRead(room, events);
      CutIsPrefix(inFlight, cuts, used);
      var moved := Delivered(events, used);
      Associative(old(reader.received), moved, inFlight[|moved|..]);
      assert inFlight == moved + inFlight[|moved|..];
      inFlight := inFlight[|moved|..];
      if cuts == [|old(inFlight)|] {
        WholeCut(old(inFlight));
      }
    }

    /** One action; what it took, gave out, and whether it fitted. */
    method Perform(action: Action) returns (taken: seq<byte>, out: seq<byte>, fits: bool)
      requires Valid()
      modifies this, writer, reader
      ensures Valid()
      ensures writer.accepted == old(writer.accepted) + taken
      ensures reader.delivered == old(reader.delivered) + out
      ensures Acceptable(writer.chunks) <==> old(Acceptable(writer.chunks)) && fits
      ensures old(!writeBroken) ==> taken == Offer(action) && fits == Fits(old(|writer.pendingPlain|), action)
      ensures old(!writeBroken) ==> |writer.pendingPlain| == WaitingAfter(old(|writer.pendingPlain|), action)
      ensures old(!writeBroken) && HarmlessAction(action, writer.overH2) ==> !writeBroken
      ensures old(writeBroken) ==> writeBroken && taken == []
    {
      taken, out, fits := [], [], true;
      match action {
        case Write(bytes, sends) => taken, fits := DoWrite(bytes, sends);
        case Flush(sends, inner) => DoFlush(sends, inner);
        case Read(room, cuts) => out := DoRead(room, cuts);
      }
    }

    /** The writing end as the schedule sees it. */
    ghost function Now(): (l: Ledger)
      reads this, writer
    {
      Ledger(writer.accepted, Acceptable(writer.chunks), |writer.pendingPlain|, writeBroken)
    }

    /** Action `i` of a schedule keeps its course. */
    method PerformNext(schedule: seq<Action>, i: nat) returns (out: seq<byte>)
      requires Valid() && i < |schedule| && OnCourse(schedule, i, Now())
      modifies this, writer, reader
      ensures Valid() && OnCourse(schedule, i + 1, Now())
      ensures reader.delivered == old(reader.delivered) + out
      ensures old(!writeBroken) && HarmlessAction(schedule[i], writer.overH2) ==> !writeBroken
    {
      ghost var was := Now();
      var taken, fits;
      taken, out, fits := Perform(schedule[i]);
      CourseKept(schedule, i, was, Now(), taken, fits);
    }

    /** Perform a schedule from action `i` on. */
    method Follow(schedule: seq<Action>, i: nat) returns (out: seq<byte>)
      requires Valid() && i <= |schedule| && OnCourse(schedule, i, Now())
      modifies this, writer, reader
      ensures Valid() && OnCourse(schedule, |schedule|, Now())
      ensures reader.delivered == old(reader.delivered) + out
      ensures old(!writeBroken) && AllHarmlessFrom(schedule, i, writer.overH2) ==> !writeBroken
      decreases |schedule| - i
    {
      out := [];
      if i < |schedule| {
        out := PerformNext(schedule, i);
        var rest := Follow(schedule, i + 1);
        Associative(old(reader.delivered), out, rest);
        out := out + rest;
      }
    }

    /** If the writer still works, flush and drain; then compare. */
    method Conclude() returns (out: seq<byte>)
      requires Valid()
      modifies this, writer, reader
      ensures writer.accepted == old(writer.accepted)
      ensures reader.delivered == old(reader.delivered) + out && reader.delivered <= writer.accepted
      ensures old(!writeBroken) ==> (reader.delivered == writer.accepted <==> old(Acceptable(writer.chunks)))
    {
      out := [];
      if !writeBroken {
        out := Settle();
        Completeness();
      }
      Safety();
    }

    /** A whole schedule on a new tunnel, and what was delivered at its end. */
    method FollowAll(schedule: seq<Action>) returns (delivered: seq<byte>)
      requires Valid() && Now() == Ledger([], true, 0, false) && reader.delivered == []
      modifies this, writer, reader
      ensures delivered <= Offered(schedule, 0)
      ensures AllHarmlessFrom(schedule, 0, writer.overH2) ==>
                (delivered == Offered(schedule, 0) <==> EveryWriteFits(schedule, 0, 0))
    {
      CourseBegins(schedule);
      var first := Follow(schedule, 0);
      CourseEnds(schedule, Now());
      var rest := Conclude();
      delivered := first + rest;
      assert [] + first == first;
    }

    /** Flush everything and read until nothing more comes. */
    method Settle() returns (out: seq<byte>)
      requires Valid() && !writeBroken
      modifies this, writer, reader
      ensures Valid() && Settled()
      ensures writer.accepted == old(writer.accepted)
      ensures reader.delivered == old(reader.delivered) + out
      ensures Acceptable(writer.chunks) <==> old(Acceptable(writer.chunks))
    {
      DoFlush([], Ready);
      DoFlush([Accept(|writer.writeBuf| + 1)], Ready);
      out := [];
      var done := false;
      Safety();
      while !done
        invariant Valid() && !writeBroken && writer.pendingPlain == [] && writer.writeBuf == []
        invariant writer.accepted == old(writer.accepted)
        invariant reader.delivered == old(reader.delivered) + out
        invariant Acceptable(writer.chunks) <==> old(Acceptable(writer.chunks))
        invariant done ==> readExhausted && (inFlight == [] || readBroken)
        invariant |reader.delivered| <= |writer.accepted|
        decreases |writer.accepted| - |reader.delivered|, !done
      {
        var more := DoRead(1, [|inFlight|]);
        Safety();
        Associative(old(reader.delivered), out, more);
        out := out + more;
        done := more == [];
      }
    }
  }

  // ---- The condition on a schedule, told from the schedule alone ----------------------

  /** What one write call accepts. */
  function Taken(bytes: seq<byte>): (r: seq<byte>)
  {
    bytes[..Min(|bytes|, MAX_MESSAGE_SIZE)]
  }

  predicate FitsBehind(waiting: nat, bytes: seq<byte>)
  {
    waiting + |Taken(bytes)| <= MAX_MESSAGE_SIZE - 5
  }

  function Offer(action: Action): (r: seq<byte>)
  {
    if action.Write? then Taken(action.bytes) else []
  }

  predicate Fits(waiting: nat, action: Action)
  {
    action.Write? ==> FitsBehind(waiting, action.bytes)
  }

  /** Plain bytes waiting after an action. */
  function WaitingAfter(waiting: nat, action: Action): (r: nat)
  {
    match action
    case Write(bytes, _) => PlainLeft(false, waiting + |Taken(bytes)|)
    case Flush(_, _) => 0
    case Read(_, _) => waiting
  }

  predicate HarmlessAction(action: Action, overH2: bool)
  {
    && (!action.Read? ==> AllHarmless(action.sends, overH2))
    && (action.Flush? ==> overH2 || !action.inner.Error?)
  }

  predicate AllHarmlessFrom(schedule: seq<Action>, i: nat, overH2: bool)
  {
    forall k :: i <= k < |schedule| ==> HarmlessAction(schedule[k], overH2)
  }

  /** Everything the schedule writes from step `i` on. */
  function Offered(schedule: seq<Action>, i: nat): (r: seq<byte>)
    requires i <= |schedule|
    decreases |schedule| - i
  {
    if i == |schedule| then [] else Offer(schedule[i]) + Offered(schedule, i + 1)
  }

  predicate EveryWriteFits(schedule: seq<Action>, i: nat, waiting: nat)
    requires i <= |schedule|
    decreases |schedule| - i
  {
    || i == |schedule|
    || (Fits(waiting, schedule[i]) && EveryWriteFits(schedule, i + 1, WaitingAfter(waiting, schedule[i])))
  }

  /** What has been accepted, whether all of it can be read, what waits, and whether the
      writing end is broken. */
  datatype Ledger = Ledger(accepted: seq<byte>, acceptable: bool, waiting: nat, broken: bool)

  /** The first `i` actions have been performed as the schedule says. */
  predicate OnCourse(schedule: seq<Action>, i: nat, now: Ledger)
    requires i <= |schedule|
  {
    && now.accepted <= Offered(schedule, 0)
    && (!now.broken ==>
          && now.accepted + Offered(schedule, i) == Offered(schedule, 0)
          && (EveryWriteFits(schedule, 0, 0) <==> now.acceptable && EveryWriteFits(schedule, i, now.waiting)))
  }

  lemma CourseBegins(schedule: seq<Action>)
    ensures OnCourse(schedule, 0, Ledger([], true, 0, false))
  {
    assert [] + Offered(schedule, 0) == Offered(schedule, 0);
  }

  lemma CourseEnds(schedule: seq<Action>, now: Ledger)
    requires OnCourse(schedule, |schedule|, now)
    ensures now.accepted <= Offered(schedule, 0)
    ensures !now.broken ==> now.accepted == Offered(schedule, 0) && (now.acceptable <==> EveryWriteFits(schedule, 0, 0))
  {
    assert now.accepted + [] == now.accepted;
  }

  lemma CourseKept(schedule: seq<Action>, i: nat, was: Ledger, now: Ledger, taken: seq<byte>, fits: bool)
    requires i < |schedule| && OnCourse(schedule, i, was)
    requires now.accepted == was.accepted + taken && (now.acceptable <==> was.acceptable && fits)
    requires !was.broken ==> taken == Offer(schedule[i]) && fits == Fits(was.waiting, schedule[i])
    requires !was.broken ==> now.waiting == WaitingAfter(was.waiting, schedule[i])
    requires was.broken ==> now.broken && taken == []
    ensures OnCourse(schedule, i + 1, now)
  {
    Associative(was.accepted, Offer(schedule[i]), Offered(schedule, i + 1));
  }

  /** Any run, of any length, over any transport.  What is delivered is always a prefix of
      what was written.  If no event ended the stream, then after a flush and a drain all
      of it is delivered exactly when every write fitted: the bytes waiting plus the bytes
      written came to at most 16 MiB less five. */
  method Run(overH2: bool, schedule: seq<Action>) returns (delivered: seq<byte>)
    ensures delivered <= Offered(schedule, 0)
    ensures AllHarmlessFrom(schedule, 0, overH2) ==>
              (delivered == Offered(schedule, 0) <==> EveryWriteFits(schedule, 0, 0))
  {
    var tunnel := new Tunnel(overH2);
    delivered := tunnel.FollowAll(schedule);
  }
}
