/** The Gun stream object: a coalescing writer and an incremental reader over a
    transport that may accept or deliver any number of bytes at a time. */
module GrpcStream {
  import opened Bytes
  import opened GunFraming
  import Varint

  const COALESCE_TARGET_BYTES: nat := 16 * 1024

  /** What one attempt to hand bytes to the transport meets.  `Lost` is an HTTP/2
      `send_data` that fails after the bytes left the write buffer. */
  datatype SendEvent = SendPending | SendFailed | Accept(room: nat) | Lost(room: nat)

  /** What one poll of the transport for incoming bytes meets. */
  datatype RecvEvent = RecvPending | RecvFailed | RecvEof | Chunk(bytes: seq<byte>)

  datatype Poll = Pending | Ready | Error

  /** `Crashed`: a hunk whose slice is out of order. */
  datatype Served = Copied(out: seq<byte>) | NothingYet | Malformed | Crashed

  /** One turn of the read loop; `consumed` tells whether the event was taken. */
  datatype Turn = Again | Done(result: ReadResult, consumed: bool)

  datatype ReadResult = Data(out: seq<byte>) | EndOfStream | ReadPending | InvalidData | Crash | TransportError

  /** Everything the first `n` events deliver. */
  function Delivered(events: seq<RecvEvent>, n: nat): (r: seq<byte>)
    requires n <= |events|
  {
    if n == 0 then []
    else Delivered(events, n - 1) + Payload(events[n - 1])
  }

  predicate AllChunks(events: seq<RecvEvent>)
  {
    forall i :: 0 <= i < |events| ==> events[i].Chunk? && events[i].bytes != []
  }

  function Payload(event: RecvEvent): (r: seq<byte>)
  {
    if event.Chunk? then event.bytes else []
  }

  class GrpcStream {
    /** `true` over native HTTP/2, `false` over a plain byte stream. */
    const overH2: bool
    var recvBuf: seq<byte>
    var readBuf: seq<byte>
    var pendingPlain: seq<byte>
    var writeBuf: seq<byte>
    /** Bytes the transport has taken. */
    var sent: seq<byte>

    /** Bytes callers have handed over, and the chunks cut from them so far. */
    ghost var accepted: seq<byte>
    ghost var chunks: seq<seq<byte>>
    /** Bytes taken from the transport, and bytes given to callers. */
    ghost var received: seq<byte>
    ghost var delivered: seq<byte>

    constructor (overH2: bool)
      ensures WriterLaw() && ReaderLaw() && this.overH2 == overH2
      ensures accepted == [] && sent == [] && chunks == [] && received == [] && delivered == []
      ensures pendingPlain == [] && writeBuf == []
    {
      this.overH2 := overH2;
      recvBuf, readBuf, pendingPlain, writeBuf, sent := [], [], [], [], [];
      accepted, chunks, received, delivered := [], [], [], [];
    }

    /** Nothing handed over is lost or duplicated: it is framed and sent, framed and
        waiting, or still plain, in that order. */
    ghost predicate WriterLaw()
      reads this
    {
      Conserved(accepted, chunks, pendingPlain, sent, writeBuf)
    }

    /** Bytes given out, bytes decoded but not given out, and bytes still encoded make up
        exactly what the received bytes decode to. */
    ghost predicate ReaderLaw()
      reads this
    {
      && Accounts(delivered + readBuf, recvBuf, received)
      && FramesLeft(received, recvBuf)
    }

    // ---- Writing ---------------------------------------------------------------

    /** Cut the coalesced bytes into frames: all of them when forced, otherwise only
        while at least 16 KiB wait.  Every cut made is acceptable to the reader exactly
        when no more than 16 MiB less five bytes were waiting. */
    method EncodePendingPlain(force: bool)
      requires WriterLaw()
      modifies this`pendingPlain, this`writeBuf, this`chunks
      ensures WriterLaw()
      ensures force ==> pendingPlain == []
      ensures !force ==> |pendingPlain| < COALESCE_TARGET_BYTES
      ensures |pendingPlain| == PlainLeft(force, |old(pendingPlain)|)
      ensures Acceptable(chunks) <==>
              old(Acceptable(chunks)) && |old(pendingPlain)| <= MAX_MESSAGE_SIZE - 5
      ensures |old(pendingPlain)| == 0 ==> chunks == old(chunks) && writeBuf == old(writeBuf)
      ensures force && |old(pendingPlain)| > 0 ==> writeBuf != []
    {
      while pendingPlain != [] && (force || |pendingPlain| >= COALESCE_TARGET_BYTES)
        invariant WriterLaw()
        invariant |pendingPlain| <= |old(pendingPlain)|
        invariant PlainLeft(force, |pendingPlain|) == PlainLeft(force, |old(pendingPlain)|)
        invariant |pendingPlain| == |old(pendingPlain)| ==> chunks == old(chunks) && writeBuf == old(writeBuf)
        invariant |pendingPlain| < |old(pendingPlain)| ==>
                    (Acceptable(chunks) <==> old(Acceptable(chunks)) && |old(pendingPlain)| <= MAX_MESSAGE_SIZE - 5)
        invariant |pendingPlain| < |old(pendingPlain)| ==> writeBuf != []
        invariant |pendingPlain| < |old(pendingPlain)| <= MAX_MESSAGE_SIZE ==> pendingPlain == []
        decreases |pendingPlain|
      {
        CutFrame();
      }
    }

    /** Move one chunk of the plain bytes into the write buffer as a frame. */
    method CutFrame()
      requires WriterLaw() && pendingPlain != []
      modifies this`pendingPlain, this`writeBuf, this`chunks
      ensures WriterLaw() && writeBuf != []
      ensures pendingPlain == old(pendingPlain[Min(|pendingPlain|, MAX_MESSAGE_SIZE)..])
      ensures Acceptable(chunks) <==> old(Acceptable(chunks) && |pendingPlain| <= MAX_MESSAGE_SIZE - 5)
    {
      var payloadLen := Min(|pendingPlain|, MAX_MESSAGE_SIZE);
      var payload := pendingPlain[..payloadLen];
      pendingPlain := pendingPlain[payloadLen..];
      var frame := AssembleFrame(payload);
      FrameCut(accepted, chunks, old(pendingPlain), sent, writeBuf, payloadLen);
      writeBuf := writeBuf + frame;
      chunks := chunks + [payload];
    }

    /** The frame as the writer lays it out: the length computed ahead, then the hunk. */
    static method AssembleFrame(payload: seq<byte>) returns (frame: seq<byte>)
      requires |payload| <= MAX_MESSAGE_SIZE
      ensures frame == GunFrame(payload)
    {
      var varintLen := Varint.PrecomputedLength(|payload|);
      HunkLength(payload);
      var header := [0x00] + U32(1 + varintLen + |payload|);
      var hunk := Varint.PutVarint(|payload|, [0x0A]);
      frame := header + (hunk + payload);
    }

    /** Hand the write buffer to the transport until it is empty or an event stops it.
        Whatever happens, the bytes sent stay a prefix of the framed stream, and unless
        an error is reported nothing is dropped. */
    method Drain(events: seq<SendEvent>) returns (r: Poll)
      requires WriterLaw()
      modifies this`sent, this`writeBuf
      ensures !r.Error? ==> WriterLaw()
      ensures r.Ready? <==> writeBuf == [] && !r.Error?
      ensures old(sent) <= sent <= WireImage(chunks)
      ensures AllHarmless(events, overH2) ==> !r.Error?
      ensures events != [] && events[0].Accept? && events[0].room >= old(|writeBuf|) ==> r.Ready?
    {
      var i := 0;
      while writeBuf != []
        invariant 0 <= i <= |events|
        invariant WriterLaw() && old(sent) <= sent
        invariant if i == 0 then writeBuf == old(writeBuf)
                  else events[0].Accept? && (events[0].room >= old(|writeBuf|) ==> writeBuf == [])
        decreases |events| - i
      {
        if i == |events| {
          return Pending;
        }
        match events[i] {
          case SendPending => return Pending;
          case SendFailed => return Error;
          case Accept(room) =>
            if room == 0 {
              return if overH2 then Pending else Error;
            }
            var n := Min(room, |writeBuf|);
            sent := sent + writeBuf[..n];
            writeBuf := writeBuf[n..];
          case Lost(room) =>
            if !overH2 || room == 0 {
              return if overH2 then Pending else Error;
            }
            writeBuf := writeBuf[Min(room, |writeBuf|)..];
            return Error;
        }
        i := i + 1;
      }
      r := Ready;
    }

    /** Accept up to 16 MiB of `buf`, frame what has coalesced, and push what the
        transport takes.  A pending transport does not fail the write. */
    method PollWrite(buf: seq<byte>, events: seq<SendEvent>) returns (r: Poll, n: nat)
      requires WriterLaw()
      modifies this`pendingPlain, this`writeBuf, this`chunks, this`sent, this`accepted
      ensures n == Min(|buf|, MAX_MESSAGE_SIZE) && !r.Pending?
      ensures accepted == old(accepted) + buf[..n]
      ensures |pendingPlain| == PlainLeft(false, old(|pendingPlain|) + n)
      ensures AllHarmless(events, overH2) ==> !r.Error?
      ensures !r.Error? ==> WriterLaw() && |pendingPlain| < COALESCE_TARGET_BYTES
      ensures Emittable(chunks) && old(sent) <= sent <= WireImage(chunks) && Flatten(chunks) <= accepted
      ensures old(|pendingPlain|) < COALESCE_TARGET_BYTES ==>
                (Acceptable(chunks) <==> old(Acceptable(chunks)) && old(|pendingPlain|) + n <= MAX_MESSAGE_SIZE - 5)
    {
      n := Min(|buf|, MAX_MESSAGE_SIZE);
      Associative(Flatten(chunks), pendingPlain, buf[..n]);
      pendingPlain := pendingPlain + buf[..n];
      accepted := accepted + buf[..n];
      EncodePendingPlain(false);
      r := Drain(events);
      if r.Pending? {
        r := Ready;
      }
    }

    /** Frame everything that waits and push it all out; over a plain byte stream `inner` is
        that stream's answer to being flushed in turn. */
    method PollFlush(events: seq<SendEvent>, inner: Poll) returns (r: Poll)
      requires WriterLaw()
      modifies this`pendingPlain, this`writeBuf, this`chunks, this`sent
      ensures !r.Error? ==> WriterLaw()
      ensures Emittable(chunks) && Flatten(chunks) == accepted && pendingPlain == []
      ensures old(sent) <= sent <= WireImage(chunks)
      ensures r.Ready? ==> sent == WireImage(chunks) && (overH2 || inner.Ready?)
      ensures AllHarmless(events, overH2) && (overH2 || !inner.Error?) ==> !r.Error?
      ensures old(pendingPlain) == [] && events != [] && events[0].Accept? && events[0].room >= old(|writeBuf|) ==>
                sent == WireImage(chunks) && r == if overH2 then Ready else inner
      ensures Acceptable(chunks) <==> old(Acceptable(chunks)) && old(|pendingPlain|) <= MAX_MESSAGE_SIZE - 5
    {
      EncodePendingPlain(true);
      r := Drain(events);
      if r.Ready? && !overH2 {
        r := inner;
      }
    }

    /** Frame what waits and close, with `closing` as the transport's answer to that.  HTTP/2
        drains first; a plain byte stream is closed at once, and what is not yet sent never
        will be. */
    method PollShutdown(events: seq<SendEvent>, closing: Poll) returns (r: Poll)
      requires WriterLaw()
      modifies this`pendingPlain, this`writeBuf, this`chunks, this`sent
      ensures Emittable(chunks) && Flatten(chunks) == accepted
      ensures r.Ready? ==> (sent == WireImage(chunks) <==> overH2 || old(pendingPlain == [] && writeBuf == []))
      ensures !overH2 ==> r == closing && sent == old(sent)
      ensures overH2 && closing.Error? ==> !r.Ready?
      ensures overH2 && AllHarmless(events, overH2) && !closing.Error? ==> !r.Error?
    {
      EncodePendingPlain(true);
      if !overH2 {
        return closing;
      }
      r := Drain(events);
      if r.Ready? && closing.Error? {
        r := Error;
      }
    }

    // ---- Reading ---------------------------------------------------------------

    /** Hand over decoded bytes that are waiting. */
    method CopyOut(room: nat) returns (out: seq<byte>)
      requires ReaderLaw() && readBuf != []
      modifies this`readBuf, this`delivered
      ensures ReaderLaw() && delivered == old(delivered) + out
      ensures out == old(readBuf)[..|out|] && readBuf == old(readBuf)[|out|..]
      ensures |out| <= room && (room > 0 ==> out != [])
    {
      var n := Min(|readBuf|, room);
      out := readBuf[..n];
      Associative(delivered, out, readBuf[n..]);
      assert readBuf == out + readBuf[n..];
      delivered := delivered + out;
      readBuf := readBuf[n..];
    }

    /** Copy decoded bytes out, decoding frames from the receive buffer as needed.  An
        empty message ends the attempt even when more frames are buffered behind it. */
    method ServeDecodedFrames(room: nat) returns (r: Served)
      requires ReaderLaw()
      modifies this`recvBuf, this`readBuf, this`delivered
      ensures delivered == old(delivered) + if r.Copied? then r.out else []
      ensures r.Malformed? || r.Crashed? ==> RejectedAt(delivered, received) && (r.Crashed? <==> StopsAtPanic(received))
      ensures !(r.Malformed? || r.Crashed?) ==> ReaderLaw()
      ensures r.Copied? ==> |r.out| <= room && (room > 0 ==> r.out != [])
      ensures r.NothingYet? ==> readBuf == []
      ensures r.NothingYet? <==> old(readBuf == [] && Waits(recvBuf))
      ensures r.NothingYet? ==> NextFrame(recvBuf).NeedMore? || HasEmptyMessage(received)
    {
      while true
        invariant ReaderLaw() && delivered == old(delivered)
        invariant readBuf == [] && Waits(recvBuf) <==> old(readBuf == [] && Waits(recvBuf))
        decreases |recvBuf|, |readBuf|
      {
        if readBuf != [] {
          var out := CopyOut(room);
          return Copied(out);
        }
        assert delivered + readBuf == delivered;
        var frame := NextFrame(recvBuf);
        FrameTaken(delivered, recvBuf, received);
        FrameDropped(received, recvBuf);
        StopsTogether(received, recvBuf);
        if frame.BadFrame? {
          return Malformed;
        }
        if frame.NeedMore? {
          return NothingYet;
        }
        recvBuf := frame.rest;
        if frame.payload == [] {
          return NothingYet;
        }
        var hunk := DecodeHunk(frame.payload);
        if !hunk.HunkData? {
          return if hunk.Panicked? then Crashed else Malformed;
        }
        readBuf := hunk.data;
      }
    }

    /** Serve buffered data, or feed the receive buffer from the transport until data
        can be served. `used` counts the events consumed. */
    method PollRead(room: nat, events: seq<RecvEvent>) returns (r: ReadResult, used: nat)
      requires ReaderLaw()
      modifies this`recvBuf, this`readBuf, this`delivered, this`received
      ensures used <= |events| && received == old(received) + Delivered(events, used)
      ensures AllChunks(events) ==> !r.EndOfStream? && !r.TransportError? && (r.ReadPending? ==> used == |events|)
      ensures ReadOutcome(r, room, old(delivered))
    {
      used := 0;
      ghost var from, before := received, delivered;
      assert from + [] == from;
      while used < |events|
        invariant used <= |events| && received == from + Delivered(events, used)
        invariant ReaderLaw() && delivered == before
      {
        var turn := ServeOrReceive(room, events[used], before);
        if turn.Again? || turn.consumed {
          Associative(from, Delivered(events, used), Payload(events[used]));
          used := used + 1;
        }
        if turn.Done? {
          return turn.result, used;
        }
      }
      var last := ServeOrReceive(room, RecvPending, before);
      r := last.result;
    }

    /** One turn of the read loop: serve, and failing that take one event. */
    method ServeOrReceive(room: nat, event: RecvEvent, ghost before: seq<byte>) returns (t: Turn)
      requires ReaderLaw() && delivered == before
      modifies this`recvBuf, this`readBuf, this`delivered, this`received
      ensures t.Done? && !t.consumed ==> received == old(received)
      ensures t.Again? || t.consumed ==> received == old(received) + Payload(event)
      ensures t.Again? ==> event.Chunk? && ReaderLaw() && delivered == before
      ensures t.Done? ==> t.consumed == !(t.result.Data? || t.result.InvalidData? || t.result.Crash?)
      ensures event.Chunk? && event.bytes != [] ==> t.Again? || !t.consumed
      ensures event.RecvPending? ==>
                t.Done? && !t.result.EndOfStream? && !t.result.TransportError? && received == old(received)
      ensures t.Done? ==> ReadOutcome(t.result, room, before)
    {
      var served := ServeDecodedFrames(room);
      if !served.NothingYet? {
        return Done(if served.Copied? then Data(served.out) else if served.Crashed? then Crash else InvalidData, false);
      }
      t := Receive(event);
    }

    /** What a finished read guarantees. */
    ghost predicate ReadOutcome(r: ReadResult, room: nat, before: seq<byte>)
      reads this
    {
      && (if r.InvalidData? || r.Crash? then RejectedAt(delivered, received) else ReaderLaw())
      && (r.InvalidData? ==> !StopsAtPanic(received)) && (r.Crash? ==> StopsAtPanic(received))
      && delivered == before + (if r.Data? then r.out else [])
      && (r.Data? ==> |r.out| <= room && (room > 0 ==> r.out != []))
      && (r.ReadPending? ==> readBuf == [] && (NextFrame(recvBuf).NeedMore? || HasEmptyMessage(received)))
    }

    /** Take one event from the transport: a chunk goes to the receive buffer and the
        poll goes on, anything else ends it. */
    method Receive(event: RecvEvent) returns (t: Turn)
      requires ReaderLaw()
      modifies this`recvBuf, this`received
      ensures ReaderLaw() && received == old(received) + Payload(event)
      ensures t.Again? ==> event.Chunk?
      ensures event.RecvPending? ==> t == Done(ReadPending, true) && received == old(received)
      ensures event.Chunk? && event.bytes != [] ==> t.Again?
      ensures t.Done? ==> t.consumed && !t.result.Data? && !t.result.InvalidData? && !t.result.Crash?
      ensures t.Done? && t.result.ReadPending? ==> received == old(received) && recvBuf == old(recvBuf)
    {
      ChunkArrived(delivered + readBuf, recvBuf, received, Payload(event));
      FramesLeftExtends(received, recvBuf, Payload(event));
      received := received + Payload(event);
      recvBuf := recvBuf + Payload(event);
      match event {
        case RecvPending => return Done(ReadPending, true);
        case RecvFailed => return Done(TransportError, true);
        case RecvEof => return Done(EndOfStream, true);
        case Chunk(bytes) => return if bytes == [] && !overH2 then Done(EndOfStream, true) else Again;
      }
    }
  }

  /** How many plain bytes are left uncut of `n`. */
  function PlainLeft(force: bool, n: nat): (left: nat)
  {
    if n > 0 && (force || n >= COALESCE_TARGET_BYTES) then PlainLeft(force, n - Min(n, MAX_MESSAGE_SIZE)) else n
  }

  /** An event that does not end the stream. */
  predicate Harmless(event: SendEvent, overH2: bool)
  {
    match event
    case SendPending => true
    case SendFailed => false
    case Accept(room) => room > 0 || overH2
    case Lost(room) => room == 0 && overH2
  }

  predicate AllHarmless(events: seq<SendEvent>, overH2: bool)
  {
    forall i :: 0 <= i < |events| ==> Harmless(events[i], overH2)
  }

  /** Every byte accepted is in a chunk or still plain; every chunk's frame is sent or
      waiting; both in order. */
  ghost predicate Conserved(accepted: seq<byte>, chunks: seq<seq<byte>>, pending: seq<byte>,
                            sent: seq<byte>, waiting: seq<byte>)
  {
    && Emittable(chunks)
    && sent + waiting == WireImage(chunks)
    && accepted == Flatten(chunks) + pending
  }

  lemma FrameAppended(chunks: seq<seq<byte>>, payload: seq<byte>)
    requires Emittable(chunks) && 1 <= |payload| <= MAX_MESSAGE_SIZE
    ensures Emittable(chunks + [payload])
    ensures WireImage(chunks + [payload]) == WireImage(chunks) + GunFrame(payload)
    ensures Flatten(chunks + [payload]) == Flatten(chunks) + payload
    ensures Acceptable(chunks + [payload]) <==> Acceptable(chunks) && |payload| <= MAX_MESSAGE_SIZE - 5
  {
    WireImageSnoc(chunks, payload);
    FlattenSnoc(chunks, payload);
    assert forall i :: 0 <= i < |chunks| ==> (chunks + [payload])[i] == chunks[i];
    assert (chunks + [payload])[|chunks|] == payload;
  }

  /** Cutting the first `n` plain bytes into a frame conserves the stream. */
  lemma FrameCut(accepted: seq<byte>, chunks: seq<seq<byte>>, pending: seq<byte>,
                 sent: seq<byte>, waiting: seq<byte>, n: nat)
    requires Conserved(accepted, chunks, pending, sent, waiting)
    requires 1 <= n <= |pending| && n <= MAX_MESSAGE_SIZE
    ensures Conserved(accepted, chunks + [pending[..n]], pending[n..], sent, waiting + GunFrame(pending[..n]))
    ensures Acceptable(chunks + [pending[..n]]) <==> Acceptable(chunks) && n <= MAX_MESSAGE_SIZE - 5
  {
    var payload := pending[..n];
    FrameAppended(chunks, payload);
    assert pending == payload + pending[n..];
    Associative(Flatten(chunks), payload, pending[n..]);
    Associative(sent, waiting, GunFrame(payload));
  }

  /** `out` and the decoding of `recvBuf` make up the decoding of `received`. */
  ghost predicate Accounts(out: seq<byte>, recvBuf: seq<byte>, received: seq<byte>)
  {
    Complements(out, DecodeAll(recvBuf), DecodeAll(received))
  }

  predicate Complements(out: seq<byte>, ahead: Decoded, whole: Decoded)
  {
    && whole.data == out + ahead.data
    && whole.failed == ahead.failed
    && (!ahead.failed ==> whole.rest == ahead.rest)
  }

  /** The received bytes hold a frame or hunk that is rejected, and everything before
      it has been given out. */
  ghost predicate RejectedAt(out: seq<byte>, received: seq<byte>)
  {
    DecodeAll(received).failed && DecodeAll(received).data == out
  }

  lemma FrameTaken(out: seq<byte>, recvBuf: seq<byte>, received: seq<byte>)
    requires Accounts(out, recvBuf, received)
    ensures match NextFrame(recvBuf)
            case NeedMore => true
            case BadFrame => RejectedAt(out, received)
            case Next(payload, rest) =>
              match DecodeHunk(payload)
              case HunkData(data) => Accounts(out + data, rest, received)
              case _ => RejectedAt(out, received)
  {
    match NextFrame(recvBuf)
    case NeedMore =>
    case BadFrame =>
    case Next(payload, rest) =>
      match DecodeHunk(payload) {
        case HunkData(data) => assert out + (data + DecodeAll(rest).data) == (out + data) + DecodeAll(rest).data;
        case _ =>
      }
  }

  lemma ComplementsJoin(out: seq<byte>, ahead: Decoded, whole: Decoded, tail: Decoded, ahead': Decoded, whole': Decoded)
    requires Complements(out, ahead, whole) && Joins(ahead, tail, ahead') && Joins(whole, tail, whole')
    ensures Complements(out, ahead', whole')
  {
    assert (out + ahead.data) + tail.data == out + (ahead.data + tail.data);
  }

  lemma ChunkArrived(out: seq<byte>, recvBuf: seq<byte>, received: seq<byte>, bytes: seq<byte>)
    requires Accounts(out, recvBuf, received)
    ensures Accounts(out, recvBuf + bytes, received + bytes)
  {
    var ahead, whole := DecodeAll(recvBuf), DecodeAll(received);
    DecodeResumes(received, bytes);
    DecodeResumes(recvBuf, bytes);
    var tail := DecodeAll(ahead.rest + bytes);
    if ahead.failed {
    } else {
      ComplementsJoin(out, ahead, whole, tail, DecodeAll(recvBuf + bytes), DecodeAll(received + bytes));
    }
  }

  // ---- When a read waits ------------------------------------------------------

  /** Some complete frame ahead carries no message at all. */
  predicate HasEmptyMessage(buf: seq<byte>)
    decreases |buf|
  {
    match NextFrame(buf)
    case Next(payload, rest) => payload == [] || HasEmptyMessage(rest)
    case _ => false
  }

  /** Serving from `buf` ends without data and without an error. */
  predicate Waits(buf: seq<byte>)
    decreases |buf|
  {
    match NextFrame(buf)
    case NeedMore => true
    case BadFrame => false
    case Next(payload, rest) => payload == [] || (DecodeHunk(payload) == HunkData([]) && Waits(rest))
  }

  /** An empty message comes before any frame with data or any frame that is rejected. */
  predicate EmptyMessageFirst(buf: seq<byte>)
    decreases |buf|
  {
    match NextFrame(buf)
    case Next(payload, rest) => payload == [] || (DecodeHunk(payload) == HunkData([]) && EmptyMessageFirst(rest))
    case _ => false
  }

  /** A read waits exactly when nothing can be decoded, or when an empty message hides
      what could be: the reader then asks the transport for more with data in hand. */
  lemma {:induction false} WaitsExactly(buf: seq<byte>)
    ensures Waits(buf) <==> EmptyMessageFirst(buf) || (DecodeAll(buf).data == [] && !DecodeAll(buf).failed)
    decreases |buf|
  {
    if NextFrame(buf).Next? {
      WaitsExactly(NextFrame(buf).rest);
    }
  }

  /** The case that makes the condition necessary: one empty message in front of a
      complete frame, and the read waits although a byte is ready. */
  lemma EmptyMessageHidesData()
    ensures var buf := Frame([]) + GunFrame([65]);
            Waits(buf) && DecodeAll(buf).data == [65] && !DecodeAll(buf).failed
  {
    var data := [65];
    var tail := GunFrame(data);
    var buf := Frame([]) + tail;
    assert buf[1..5] == [0, 0, 0, 0];
    assert buf[5..5] == [] && buf[5..] == tail;
    assert NextFrame(buf) == Next([], tail);
    FrameAcceptedExactly(data, []);
    HunkRoundTrip(data);
    assert tail + [] == tail;
    assert DecodeAll(tail) == Decoded(data + DecodeAll([]).data, [], false);
  }

  /** `left` is what remains of `whole` after some complete and sound frames were taken off. */
  predicate FramesLeft(whole: seq<byte>, left: seq<byte>)
    decreases |whole|
  {
    || whole == left
    || (&& NextFrame(whole).Next? && DecodeHunk(NextFrame(whole).payload).HunkData?
        && FramesLeft(NextFrame(whole).rest, left))
  }

  lemma {:induction false} FramesLeftExtends(whole: seq<byte>, left: seq<byte>, more: seq<byte>)
    requires FramesLeft(whole, left)
    ensures FramesLeft(whole + more, left + more)
    decreases |whole|
  {
    if whole != left {
      NextFrameExtends(whole, more);
      FramesLeftExtends(NextFrame(whole).rest, left, more);
    }
  }

  lemma {:induction false} FrameDropped(whole: seq<byte>, left: seq<byte>)
    requires FramesLeft(whole, left)
    ensures NextFrame(left).Next? && DecodeHunk(NextFrame(left).payload).HunkData? ==>
              FramesLeft(whole, NextFrame(left).rest)
    ensures HasEmptyMessage(left) ==> HasEmptyMessage(whole)
    decreases |whole|
  {
    if whole != left {
      FrameDropped(NextFrame(whole).rest, left);
    } else if NextFrame(left).Next? {
      assert FramesLeft(NextFrame(left).rest, NextFrame(left).rest);
    }
  }

  /** Decoding stops at a hunk whose slice is out of order. */
  predicate StopsAtPanic(buf: seq<byte>)
    decreases |buf|
  {
    match NextFrame(buf)
    case Next(payload, rest) =>
      DecodeHunk(payload).Panicked? || (DecodeHunk(payload).HunkData? && StopsAtPanic(rest))
    case _ => false
  }

  lemma {:induction false} StopsTogether(whole: seq<byte>, left: seq<byte>)
    requires FramesLeft(whole, left)
    ensures StopsAtPanic(whole) <==> StopsAtPanic(left)
    decreases |whole|
  {
    if whole != left {
      StopsTogether(NextFrame(whole).rest, left);
    }
  }
}
