/** Recovering a raw TCP socket from under the wrappers a handshake may have left, without
    losing the bytes those wrappers still hold. */
module StreamRecovery {
  import opened Bytes

  /** A TCP socket, with the bytes its peer sends from now until it closes. */
  datatype Socket = Socket(fd: nat, incoming: seq<byte>)

  /** A boxed stream by its concrete type.  Pool metadata does not touch the bytes.  A
      Vision or any other wrapper is opaque: all that is known is what it will yield. */
  datatype Stream =
    | Tcp(socket: Socket)
    | PrependedTcp(prefix: seq<byte>, pos: nat, socket: Socket)
    | PooledTcp(socket: Socket)
    | Prepended(prefix: seq<byte>, pos: nat, inner: Stream)
    | Vision(content: seq<byte>)
    | Other(content: seq<byte>)

  datatype Recovery = Recovered(socket: Socket, prefix: seq<byte>) | Refused(stream: Stream)

  /** The part of a prefix not yet served. */
  function Unread(prefix: seq<byte>, pos: nat): (u: seq<byte>)
  {
    if pos >= |prefix| then [] else prefix[pos..]
  }

  /** Everything a reader of the stream still gets. */
  function Yields(s: Stream): (bytes: seq<byte>)
  {
    match s
    case Tcp(socket) => socket.incoming
    case PrependedTcp(prefix, pos, socket) => Unread(prefix, pos) + socket.incoming
    case PooledTcp(socket) => socket.incoming
    case Prepended(prefix, pos, inner) => Unread(prefix, pos) + Yields(inner)
    case Vision(content) => content
    case Other(content) => content
  }

  /** The socket under any number of prefixes, if there is one. */
  predicate OverTcp(s: Stream)
  {
    match s
    case Tcp(_) => true
    case PrependedTcp(_, _, _) => true
    case PooledTcp(_) => true
    case Prepended(_, _, inner) => OverTcp(inner)
    case _ => false
  }

  function Base(s: Stream): (socket: Socket)
    requires OverTcp(s)
  {
    match s
    case Prepended(_, _, inner) => Base(inner)
    case _ => s.socket
  }

  /** A plain socket, a prefixed one and a pooled one give it up; a prefix over a boxed
      stream is joined with what comes out of that stream, or put back in front of it. */
  function TryIntoTcp(s: Stream): (r: Recovery)
  {
    match s
    case Tcp(socket) => Recovered(socket, [])
    case PrependedTcp(prefix, pos, socket) => Recovered(socket, Unread(prefix, pos))
    case PooledTcp(socket) => Recovered(socket, [])
    case Prepended(prefix, pos, inner) =>
      var unread := Unread(prefix, pos);
      (match TryIntoTcp(inner)
       case Recovered(socket, innerPrefix) =>
         if unread == [] then Recovered(socket, innerPrefix)
         else if innerPrefix == [] then Recovered(socket, unread)
         else Recovered(socket, unread + innerPrefix)
       case Refused(stream) => Refused(Prepended(unread, 0, stream)))
    case _ => Refused(s)
  }

  /** Only a socket with nothing buffered in front of it; otherwise the prefix goes back. */
  function TryIntoBareTcp(s: Stream): (r: Recovery)
  {
    match TryIntoTcp(s)
    case Recovered(socket, prefix) =>
      if prefix == [] then Recovered(socket, []) else Refused(PrependedTcp(prefix, 0, socket))
    case Refused(stream) => Refused(stream)
  }

  /** Recovery succeeds exactly over a socket, and either way not a byte is lost, added or
      moved: the prefix and then the socket, or the stream handed back, yield what the
      stream did. */
  lemma {:induction false} RecoveryKeepsTheBytes(s: Stream)
    ensures TryIntoTcp(s).Recovered? <==> OverTcp(s)
    ensures match TryIntoTcp(s)
            case Recovered(socket, prefix) => socket == Base(s) && prefix + socket.incoming == Yields(s)
            case Refused(stream) => Yields(stream) == Yields(s) && !OverTcp(stream)
  {
    match s
    case Prepended(prefix, pos, inner) =>
      RecoveryKeepsTheBytes(inner);
      var unread := Unread(prefix, pos);
      if OverTcp(inner) {
        var r := TryIntoTcp(inner);
        Associative(unread, r.prefix, r.socket.incoming);
        assert r.prefix == [] ==> r.prefix + r.socket.incoming == r.socket.incoming;
        assert unread == [] ==> unread + Yields(inner) == Yields(inner);
      }
    case _ =>
  }

  /** A stream put back can be tried again with the same outcome. */
  lemma {:induction false} RefusedStaysRefused(s: Stream)
    requires !OverTcp(s)
    ensures TryIntoTcp(s).Refused? && TryIntoTcp(TryIntoTcp(s).stream) == TryIntoTcp(s)
  {
    RecoveryKeepsTheBytes(s);
    match s
    case Prepended(prefix, pos, inner) => RefusedStaysRefused(inner);
    case _ =>
  }

  /** How many bytes wait in front of the socket. */
  function Held(s: Stream): (n: nat)
    ensures n <= |Yields(s)|
  {
    match s
    case PrependedTcp(prefix, pos, _) => |Unread(prefix, pos)|
    case Prepended(prefix, pos, inner) => |Unread(prefix, pos)| + Held(inner)
    case _ => 0
  }

  lemma {:induction false} HeldIsThePrefix(s: Stream)
    requires OverTcp(s)
    ensures TryIntoTcp(s).Recovered? && |TryIntoTcp(s).prefix| == Held(s)
  {
    RecoveryKeepsTheBytes(s);
    match s
    case Prepended(prefix, pos, inner) => HeldIsThePrefix(inner);
    case _ =>
  }

  /** The strict form succeeds exactly when no layer holds bytes, and keeps the bytes too. */
  lemma BareRecovery(s: Stream)
    ensures TryIntoBareTcp(s).Recovered? <==> OverTcp(s) && Held(s) == 0
    ensures match TryIntoBareTcp(s)
            case Recovered(socket, _) => socket.incoming == Yields(s)
            case Refused(stream) => Yields(stream) == Yields(s)
  {
    RecoveryKeepsTheBytes(s);
    if OverTcp(s) {
      HeldIsThePrefix(s);
      var r := TryIntoTcp(s);
      assert r.prefix == [] ==> r.prefix + r.socket.incoming == r.socket.incoming;
    }
  }

  /** A prefixed stream being read. */
  class PrependedStream {
    var prefix: seq<byte>
    var prefixPos: nat
    var inner: seq<byte>

    function Remaining(): (bytes: seq<byte>)
      reads this
    {
      Unread(prefix, prefixPos) + inner
    }

    constructor (inner: seq<byte>, prefix: seq<byte>)
      ensures Remaining() == prefix + inner
    {
      this.prefix, this.prefixPos, this.inner := prefix, 0, inner;
    }

    /** One read with room for `room` bytes; `arrived` is how many the inner stream could
        give.  What is read and what remains are what remained before; a read that returns
        nothing, though there was room and bytes had arrived, means the end. */
    method PollRead(room: nat, arrived: nat) returns (chunk: seq<byte>)
      modifies this
      ensures |chunk| <= room
      ensures old(Remaining()) == chunk + Remaining()
      ensures chunk == [] && room > 0 && arrived > 0 ==> old(Remaining()) == []
    {
      if prefixPos < |prefix| {
        var remaining := prefix[prefixPos..];
        var n := Min(|remaining|, room);
        chunk := remaining[..n];
        prefixPos := prefixPos + n;
        assert remaining == chunk + Unread(prefix, prefixPos);
        Associative(chunk, Unread(prefix, prefixPos), inner);
      } else {
        var n := Min(Min(arrived, room), |inner|);
        chunk := inner[..n];
        inner := inner[n..];
        assert old(Remaining()) == chunk + inner;
      }
    }

    /** Giving up the inner stream and the unread prefix. */
    method IntoParts() returns (rest: seq<byte>, unread: seq<byte>)
      ensures unread + rest == Remaining()
    {
      rest := inner;
      unread := if prefixPos >= |prefix| then [] else prefix[prefixPos..];
    }
  }
}
