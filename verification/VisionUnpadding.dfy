/** The XTLS Vision unpadder: an incremental parser that strips uuid, frame headers and
    padding from a byte stream, and then lets the rest through.

    `Unpad` is the unpadder one byte at a time; `Feed` works on pieces as the source does;
    the theorems relate both to the frames that were written. */
module VisionUnpadding {
  import opened Bytes

  const UUID_SIZE: nat := 16
  const HEADER_SIZE: nat := 5
  const COMMAND_CONTINUE: byte := 0
  const COMMAND_DIRECT: byte := 2

  datatype State = State(command: int, content: int, padding: int, current: int)

  const INITIAL: State := State(-1, -1, -1, 0)

  predicate Idle(s: State)
  {
    s.command == -1 && s.content == -1 && s.padding == -1
  }

  /** Inside a frame: header bytes to come, or content or padding to come. */
  predicate Busy(s: State)
  {
    && 0 <= s.command <= 5
    && (s.command <= 3 ==> s.content >= 0)
    && (s.command <= 1 ==> s.padding >= 0)
    && (s.command == 0 ==> s.content > 0 || s.padding > 0)
  }

  /** Reading one byte.  A low length byte is or-ed into a value whose low byte is zero (see
      `LowByteStaysClear`), which adds it. */
  function Consume(s: State, b: byte): (r: State)
    requires Busy(s)
  {
    if s.command == 5 then s.(current := b, command := 4)
    else if s.command == 4 then s.(content := b as int * 256, command := 3)
    else if s.command == 3 then s.(content := s.content + b, command := 2)
    else if s.command == 2 then s.(padding := b as int * 256, command := 1)
    else if s.command == 1 then s.(padding := s.padding + b, command := 0)
    else if s.content > 0 then s.(content := s.content - 1)
    else s.(padding := s.padding - 1)
  }

  /** At the end of a frame: on to the next header, or out of the framing. */
  function Settle(s: State): (r: State)
  {
    if s.command <= 0 && s.content <= 0 && s.padding <= 0 then
      if s.current == COMMAND_CONTINUE then s.(command := 5)
      else State(-1, -1, -1, s.current)
    else s
  }

  datatype Fed = Fed(state: State, out: seq<byte>, direct: bool)

  function Prepend(out: seq<byte>, direct: bool, rest: Fed): (r: Fed)
  {
    Fed(rest.state, out + rest.out, direct || rest.direct)
  }

  predicate Emits(s: State)
  {
    s.command == 0 && s.content > 0
  }

  /** The unpadder byte by byte: inside the framing, then passing everything through. */
  function Unpad(s: State, input: seq<byte>): (r: Fed)
    requires Busy(s) || Idle(s)
    ensures Busy(r.state) || Idle(r.state)
    decreases |input|
  {
    if input == [] || Idle(s) then Fed(s, input, false)
    else
      var t := Settle(Consume(s, input[0]));
      Prepend(if Emits(s) then [input[0]] else [], Idle(t) && t.current == COMMAND_DIRECT, Unpad(t, input[1..]))
  }

  /** A piece of input, as `Feed` treats it: outside the framing a piece that is long
      enough and starts with the uuid opens it; any other piece passes through. */
  function FeedPiece(uuid: seq<byte>, s: State, piece: seq<byte>): (r: Fed)
    requires |uuid| == UUID_SIZE && (Busy(s) || Idle(s))
    ensures Busy(r.state) || Idle(r.state)
  {
    if Idle(s) && |piece| >= 21 && piece[..16] == uuid then Unpad(s.(command := 5), piece[16..])
    else Unpad(s, piece)
  }

  lemma JoinFed(x: seq<byte>, d: bool, y: seq<byte>, e: bool, rest: Fed)
    ensures Prepend(x, d, Prepend(y, e, rest)) == Prepend(x + y, d || e, rest)
  {
    Associative(x, y, rest.out);
  }

  /** Between the two bytes of a length its low byte is zero. */
  predicate LowByteClear(s: State)
  {
    (s.command == 3 ==> s.content % 256 == 0) && (s.command == 1 ==> s.padding % 256 == 0)
  }

  lemma {:induction false} LowByteStaysClear(s: State, input: seq<byte>)
    requires (Busy(s) || Idle(s)) && LowByteClear(s)
    ensures LowByteClear(Unpad(s, input).state)
    decreases |input|
  {
    if input != [] && !Idle(s) {
      LowByteStaysClear(Settle(Consume(s, input[0])), input[1..]);
    }
  }

  // ---- The byte-wise unpadder does not see piece boundaries ------------------------------

  lemma {:induction false} UnpadSplits(s: State, a: seq<byte>, b: seq<byte>)
    requires Busy(s) || Idle(s)
    ensures var first := Unpad(s, a);
            Unpad(s, a + b) == Prepend(first.out, first.direct, Unpad(first.state, b))
    decreases |a|
  {
    if a == [] || Idle(s) {
      assert a == [] ==> a + b == b;
      assert b == [] ==> a + b == a;
    } else {
      var t := Settle(Consume(s, a[0]));
      UnpadSplits(t, a[1..], b);
      assert (a + b)[0] == a[0] && (a + b)[1..] == a[1..] + b;
      var out0 := if Emits(s) then [a[0]] else [];
      var first := Unpad(t, a[1..]);
      JoinFed(out0, Idle(t) && t.current == COMMAND_DIRECT, first.out, first.direct, Unpad(first.state, b));
    }
  }

  /** A stretch of content is copied whole. */
  lemma {:induction false} CopyStretch(s: State, input: seq<byte>, n: nat)
    requires Busy(s) && Emits(s) && 1 <= n <= s.content && n <= |input|
    ensures var t := Settle(s.(content := s.content - n));
            && (Busy(t) || Idle(t))
            && Unpad(s, input) == Prepend(input[..n], Idle(t) && t.current == COMMAND_DIRECT, Unpad(t, input[n..]))
    decreases n
  {
    if n > 1 {
      var s1 := Consume(s, input[0]);
      CopyStretch(s1, input[1..], n - 1);
      assert input[1..][..n - 1] == input[1..n] && input[1..][n - 1..] == input[n..];
      assert [input[0]] + input[1..n] == input[..n];
      Associative([input[0]], input[1..n], Unpad(Settle(s.(content := s.content - n)), input[n..]).out);
    } else {
      assert input[..1] == [input[0]];
    }
  }

  /** A stretch of padding is skipped whole. */
  lemma {:induction false} SkipStretch(s: State, input: seq<byte>, n: nat)
    requires Busy(s) && s.command == 0 && s.content == 0 && 1 <= n <= s.padding && n <= |input|
    ensures var t := Settle(s.(padding := s.padding - n));
            && (Busy(t) || Idle(t))
            && Unpad(s, input) == Prepend([], Idle(t) && t.current == COMMAND_DIRECT, Unpad(t, input[n..]))
    decreases n
  {
    if n > 1 {
      SkipStretch(Consume(s, input[0]), input[1..], n - 1);
      assert input[1..][n - 1..] == input[n..];
    }
  }

  /** How many bytes one turn of the loop takes. */
  function Stretch(s: State, available: nat): (n: nat)
    requires Busy(s) && available > 0
    ensures 0 < n <= available
  {
    if s.command > 0 then 1 else Min(if s.content > 0 then s.content else s.padding, available)
  }

  function Moved(s: State, b: byte, n: nat): (r: State)
    requires Busy(s)
  {
    if s.command > 0 then Consume(s, b)
    else if s.content > 0 then s.(content := s.content - n)
    else s.(padding := s.padding - n)
  }

  /** One turn of the loop is as many bytes of the byte-wise unpadder. */
  lemma StretchIsRun(s: State, input: seq<byte>)
    requires Busy(s) && input != []
    ensures var n := Stretch(s, |input|); var t := Settle(Moved(s, input[0], n));
            && (Busy(t) || Idle(t))
            && Unpad(s, input)
               == Prepend(if Emits(s) then input[..n] else [],
                          Idle(t) && t.current == COMMAND_DIRECT, Unpad(t, input[n..]))
  {
    if s.command == 0 {
      var n := Stretch(s, |input|);
      if s.content > 0 {
        CopyStretch(s, input, n);
      } else {
        SkipStretch(s, input, n);
      }
    }
  }

  /** The same within a longer input. */
  lemma TurnIsRun(s: State, input: seq<byte>, pos: nat, more: seq<byte>, next: nat, t: State)
    requires Busy(s) && pos < |input|
    requires next == pos + Stretch(s, |input| - pos) && more == if Emits(s) then input[pos..next] else []
    requires t == Settle(Moved(s, input[pos], next - pos))
    ensures Busy(t) || Idle(t)
    ensures Unpad(s, input[pos..]) == Prepend(more, Idle(t) && t.current == COMMAND_DIRECT, Unpad(t, input[next..]))
  {
    var rest, n := input[pos..], next - pos;
    StretchIsRun(s, rest);
    assert rest[..n] == input[pos..next] && rest[n..] == input[next..];
  }

  /** And after the output so far. */
  lemma TurnExtends(goal: Fed, out: seq<byte>, s: State, input: seq<byte>,
                    pos: nat, more: seq<byte>, next: nat, t: State)
    requires Busy(s) && pos < |input|
    requires next == pos + Stretch(s, |input| - pos) && more == if Emits(s) then input[pos..next] else []
    requires t == Settle(Moved(s, input[pos], next - pos))
    requires goal == Prepend(out, false, Unpad(s, input[pos..]))
    ensures Busy(t) || Idle(t)
    ensures goal == Prepend(out + more, Idle(t) && t.current == COMMAND_DIRECT, Unpad(t, input[next..]))
  {
    TurnIsRun(s, input, pos, more, next, t);
    JoinFed(out, false, more, Idle(t) && t.current == COMMAND_DIRECT, Unpad(t, input[next..]));
  }

  // ---- The unpadder on pieces ----------------------------------------------------------------

  class VisionUnpaddingState {
    var remainingCommand: int
    var remainingContent: int
    var remainingPadding: int
    var currentCommand: int

    function Value(): (s: State)
      reads this
    {
      State(remainingCommand, remainingContent, remainingPadding, currentCommand)
    }

    constructor ()
      ensures Value() == INITIAL
    {
      remainingCommand, remainingContent, remainingPadding, currentCommand := -1, -1, -1, 0;
    }

    /** One piece of input: what it adds to the output, and whether the stream now switches
        to direct copy. */
    method Feed(uuid: seq<byte>, input: seq<byte>) returns (out: seq<byte>, direct: bool)
      requires |uuid| == UUID_SIZE && (Busy(Value()) || Idle(Value()))
      modifies this
      ensures Fed(Value(), out, direct) == FeedPiece(uuid, old(Value()), input)
    {
      if remainingCommand == -1 && remainingContent == -1 && remainingPadding == -1 {
        if |input| >= 21 && input[..16] == uuid {
          remainingCommand := 5;
          out, direct := Unframe(input, 16);
        } else {
          out, direct := input, false;
        }
      } else {
        out, direct := Unframe(input, 0);
        assert input[0..] == input;
      }
    }

    /** The loop, once inside the framing. */
    method Unframe(input: seq<byte>, start: nat) returns (out: seq<byte>, direct: bool)
      requires start <= |input| && Busy(Value())
      modifies this
      ensures Fed(Value(), out, direct) == Unpad(old(Value()), input[start..])
    {
      out, direct := [], false;
      var pos := start;
      ghost var goal := Unpad(Value(), input[start..]);
      while pos < |input|
        invariant start <= pos <= |input|
        invariant Busy(Value())
        invariant goal == Prepend(out, false, Unpad(Value(), input[pos..]))
        decreases |input| - pos
      {
        ghost var s, was := Value(), pos;
        var more, taken := Advance(input, pos);
        pos := pos + taken;
        TurnExtends(goal, out, s, input, was, more, pos, Value());
        out := out + more;
        if remainingCommand == -1 {
          direct := currentCommand == COMMAND_DIRECT as int;
          out := out + input[pos..];
          return;
        }
      }
    }

    /** One turn of the loop: a header byte, or as much content or padding as there is;
        then the end-of-frame test. */
    method Advance(input: seq<byte>, pos: nat) returns (more: seq<byte>, taken: nat)
      requires pos < |input| && Busy(Value())
      modifies this
      ensures taken == Stretch(old(Value()), |input| - pos)
      ensures more == if Emits(old(Value())) then input[pos..pos + taken] else []
      ensures Value() == Settle(Moved(old(Value()), input[pos], taken))
    {
      if remainingCommand > 0 {
        ReadHeaderByte(input[pos]);
        more, taken := [], 1;
      } else if remainingContent > 0 {
        taken := Min(remainingContent, |input| - pos);
        more := input[pos..pos + taken];
        remainingContent := remainingContent - taken;
      } else {
        more, taken := [], Min(remainingPadding, |input| - pos);
        remainingPadding := remainingPadding - taken;
      }
      EndOfFrame();
    }

    method ReadHeaderByte(b: byte)
      requires Busy(Value()) && remainingCommand > 0
      modifies this
      ensures Value() == Consume(old(Value()), b)
    {
      match remainingCommand {
        case 5 => currentCommand := b;
        case 4 => remainingContent := b as int * 256;
        case 3 => remainingContent := remainingContent + b;
        case 2 => remainingPadding := b as int * 256;
        case _ => remainingPadding := remainingPadding + b;
      }
      remainingCommand := remainingCommand - 1;
    }

    method EndOfFrame()
      modifies this
      ensures Value() == Settle(old(Value()))
    {
      if remainingCommand <= 0 && remainingContent <= 0 && remainingPadding <= 0 {
        if currentCommand == COMMAND_CONTINUE as int {
          remainingCommand := 5;
        } else {
          remainingCommand, remainingContent, remainingPadding := -1, -1, -1;
        }
      }
    }
  }
}
