/** What the Vision unpadder is for: a stream of a uuid, frames and an unframed tail,
    delivered in pieces, comes out as the contents of the frames followed by the tail. */
module VisionFraming {
  import opened Bytes
  import opened VisionUnpadding

  datatype Frame = Frame(command: byte, content: seq<byte>, padding: seq<byte>)

  /** Both lengths fit their two bytes. */
  predicate Fits(f: Frame)
  {
    |f.content| < 65536 && |f.padding| < 65536
  }

  function Encode(f: Frame): (w: seq<byte>)
    requires Fits(f)
    ensures |w| == HEADER_SIZE + |f.content| + |f.padding|
  {
    [f.command, |f.content| / 256, |f.content| % 256, |f.padding| / 256, |f.padding| % 256] + f.content + f.padding
  }

  /** Frames that continue, and a last one that does not. */
  predicate Conversation(frames: seq<Frame>)
  {
    && frames != [] && Fits(frames[0])
    && (frames[0].command == COMMAND_CONTINUE <==> |frames| > 1)
    && (|frames| > 1 ==> Conversation(frames[1..]))
  }

  function Wire(frames: seq<Frame>): (w: seq<byte>)
    requires Conversation(frames)
    ensures |w| >= HEADER_SIZE
  {
    if |frames| == 1 then Encode(frames[0]) else Encode(frames[0]) + Wire(frames[1..])
  }

  predicate EndsDirect(frames: seq<Frame>)
    requires frames != []
  {
    frames[|frames| - 1].command == COMMAND_DIRECT
  }

  /** The content among the first `n` bytes of the frames and the tail. */
  function Visible(frames: seq<Frame>, tail: seq<byte>, n: nat): (c: seq<byte>)
    requires frames != []
  {
    var f := frames[0];
    var size := HEADER_SIZE + |f.content| + |f.padding|;
    if n <= HEADER_SIZE then []
    else if n <= HEADER_SIZE + |f.content| then f.content[..n - HEADER_SIZE]
    else if n <= size then f.content
    else if |frames| == 1 then f.content + tail[..Min(n - size, |tail|)]
    else f.content + Visible(frames[1..], tail, n - size)
  }

  /** The state in which a uuid leaves a fresh unpadder. */
  const START: State := State(5, -1, -1, 0)

  /** Waiting for the first byte of a header. */
  predicate AtHeader(s: State)
  {
    Busy(s) && s.command == 5
  }

  // ---- One frame ---------------------------------------------------------------------------

  /** The header is read silently, and ends in the frame it announces. */
  lemma HeaderIsRead(s: State, input: seq<byte>)
    requires AtHeader(s) && |input| >= HEADER_SIZE
    ensures var t := Settle(State(0, input[1] as int * 256 + input[2], input[3] as int * 256 + input[4], input[0]));
            && (Busy(t) || Idle(t))
            && Unpad(s, input) == Prepend([], Idle(t) && t.current == COMMAND_DIRECT, Unpad(t, input[5..]))
  {
    ContentLengthIsRead(s, input);
    var content, rest := input[1] as int * 256 + input[2], input[3..];
    assert rest[0] == input[3] && rest[1] == input[4] && rest[2..] == input[5..];
    PaddingLengthIsRead(State(2, content, s.padding, input[0]), rest);
  }

  lemma ContentLengthIsRead(s: State, input: seq<byte>)
    requires AtHeader(s) && |input| >= 3
    ensures var t := State(2, input[1] as int * 256 + input[2], s.padding, input[0]);
            Busy(t) && Unpad(s, input) == Unpad(t, input[3..])
  {
    var s1 := Consume(s, input[0]);
    var s2 := Consume(s1, input[1]);
    SilentByte(s, input);
    SilentByte(s1, input[1..]);
    assert input[1..][1..] == input[2..] && input[2..][1..] == input[3..];
    SilentByte(s2, input[2..]);
  }

  lemma PaddingLengthIsRead(s: State, input: seq<byte>)
    requires Busy(s) && s.command == 2 && |input| >= 2
    ensures var t := Settle(State(0, s.content, input[0] as int * 256 + input[1], s.current));
            && (Busy(t) || Idle(t))
            && Unpad(s, input) == Prepend([], Idle(t) && t.current == COMMAND_DIRECT, Unpad(t, input[2..]))
  {
    SilentByte(s, input);
    LastHeaderByte(Consume(s, input[0]), input[1..]);
    assert input[1..][1..] == input[2..];
  }

  lemma LastHeaderByte(s: State, input: seq<byte>)
    requires Busy(s) && s.command == 1 && input != []
    ensures var t := Settle(State(0, s.content, s.padding + input[0], s.current));
            && (Busy(t) || Idle(t))
            && Unpad(s, input) == Prepend([], Idle(t) && t.current == COMMAND_DIRECT, Unpad(t, input[1..]))
  {
    assert Consume(s, input[0]) == State(0, s.content, s.padding + input[0], s.current) && !Emits(s);
  }

  /** A header byte that is not the last. */
  lemma SilentByte(s: State, input: seq<byte>)
    requires Busy(s) && s.command > 1 && input != []
    ensures Busy(Consume(s, input[0])) && Unpad(s, input) == Unpad(Consume(s, input[0]), input[1..])
  {
    PrependNothing(Unpad(Consume(s, input[0]), input[1..]));
  }

  lemma PrependNothing(r: Fed)
    ensures Prepend([], false, r) == r
  {
    assert [] + r.out == r.out;
  }

  /** Less than a header shows nothing. */
  lemma {:induction false} PartialHeader(s: State, input: seq<byte>)
    requires Busy(s) && s.command > 0 && |input| < s.command
    ensures Unpad(s, input) == Fed(Unpad(s, input).state, [], false) && Busy(Unpad(s, input).state)
    decreases |input|
  {
    if input != [] {
      PartialHeader(Consume(s, input[0]), input[1..]);
    }
  }

  /** Content and padding of a frame, up to `n` bytes into it. */
  lemma PartialBody(s: State, body: seq<byte>)
    requires Busy(s) && s.command == 0 && |body| < s.content + s.padding
    ensures var r := Unpad(s, body);
            Busy(r.state) && !r.direct && r.out == body[..Min(s.content, |body|)]
  {
    var c := Min(s.content, |body|);
    if c > 0 {
      CopyStretch(s, body, c);
      var t := Settle(s.(content := s.content - c));
      assert Busy(t) && Unpad(s, body).out == body[..c] + Unpad(t, body[c..]).out;
      SkipPart(t, body[c..]);
      assert body[..c] + [] == body[..c];
    } else {
      SkipPart(s, body);
    }
  }

  lemma SkipPart(s: State, padding: seq<byte>)
    requires Busy(s) && s.command == 0 && (padding != [] ==> s.content == 0 && |padding| < s.padding)
    ensures var r := Unpad(s, padding); Busy(r.state) && !r.direct && r.out == []
  {
    if padding != [] {
      SkipStretch(s, padding, |padding|);
      assert padding[|padding|..] == [];
    }
  }

  /** A whole body: its content comes out, and the frame is over. */
  lemma WholeBody(s: State, content: seq<byte>, padding: seq<byte>)
    requires Busy(s) && s.command == 0 && s.content == |content| && s.padding == |padding|
    ensures var t := Settle(State(0, 0, 0, s.current));
            Unpad(s, content + padding) == Fed(t, content, Idle(t) && t.current == COMMAND_DIRECT)
  {
    var body := content + padding;
    var t := Settle(State(0, 0, 0, s.current));
    if content == [] {
      assert body == padding;
      SkipStretch(s, body, |padding|);
      assert body[|padding|..] == [];
    } else {
      CopyStretch(s, body, |content|);
      assert body[..|content|] == content && body[|content|..] == padding;
      if padding != [] {
        SkipStretch(s.(content := 0), padding, |padding|);
        assert padding[|padding|..] == [];
      }
    }
  }

  /** A whole frame: its content comes out; it leads to the next header, or out. */
  lemma WholeFrame(s: State, f: Frame)
    requires AtHeader(s) && Fits(f)
    ensures var r := Unpad(s, Encode(f));
            && r.out == f.content
            && (f.command == COMMAND_CONTINUE ==> AtHeader(r.state))
            && (f.command != COMMAND_CONTINUE ==> Idle(r.state))
            && (r.direct <==> f.command == COMMAND_DIRECT)
  {
    HeaderIsRead(s, Encode(f));
    HeaderOfFrame(f);
    if |f.content| + |f.padding| > 0 {
      WholeBody(State(0, |f.content|, |f.padding|, f.command), f.content, f.padding);
    }
  }

  lemma HeaderOfFrame(f: Frame)
    requires Fits(f)
    ensures var w := Encode(f);
            && w[0] == f.command && w[5..] == f.content + f.padding
            && w[1] as int * 256 + w[2] == |f.content| && w[3] as int * 256 + w[4] == |f.padding|
  {
  }

  /** Part of a frame: part of its content. */
  lemma PartialFrame(s: State, f: Frame, n: nat)
    requires AtHeader(s) && Fits(f) && n < |Encode(f)|
    ensures var r := Unpad(s, Encode(f)[..n]);
            && Busy(r.state) && !r.direct
            && r.out == if n <= HEADER_SIZE then [] else f.content[..Min(n - HEADER_SIZE, |f.content|)]
  {
    if n < HEADER_SIZE {
      PartialHeader(s, Encode(f)[..n]);
    } else {
      HeaderIsRead(s, Encode(f)[..n]);
      PartOfFrame(f, n);
      PartialBody(State(0, |f.content|, |f.padding|, f.command), (f.content + f.padding)[..n - 5]);
    }
  }

  /** The part of a frame: its header, and part of what follows. */
  lemma PartOfFrame(f: Frame, n: nat)
    requires Fits(f) && HEADER_SIZE <= n < |Encode(f)|
    ensures var part := Encode(f)[..n]; var body := (f.content + f.padding)[..n - 5];
            && part[0] == f.command && part[5..] == body && |body| < |f.content| + |f.padding|
            && part[1] as int * 256 + part[2] == |f.content| && part[3] as int * 256 + part[4] == |f.padding|
            && body[..Min(|f.content|, |body|)] == f.content[..Min(n - HEADER_SIZE, |f.content|)]
  {
    HeaderOfFrame(f);
    var w := Encode(f);
    assert w[..n][5..] == w[5..][..n - 5];
  }

  /** The bytes themselves.  A frame is a command byte, the lengths of content and padding, high
      byte first, and then both: the content comes out; command 0 leads to the next header, any
      other out of the framing, and only command 2 into direct copy. */
  lemma FrameBytes(s: State, command: byte, ch: byte, cl: byte, ph: byte, pl: byte,
                   content: seq<byte>, padding: seq<byte>)
    requires Busy(s) && s.command == 5
    requires |content| == ch as int * 256 + cl && |padding| == ph as int * 256 + pl
    ensures var r := Unpad(s, [command, ch, cl, ph, pl] + content + padding);
            && r.out == content && (r.direct <==> command == 2)
            && (command == 0 <==> Busy(r.state)) && (command == 0 ==> r.state.command == 5)
            && (command != 0 <==> Idle(r.state))
  {
    var f := Frame(command, content, padding);
    assert Encode(f) == [command, ch, cl, ph, pl] + content + padding;
    WholeFrame(s, f);
  }

  /** And behind the sixteen bytes of the uuid, read in one piece by a fresh unpadder, the bytes
      after a last frame included. */
  lemma OpeningBytes(uuid: seq<byte>, command: byte, ch: byte, cl: byte, ph: byte, pl: byte,
                     content: seq<byte>, padding: seq<byte>, tail: seq<byte>)
    requires |uuid| == 16 && command != 0
    requires |content| == ch as int * 256 + cl && |padding| == ph as int * 256 + pl
    ensures var frame := [command, ch, cl, ph, pl] + content + padding;
            var r := FeedPiece(uuid, State(-1, -1, -1, 0), uuid + frame + tail);
            r.out == content + tail && (r.direct <==> command == 2) && Idle(r.state)
  {
    var frame := [command, ch, cl, ph, pl] + content + padding;
    var piece := uuid + frame + tail;
    assert piece[..16] == uuid && piece[16..] == frame + tail;
    FrameBytes(START, command, ch, cl, ph, pl, content, padding);
    UnpadSplits(START, frame, tail);
    OutOfFraming(Unpad(START, frame).state, tail);
  }

  // ---- Whole streams -------------------------------------------------------------------------

  /** Exactly the content among the first `n` bytes has come out; the framing is left, with
      the direct flag, once the last frame is complete. */
  predicate Shows(r: Fed, frames: seq<Frame>, tail: seq<byte>, n: nat)
    requires Conversation(frames)
  {
    && r.out == Visible(frames, tail, n)
    && (Idle(r.state) <==> n >= |Wire(frames)|)
    && (r.direct <==> n >= |Wire(frames)| && EndsDirect(frames))
  }

  /** Any number of bytes of the frames and the tail. */
  lemma {:induction false} UnpadShowsContent(s: State, frames: seq<Frame>, tail: seq<byte>, n: nat)
    requires AtHeader(s) && Conversation(frames) && n <= |Wire(frames)| + |tail|
    ensures Shows(Unpad(s, (Wire(frames) + tail)[..n]), frames, tail, n)
    decreases |frames|
  {
    var w := Encode(frames[0]);
    if n < |w| {
      assert (Wire(frames) + tail)[..n] == w[..n];
      PartialFrame(s, frames[0], n);
    } else if |frames| == 1 {
      LastFrameShows(s, frames, tail, n);
    } else {
      var m := n - |w|;
      var rest := (Wire(frames[1..]) + tail)[..m];
      assert (Wire(frames) + tail)[..n] == w + rest;
      WholeFrame(s, frames[0]);
      UnpadSplits(s, w, rest);
      var t := Unpad(s, w).state;
      UnpadShowsContent(t, frames[1..], tail, m);
      MoreFramesShow(frames, tail, n, Unpad(t, rest));
    }
  }

  lemma LastFrameShows(s: State, frames: seq<Frame>, tail: seq<byte>, n: nat)
    requires AtHeader(s) && Conversation(frames) && |frames| == 1 && |Wire(frames)| <= n <= |Wire(frames)| + |tail|
    ensures Shows(Unpad(s, (Wire(frames) + tail)[..n]), frames, tail, n)
  {
    var f := frames[0];
    var w := Encode(f);
    var rest := tail[..n - |w|];
    assert (w + tail)[..n] == w + rest;
    WholeFrame(s, f);
    UnpadSplits(s, w, rest);
    OutOfFraming(Unpad(s, w).state, rest);
    assert rest == [] ==> f.content + rest == f.content;
    assert n - |w| == Min(n - |w|, |tail|);
  }

  lemma MoreFramesShow(frames: seq<Frame>, tail: seq<byte>, n: nat, rest: Fed)
    requires Conversation(frames) && |frames| > 1 && |Encode(frames[0])| <= n
    requires Shows(rest, frames[1..], tail, n - |Encode(frames[0])|)
    ensures Shows(Prepend(frames[0].content, false, rest), frames, tail, n)
  {
    VisibleFrom(frames, tail, n);
  }

  /** Once out of the framing everything passes, and nothing is reported again. */
  lemma OutOfFraming(s: State, piece: seq<byte>)
    requires Busy(s) || Idle(s)
    ensures Idle(s) ==> Unpad(s, piece) == Fed(s, piece, false)
  {
  }

  // ---- Pieces ----------------------------------------------------------------------------------

  /** All of a stream: uuid, frames, tail. */
  function Stream(uuid: seq<byte>, frames: seq<Frame>, tail: seq<byte>): (w: seq<byte>)
    requires Conversation(frames)
  {
    uuid + (Wire(frames) + tail)
  }

  /** Where the last frame ends. */
  function SwitchPoint(frames: seq<Frame>): (n: nat)
    requires Conversation(frames)
  {
    UUID_SIZE + |Wire(frames)|
  }

  /** The content among the first `n` bytes of the stream. */
  function Due(frames: seq<Frame>, tail: seq<byte>, n: nat): (c: seq<byte>)
    requires frames != []
  {
    if n <= UUID_SIZE then [] else Visible(frames, tail, n - UUID_SIZE)
  }

  /** Feeding pieces in turn: the state and the whole output so far; `direct` is what the
      last piece reported. */
  function Session(uuid: seq<byte>, pieces: seq<seq<byte>>): (r: Fed)
    requires |uuid| == UUID_SIZE
    ensures Busy(r.state) || Idle(r.state)
  {
    if pieces == [] then Fed(INITIAL, [], false)
    else
      var before := Session(uuid, pieces[..|pieces| - 1]);
      var r := FeedPiece(uuid, before.state, pieces[|pieces| - 1]);
      Fed(r.state, before.out + r.out, r.direct)
  }

  /** After every piece the output is exactly what is due, and direct copy is reported
      exactly for the piece in which a DIRECT frame ends. */
  predicate Faithful(uuid: seq<byte>, frames: seq<Frame>, tail: seq<byte>, pieces: seq<seq<byte>>)
    requires |uuid| == UUID_SIZE && Conversation(frames) && Flatten(pieces) <= Stream(uuid, frames, tail)
    decreases |pieces|
  {
    && Session(uuid, pieces).out == Due(frames, tail, |Flatten(pieces)|)
    && (pieces != [] ==>
          var head := pieces[..|pieces| - 1];
          FlattenInit(pieces);
          && Faithful(uuid, frames, tail, head)
          && (Session(uuid, pieces).direct <==>
              EndsDirect(frames) && |Flatten(head)| < SwitchPoint(frames) <= |Flatten(pieces)|))
  }

  /** The next piece can be told apart from the framing: the first one holds the uuid and a
      header; one that comes after the switch does not look like a new start. */
  predicate Clear(uuid: seq<byte>, switchPoint: nat, before: nat, piece: seq<byte>)
    requires |uuid| == UUID_SIZE
  {
    && (before == 0 && piece != [] ==> |piece| >= 21)
    && (before >= switchPoint ==> !(|piece| >= 21 && piece[..16] == uuid))
  }

  predicate AllClear(uuid: seq<byte>, switchPoint: nat, pieces: seq<seq<byte>>)
    requires |uuid| == UUID_SIZE
    decreases |pieces|
  {
    pieces == [] ||
    (var head := pieces[..|pieces| - 1];
     AllClear(uuid, switchPoint, head) && Clear(uuid, switchPoint, |Flatten(head)|, pieces[|pieces| - 1]))
  }

  lemma FlattenInit(pieces: seq<seq<byte>>)
    requires pieces != []
    ensures Flatten(pieces) == Flatten(pieces[..|pieces| - 1]) + pieces[|pieces| - 1]
  {
    FlattenSnoc(pieces[..|pieces| - 1], pieces[|pieces| - 1]);
    assert pieces[..|pieces| - 1] + [pieces[|pieces| - 1]] == pieces;
  }

  /** The bytes of the stream that follow what was read. */
  lemma NextBytes(uuid: seq<byte>, body: seq<byte>, read: seq<byte>, piece: seq<byte>, k: nat)
    requires |uuid| == UUID_SIZE && |read| == UUID_SIZE + k && read + piece <= uuid + body
    ensures k + |piece| <= |body| && body[..k + |piece|] == body[..k] + piece
  {
    var whole := uuid + body;
    var n := |read| + |piece|;
    assert whole[..n] == read + piece;
    assert piece == whole[|read|..n];
    assert body == whole[UUID_SIZE..];
  }

  /** The first piece, if it is clear. */
  lemma OpeningPiece(uuid: seq<byte>, body: seq<byte>, piece: seq<byte>, k: nat)
    requires |uuid| == UUID_SIZE && piece <= uuid + body && |piece| == UUID_SIZE + k && k >= HEADER_SIZE
    ensures k <= |body| && FeedPiece(uuid, INITIAL, piece) == Unpad(START, body[..k])
  {
    assert (uuid + body)[..UUID_SIZE] == uuid && (uuid + body)[UUID_SIZE..] == body;
    assert piece[..16] == uuid && piece[16..] == body[..k];
  }

  /** Another piece of the frames and the tail continues the byte-wise unpadder; direct
      copy is reported exactly when the last frame ends in it. */
  lemma LaterPiece(frames: seq<Frame>, tail: seq<byte>, k: nat, piece: seq<byte>, was: Fed, r: Fed)
    requires Conversation(frames) && k + |piece| <= |Wire(frames) + tail|
    requires (Wire(frames) + tail)[..k + |piece|] == (Wire(frames) + tail)[..k] + piece
    requires was == Unpad(START, (Wire(frames) + tail)[..k]) && r == Unpad(was.state, piece)
    ensures r.state == Unpad(START, (Wire(frames) + tail)[..k + |piece|]).state
    ensures Visible(frames, tail, k) + r.out == Visible(frames, tail, k + |piece|)
    ensures r.direct <==> EndsDirect(frames) && k < |Wire(frames)| <= k + |piece|
  {
    UnpadShowsContent(START, frames, tail, k);
    UnpadShowsContent(START, frames, tail, k + |piece|);
    UnpadSplits(START, (Wire(frames) + tail)[..k], piece);
    OutOfFraming(was.state, piece);
  }

  /** Where the unpadder on pieces stands after `n` bytes: where the byte-wise one does. */
  predicate InStep(frames: seq<Frame>, tail: seq<byte>, n: nat, r: Fed)
    requires Conversation(frames) && n <= SwitchPoint(frames) + |tail|
  {
    && r.out == Due(frames, tail, n)
    && if n == 0 then r.state == INITIAL
       else n >= UUID_SIZE + HEADER_SIZE && r.state == Unpad(START, (Wire(frames) + tail)[..n - UUID_SIZE]).state
  }

  /** A clear first piece. */
  lemma OpeningKeepsStep(uuid: seq<byte>, frames: seq<Frame>, tail: seq<byte>, piece: seq<byte>)
    requires |uuid| == UUID_SIZE && Conversation(frames) && piece <= Stream(uuid, frames, tail)
    requires |piece| >= UUID_SIZE + HEADER_SIZE
    ensures var r := FeedPiece(uuid, INITIAL, piece);
            && InStep(frames, tail, |piece|, r)
            && (r.direct <==> EndsDirect(frames) && SwitchPoint(frames) <= |piece|)
  {
    var k := |piece| - UUID_SIZE;
    OpeningPiece(uuid, Wire(frames) + tail, piece, k);
    UnpadShowsContent(START, frames, tail, k);
  }

  /** A clear piece is never taken for an opening one. */
  lemma NotReopened(uuid: seq<byte>, frames: seq<Frame>, tail: seq<byte>, k: nat, piece: seq<byte>, s: State)
    requires |uuid| == UUID_SIZE && Conversation(frames) && k <= |Wire(frames) + tail|
    requires s == Unpad(START, (Wire(frames) + tail)[..k]).state
    requires Clear(uuid, SwitchPoint(frames), UUID_SIZE + k, piece)
    ensures FeedPiece(uuid, s, piece) == Unpad(s, piece)
  {
    UnpadShowsContent(START, frames, tail, k);
  }

  lemma StaysInStep(frames: seq<Frame>, tail: seq<byte>, k: nat, piece: seq<byte>, before: Fed, r: Fed)
    requires Conversation(frames) && HEADER_SIZE <= k && k + |piece| <= |Wire(frames) + tail|
    requires (Wire(frames) + tail)[..k + |piece|] == (Wire(frames) + tail)[..k] + piece
    requires InStep(frames, tail, UUID_SIZE + k, before) && r == Unpad(before.state, piece)
    ensures InStep(frames, tail, UUID_SIZE + k + |piece|, Fed(r.state, before.out + r.out, r.direct))
    ensures r.direct <==> EndsDirect(frames) && k < |Wire(frames)| <= k + |piece|
  {
    LaterPiece(frames, tail, k, piece, Unpad(START, (Wire(frames) + tail)[..k]), r);
  }

  /** A clear piece after the first. */
  lemma LaterKeepsStep(uuid: seq<byte>, frames: seq<Frame>, tail: seq<byte>,
                       read: seq<byte>, piece: seq<byte>, before: Fed)
    requires |uuid| == UUID_SIZE && Conversation(frames) && read + piece <= Stream(uuid, frames, tail) && read != []
    requires Clear(uuid, SwitchPoint(frames), |read|, piece)
    requires InStep(frames, tail, |read|, before)
    ensures var r := FeedPiece(uuid, before.state, piece);
            && InStep(frames, tail, |read| + |piece|, Fed(r.state, before.out + r.out, r.direct))
            && (r.direct <==> EndsDirect(frames) && |read| < SwitchPoint(frames) <= |read| + |piece|)
  {
    var k := |read| - UUID_SIZE;
    NextBytes(uuid, Wire(frames) + tail, read, piece, k);
    NotReopened(uuid, frames, tail, k, piece, before.state);
    StaysInStep(frames, tail, k, piece, before, Unpad(before.state, piece));
  }

  /** One clear piece keeps in step. */
  lemma PieceKeepsStep(uuid: seq<byte>, frames: seq<Frame>, tail: seq<byte>,
                       read: seq<byte>, piece: seq<byte>, before: Fed)
    requires |uuid| == UUID_SIZE && Conversation(frames) && read + piece <= Stream(uuid, frames, tail)
    requires Clear(uuid, SwitchPoint(frames), |read|, piece)
    requires InStep(frames, tail, |read|, before)
    ensures var r := FeedPiece(uuid, before.state, piece);
            && InStep(frames, tail, |read| + |piece|, Fed(r.state, before.out + r.out, r.direct))
            && (r.direct <==> EndsDirect(frames) && |read| < SwitchPoint(frames) <= |read| + |piece|)
  {
    if read != [] {
      LaterKeepsStep(uuid, frames, tail, read, piece, before);
    } else if piece != [] {
      assert read + piece == piece;
      OpeningKeepsStep(uuid, frames, tail, piece);
      assert before.out + FeedPiece(uuid, INITIAL, piece).out == FeedPiece(uuid, INITIAL, piece).out;
    }
  }

  /** As long as the pieces are clear, the unpadder on pieces is the byte-wise one. */
  lemma {:induction false} SessionIsInStep(uuid: seq<byte>, frames: seq<Frame>, tail: seq<byte>, pieces: seq<seq<byte>>)
    requires |uuid| == UUID_SIZE && Conversation(frames) && Flatten(pieces) <= Stream(uuid, frames, tail)
    requires AllClear(uuid, SwitchPoint(frames), pieces)
    ensures InStep(frames, tail, |Flatten(pieces)|, Session(uuid, pieces))
    ensures pieces != [] ==>
              (Session(uuid, pieces).direct <==>
               EndsDirect(frames) && |Flatten(pieces[..|pieces| - 1])| < SwitchPoint(frames) <= |Flatten(pieces)|)
    decreases |pieces|
  {
    if pieces != [] {
      var head, piece := pieces[..|pieces| - 1], pieces[|pieces| - 1];
      FlattenInit(pieces);
      FrontIsPrefix(Flatten(head), piece, Stream(uuid, frames, tail));
      SessionIsInStep(uuid, frames, tail, head);
      PieceKeepsStep(uuid, frames, tail, Flatten(head), piece, Session(uuid, head));
    }
  }

  /** A piece that is not clear breaks the output at once. */
  lemma UnclearPieceShows(uuid: seq<byte>, frames: seq<Frame>, tail: seq<byte>,
                          read: seq<byte>, piece: seq<byte>, before: Fed)
    requires |uuid| == UUID_SIZE && Conversation(frames) && read + piece <= Stream(uuid, frames, tail)
    requires !Clear(uuid, SwitchPoint(frames), |read|, piece)
    requires InStep(frames, tail, |read|, before) && (Busy(before.state) || Idle(before.state))
    ensures before.out + FeedPiece(uuid, before.state, piece).out != Due(frames, tail, |read| + |piece|)
  {
    if |read| > 0 {
      var k := |read| - UUID_SIZE;
      UnpadShowsContent(START, frames, tail, k);
      TailShows(frames, tail, k, k + |piece|);
      ReopeningEats(uuid, before.state, piece);
    } else {
      assert FeedPiece(uuid, before.state, piece).out == piece;
    }
  }

  lemma ReopeningEats(uuid: seq<byte>, s: State, piece: seq<byte>)
    requires |uuid| == UUID_SIZE && Idle(s) && |piece| >= 21 && piece[..16] == uuid
    ensures |FeedPiece(uuid, s, piece).out| < |piece|
  {
    UnpadShrinks(s.(command := 5), piece[16..]);
  }

  /** Past the last frame every byte shows. */
  lemma TailShows(frames: seq<Frame>, tail: seq<byte>, k: nat, m: nat)
    requires Conversation(frames) && |Wire(frames)| <= k <= m <= |Wire(frames)| + |tail|
    ensures |Visible(frames, tail, m)| == |Visible(frames, tail, k)| + (m - k)
  {
    VisibleLength(frames, tail, k);
    VisibleLength(frames, tail, m);
  }

  lemma {:induction false} VisibleLength(frames: seq<Frame>, tail: seq<byte>, n: nat)
    requires Conversation(frames) && |Wire(frames)| <= n <= |Wire(frames)| + |tail|
    ensures |Visible(frames, tail, n)| == |Contents(frames)| + n - |Wire(frames)|
    decreases |frames|
  {
    if |frames| > 1 {
      VisibleLength(frames[1..], tail, n - |Encode(frames[0])|);
      VisibleFrom(frames, tail, n);
    } else {
      LastVisible(frames, tail, n);
    }
  }

  lemma VisibleFrom(frames: seq<Frame>, tail: seq<byte>, n: nat)
    requires Conversation(frames) && |frames| > 1 && |Encode(frames[0])| <= n
    ensures Visible(frames, tail, n) == frames[0].content + Visible(frames[1..], tail, n - |Encode(frames[0])|)
  {
    var c := frames[0].content;
    assert c + [] == c && c[..|c|] == c;
  }

  lemma LastVisible(frames: seq<Frame>, tail: seq<byte>, n: nat)
    requires Conversation(frames) && |frames| == 1 && |Wire(frames)| <= n <= |Wire(frames)| + |tail|
    ensures |Visible(frames, tail, n)| == |Contents(frames)| + n - |Wire(frames)|
  {
    assert Contents(frames[1..]) == [];
  }

  lemma {:induction false} UnpadShrinks(s: State, input: seq<byte>)
    requires Busy(s) || Idle(s)
    ensures |Unpad(s, input).out| <= |input|
    decreases |input|
  {
    if input != [] && !Idle(s) {
      UnpadShrinks(Settle(Consume(s, input[0])), input[1..]);
    }
  }

  lemma {:induction false} ClearIsFaithful(uuid: seq<byte>, frames: seq<Frame>, tail: seq<byte>, pieces: seq<seq<byte>>)
    requires |uuid| == UUID_SIZE && Conversation(frames) && Flatten(pieces) <= Stream(uuid, frames, tail)
    requires AllClear(uuid, SwitchPoint(frames), pieces)
    ensures Faithful(uuid, frames, tail, pieces)
    decreases |pieces|
  {
    SessionIsInStep(uuid, frames, tail, pieces);
    if pieces != [] {
      FlattenInit(pieces);
      ClearIsFaithful(uuid, frames, tail, pieces[..|pieces| - 1]);
    }
  }

  lemma {:induction false} FaithfulIsClear(uuid: seq<byte>, frames: seq<Frame>, tail: seq<byte>, pieces: seq<seq<byte>>)
    requires |uuid| == UUID_SIZE && Conversation(frames) && Flatten(pieces) <= Stream(uuid, frames, tail)
    requires Faithful(uuid, frames, tail, pieces)
    ensures AllClear(uuid, SwitchPoint(frames), pieces)
    decreases |pieces|
  {
    if pieces != [] {
      FlattenInit(pieces);
      FrontIsPrefix(Flatten(pieces[..|pieces| - 1]), pieces[|pieces| - 1], Stream(uuid, frames, tail));
      FaithfulIsClear(uuid, frames, tail, pieces[..|pieces| - 1]);
      LastPieceIsClear(uuid, frames, tail, pieces[..|pieces| - 1], pieces[|pieces| - 1],
                       Flatten(pieces[..|pieces| - 1]), Session(uuid, pieces[..|pieces| - 1]));
    }
  }

  lemma LastPieceIsClear(uuid: seq<byte>, frames: seq<Frame>, tail: seq<byte>,
                         head: seq<seq<byte>>, piece: seq<byte>, read: seq<byte>, before: Fed)
    requires |uuid| == UUID_SIZE && Conversation(frames) && read + piece <= Stream(uuid, frames, tail)
    requires AllClear(uuid, SwitchPoint(frames), head) && read == Flatten(head) && before == Session(uuid, head)
    requires before.out + FeedPiece(uuid, before.state, piece).out == Due(frames, tail, |read| + |piece|)
    ensures Clear(uuid, SwitchPoint(frames), |read|, piece)
  {
    FrontIsPrefix(read, piece, Stream(uuid, frames, tail));
    SessionStands(uuid, frames, tail, head, read, before);
    FaithfulPieceIsClear(uuid, frames, tail, read, piece, before);
  }

  lemma SessionStands(uuid: seq<byte>, frames: seq<Frame>, tail: seq<byte>,
                      pieces: seq<seq<byte>>, read: seq<byte>, r: Fed)
    requires |uuid| == UUID_SIZE && Conversation(frames) && read <= Stream(uuid, frames, tail)
    requires AllClear(uuid, SwitchPoint(frames), pieces) && read == Flatten(pieces) && r == Session(uuid, pieces)
    ensures InStep(frames, tail, |read|, r) && (Busy(r.state) || Idle(r.state))
  {
    SessionIsInStep(uuid, frames, tail, pieces);
  }

  lemma FaithfulPieceIsClear(uuid: seq<byte>, frames: seq<Frame>, tail: seq<byte>,
                             read: seq<byte>, piece: seq<byte>, before: Fed)
    requires |uuid| == UUID_SIZE && Conversation(frames) && read + piece <= Stream(uuid, frames, tail)
    requires InStep(frames, tail, |read|, before) && (Busy(before.state) || Idle(before.state))
    requires before.out + FeedPiece(uuid, before.state, piece).out == Due(frames, tail, |read| + |piece|)
    ensures Clear(uuid, SwitchPoint(frames), |read|, piece)
  {
    if !Clear(uuid, SwitchPoint(frames), |read|, piece) {
      UnclearPieceShows(uuid, frames, tail, read, piece, before);
    }
  }

  /** The unpadder inverts the framing, whatever the pieces, exactly when every piece is
      clear: any prefix of any stream, cut anywhere. */
  lemma UnpadInvertsFraming(uuid: seq<byte>, frames: seq<Frame>, tail: seq<byte>, pieces: seq<seq<byte>>)
    requires |uuid| == UUID_SIZE && Conversation(frames) && Flatten(pieces) <= Stream(uuid, frames, tail)
    ensures Faithful(uuid, frames, tail, pieces) <==> AllClear(uuid, SwitchPoint(frames), pieces)
  {
    if AllClear(uuid, SwitchPoint(frames), pieces) {
      ClearIsFaithful(uuid, frames, tail, pieces);
    } else if Faithful(uuid, frames, tail, pieces) {
      FaithfulIsClear(uuid, frames, tail, pieces);
    }
  }

  /** Delivered whole: all the contents, then the tail. */
  function Contents(frames: seq<Frame>): (c: seq<byte>)
  {
    if frames == [] then [] else frames[0].content + Contents(frames[1..])
  }

  lemma {:induction false} AllIsVisible(frames: seq<Frame>, tail: seq<byte>)
    requires Conversation(frames)
    ensures Visible(frames, tail, |Wire(frames)| + |tail|) == Contents(frames) + tail
    decreases |frames|
  {
    var f := frames[0];
    if |frames| > 1 {
      AllIsVisible(frames[1..], tail);
      Associative(f.content, Contents(frames[1..]), tail);
    } else {
      OneFrameVisible(f, tail);
      assert frames == [f];
      assert Contents(frames) == f.content + Contents(frames[1..]) == f.content;
    }
  }

  lemma OneFrameVisible(f: Frame, tail: seq<byte>)
    ensures Visible([f], tail, HEADER_SIZE + |f.content| + |f.padding| + |tail|) == f.content + tail
  {
    if tail == [] {
      assert f.content + tail == f.content;
      assert f.content[..|f.content|] == f.content;
    } else {
      assert tail[..|tail|] == tail;
    }
  }

  lemma WholeSession(uuid: seq<byte>, frames: seq<Frame>, tail: seq<byte>, pieces: seq<seq<byte>>)
    requires |uuid| == UUID_SIZE && Conversation(frames) && Flatten(pieces) == Stream(uuid, frames, tail)
    requires AllClear(uuid, SwitchPoint(frames), pieces)
    ensures Session(uuid, pieces).out == Contents(frames) + tail
  {
    SessionShowsWhatIsDue(uuid, frames, tail, pieces);
    AllIsDue(frames, tail, |Flatten(pieces)|);
  }

  lemma AllIsDue(frames: seq<Frame>, tail: seq<byte>, n: nat)
    requires Conversation(frames) && n == SwitchPoint(frames) + |tail|
    ensures Due(frames, tail, n) == Contents(frames) + tail
  {
    AllIsVisible(frames, tail);
    assert n - UUID_SIZE == |Wire(frames)| + |tail|;
  }

  lemma SessionShowsWhatIsDue(uuid: seq<byte>, frames: seq<Frame>, tail: seq<byte>, pieces: seq<seq<byte>>)
    requires |uuid| == UUID_SIZE && Conversation(frames) && Flatten(pieces) <= Stream(uuid, frames, tail)
    requires AllClear(uuid, SwitchPoint(frames), pieces)
    ensures Session(uuid, pieces).out == Due(frames, tail, |Flatten(pieces)|)
  {
    SessionIsInStep(uuid, frames, tail, pieces);
  }

  /** Feeding a whole stream, piece by piece, to a fresh unpadder. */
  method Deliver(uuid: seq<byte>, pieces: seq<seq<byte>>, ghost frames: seq<Frame>, ghost tail: seq<byte>)
    returns (out: seq<byte>)
    requires |uuid| == UUID_SIZE && Conversation(frames) && Flatten(pieces) == Stream(uuid, frames, tail)
    ensures AllClear(uuid, SwitchPoint(frames), pieces) ==> out == Contents(frames) + tail
  {
    out := [];
    var unpadder := new VisionUnpaddingState();
    var i := 0;
    while i < |pieces|
      invariant 0 <= i <= |pieces|
      invariant Session(uuid, pieces[..i]).state == unpadder.Value()
      invariant Session(uuid, pieces[..i]).out == out
    {
      var more, _ := unpadder.Feed(uuid, pieces[i]);
      assert pieces[..i + 1][..i] == pieces[..i];
      out := out + more;
      i := i + 1;
    }
    assert pieces[..i] == pieces;
    if AllClear(uuid, SwitchPoint(frames), pieces) {
      WholeSession(uuid, frames, tail, pieces);
    }
  }

  // ---- The writer ------------------------------------------------------------------------------

  /** The writer's chunk: one frame without padding, its length cut to sixteen bits. */
  function PadChunk(uuid: seq<byte>, content: seq<byte>, command: byte, includeUuid: bool): (w: seq<byte>)
  {
    (if includeUuid then uuid else [])
    + [command, |content| / 256 % 256, |content| % 256, 0, 0] + content
  }

  lemma LowBytes(n: nat)
    ensures n % 65536 / 256 == n / 256 % 256 && n % 65536 % 256 == n % 256
  {
  }

  /** What a chunk means to the reader: a frame of the content up to the cut length, and
      whatever is past it as tail. */
  lemma ChunkIsAStream(uuid: seq<byte>, content: seq<byte>, command: byte)
    requires command != COMMAND_CONTINUE
    ensures var cut := |content| % 65536;
            var frames := [Frame(command, content[..cut], [])];
            && Conversation(frames)
            && PadChunk(uuid, content, command, true) == Stream(uuid, frames, content[cut..])
            && Contents(frames) + content[cut..] == content
  {
    var cut := |content| % 65536;
    var f := Frame(command, content[..cut], []);
    var header: seq<byte> := [command, |content| / 256 % 256, |content| % 256, 0, 0];
    LowBytes(|content|);
    assert Encode(f) == header + content[..cut] + [] == header + content[..cut];
    assert Wire([f]) + content[cut..] == header + content;
    Associative(uuid, header, content);
    assert Contents([f]) == f.content + Contents([]) == f.content;
  }

  /** A chunk read in one piece comes back whole, whatever its length, and asks for direct
      copy exactly if it was written so. */
  lemma ChunkRoundTrip(uuid: seq<byte>, content: seq<byte>, command: byte)
    requires |uuid| == UUID_SIZE && command != COMMAND_CONTINUE
    ensures var r := FeedPiece(uuid, INITIAL, PadChunk(uuid, content, command, true));
            r.out == content && Idle(r.state) && (r.direct <==> command == COMMAND_DIRECT)
  {
    var cut := |content| % 65536;
    var frames := [Frame(command, content[..cut], [])];
    var chunk := PadChunk(uuid, content, command, true);
    ChunkIsAStream(uuid, content, command);
    var k := |Wire(frames)| + |content[cut..]|;
    OpeningPiece(uuid, Wire(frames) + content[cut..], chunk, k);
    UnpadShowsContent(START, frames, content[cut..], k);
    AllIsVisible(frames, content[cut..]);
  }

  lemma SessionSnoc(uuid: seq<byte>, pieces: seq<seq<byte>>, piece: seq<byte>)
    requires |uuid| == UUID_SIZE
    ensures var before := Session(uuid, pieces); var r := FeedPiece(uuid, before.state, piece);
            Session(uuid, pieces + [piece]) == Fed(r.state, before.out + r.out, r.direct)
  {
    var all := pieces + [piece];
    assert all[..|all| - 1] == pieces && all[|all| - 1] == piece;
  }

  lemma ClearSnoc(uuid: seq<byte>, switchPoint: nat, pieces: seq<seq<byte>>, piece: seq<byte>)
    requires |uuid| == UUID_SIZE
    ensures AllClear(uuid, switchPoint, pieces + [piece])
            <==> AllClear(uuid, switchPoint, pieces) && Clear(uuid, switchPoint, |Flatten(pieces)|, piece)
  {
    var all := pieces + [piece];
    assert all[..|all| - 1] == pieces && all[|all| - 1] == piece;
  }

  /** A session of two pieces. */
  lemma TwoPieces(uuid: seq<byte>, a: seq<byte>, b: seq<byte>)
    requires |uuid| == UUID_SIZE
    ensures var first := FeedPiece(uuid, INITIAL, a);
            Session(uuid, [a] + [b]).out == first.out + FeedPiece(uuid, first.state, b).out
    ensures Flatten([a] + [b]) == a + b
  {
    SessionSnoc(uuid, [a], b);
    SessionSnoc(uuid, [], a);
    assert [] + [a] == [a] && [] + FeedPiece(uuid, INITIAL, a).out == FeedPiece(uuid, INITIAL, a).out;
    FlattenSnoc([a], b);
    FlattenSnoc([], a);
  }

  lemma TwoClearPieces(uuid: seq<byte>, switchPoint: nat, a: seq<byte>, b: seq<byte>)
    requires |uuid| == UUID_SIZE && 21 <= |a| < switchPoint
    ensures AllClear(uuid, switchPoint, [a] + [b])
  {
    ClearSnoc(uuid, switchPoint, [a], b);
    ClearSnoc(uuid, switchPoint, [], a);
    assert [] + [a] == [a];
    FlattenSnoc([], a);
  }

  /** After a chunk that ends the framing the next one, written without the uuid, passes with
      its header; or it looks like a new start, and loses more than the header. */
  lemma NextChunkIsNotUnpadded(uuid: seq<byte>, s: State, content: seq<byte>, command: byte)
    requires |uuid| == UUID_SIZE && Idle(s)
    ensures var chunk := PadChunk(uuid, content, command, false); var r := FeedPiece(uuid, s, chunk);
            r.out != content && (chunk[..Min(16, |chunk|)] != uuid ==> r.out == chunk)
  {
    var chunk := PadChunk(uuid, content, command, false);
    assert |chunk| == HEADER_SIZE + |content|;
    OutOfFraming(s, chunk);
    if |chunk| >= 21 && chunk[..16] == uuid {
      UnpadShrinks(s.(command := 5), chunk[16..]);
    }
  }

  /** A chunk that continues, and the one after it, are two frames of one stream. */
  lemma ContinuedChunks(uuid: seq<byte>, first: seq<byte>, second: seq<byte>, command: byte)
    requires |uuid| == UUID_SIZE && |first| < 65536 && command != COMMAND_CONTINUE
    ensures var a := PadChunk(uuid, first, COMMAND_CONTINUE, true); var b := PadChunk(uuid, second, command, false);
            Session(uuid, [a] + [b]).out == first + second
  {
    var a, b := PadChunk(uuid, first, COMMAND_CONTINUE, true), PadChunk(uuid, second, command, false);
    var cut := |second| % 65536;
    var last := [Frame(command, second[..cut], [])];
    var frames := [Frame(COMMAND_CONTINUE, first, [])] + last;
    var tail := second[cut..];
    ContinuedStream(uuid, first, second, command);
    ChunkIsAFrame(uuid, first);
    StreamInTwo(uuid, frames, tail, a, b);
  }

  /** A whole stream in two pieces, the first reaching into the framing. */
  lemma StreamInTwo(uuid: seq<byte>, frames: seq<Frame>, tail: seq<byte>, a: seq<byte>, b: seq<byte>)
    requires |uuid| == UUID_SIZE && Conversation(frames) && a + b == Stream(uuid, frames, tail)
    requires 21 <= |a| < SwitchPoint(frames)
    ensures Session(uuid, [a] + [b]).out == Contents(frames) + tail
  {
    TwoPieces(uuid, a, b);
    TwoClearPieces(uuid, SwitchPoint(frames), a, b);
    WholeSession(uuid, frames, tail, [a] + [b]);
  }

  lemma ContinuedStream(uuid: seq<byte>, first: seq<byte>, second: seq<byte>, command: byte)
    requires |first| < 65536 && command != COMMAND_CONTINUE
    ensures var cut := |second| % 65536;
            var frames := [Frame(COMMAND_CONTINUE, first, [])] + [Frame(command, second[..cut], [])];
            && Conversation(frames) && frames[1..] == [Frame(command, second[..cut], [])]
            && PadChunk(uuid, first, COMMAND_CONTINUE, true) + PadChunk(uuid, second, command, false)
               == Stream(uuid, frames, second[cut..])
            && Contents(frames) + second[cut..] == first + second
  {
    var cut := |second| % 65536;
    var f, last := Frame(COMMAND_CONTINUE, first, []), [Frame(command, second[..cut], [])];
    var frames := [f] + last;
    assert frames[1..] == last;
    ChunkIsAStream([], second, command);
    var b := PadChunk([], second, command, true);
    assert b == PadChunk(uuid, second, command, false);
    assert [] + (Wire(last) + second[cut..]) == Wire(last) + second[cut..];
    ChunkIsAFrame(uuid, first);
    Associative(uuid, Encode(f), b);
    Associative(Encode(f), Wire(last), second[cut..]);
    Associative(first, Contents(last), second[cut..]);
  }

  lemma ChunkIsAFrame(uuid: seq<byte>, content: seq<byte>)
    requires |content| < 65536
    ensures PadChunk(uuid, content, COMMAND_CONTINUE, true) == uuid + Encode(Frame(COMMAND_CONTINUE, content, []))
  {
    var header: seq<byte> := [COMMAND_CONTINUE, |content| / 256 % 256, |content| % 256, 0, 0];
    assert Encode(Frame(COMMAND_CONTINUE, content, [])) == header + content + [] == header + content;
    Associative(uuid, header, content);
  }

  lemma Cancel(front: seq<byte>, x: seq<byte>, y: seq<byte>)
    ensures front + x == front + y ==> x == y
  {
    assert x == (front + x)[|front|..] && y == (front + y)[|front|..];
  }

  /** Two chunks in a row, as the writer emits them, come back as their contents if and only
      if the first says that more follow.  The writer never says so. */
  lemma TwoChunksExactly(uuid: seq<byte>, first: seq<byte>, command: byte, second: seq<byte>, last: byte)
    requires |uuid| == UUID_SIZE && last != COMMAND_CONTINUE
    requires command == COMMAND_CONTINUE ==> |first| < 65536
    ensures var a := PadChunk(uuid, first, command, true); var b := PadChunk(uuid, second, last, false);
            && (Session(uuid, [a] + [b]).out == first + second <==> command == COMMAND_CONTINUE)
            && (command != COMMAND_CONTINUE && b[..Min(16, |b|)] != uuid ==> Session(uuid, [a] + [b]).out == first + b)
  {
    var a, b := PadChunk(uuid, first, command, true), PadChunk(uuid, second, last, false);
    if command == COMMAND_CONTINUE {
      ContinuedChunks(uuid, first, second, last);
    } else {
      TwoPieces(uuid, a, b);
      ChunkRoundTrip(uuid, first, command);
      var s := FeedPiece(uuid, INITIAL, a).state;
      NextChunkIsNotUnpadded(uuid, s, second, last);
      Cancel(first, FeedPiece(uuid, s, b).out, second);
    }
  }

  /** A stream whose first piece is the uuid alone is not unpadded. */
  lemma UuidAloneLeaks(uuid: seq<byte>, frames: seq<Frame>, tail: seq<byte>)
    requires |uuid| == UUID_SIZE && Conversation(frames)
    ensures Flatten([uuid, Wire(frames) + tail]) <= Stream(uuid, frames, tail)
    ensures !Faithful(uuid, frames, tail, [uuid, Wire(frames) + tail])
  {
    var rest := Wire(frames) + tail;
    var pieces := [uuid, rest];
    FlattenInit(pieces);
    assert pieces[..1] == [uuid];
    FlattenInit([uuid]);
    assert [uuid][..0] == [];
    assert Flatten([uuid]) == uuid;
    UnpadInvertsFraming(uuid, frames, tail, pieces);
    assert !Clear(uuid, SwitchPoint(frames), 0, uuid);
    assert !AllClear(uuid, SwitchPoint(frames), [uuid]);
  }
}
