/** The two framing layers of the Gun transport: the gRPC length-prefixed
    message, and inside it the protobuf message `Hunk { bytes data = 1; }`. */
module GunFraming {
  import opened Bytes
  import Varint

  const MAX_MESSAGE_SIZE: nat := 16 * 1024 * 1024
  const FRAME_HEADER_LEN: nat := 5

  // ---- Encoding --------------------------------------------------------------

  /** Four bytes, most significant first. */
  function U32(n: nat): (r: seq<byte>)
    requires n < 0x1_0000_0000
    ensures |r| == 4
  {
    [n / 0x100_0000, n / 0x1_0000 % 256, n / 256 % 256, n % 256]
  }

  function FromU32(b: seq<byte>): (n: nat)
    requires |b| == 4
  {
    b[0] as int * 0x100_0000 + b[1] as int * 0x1_0000 + b[2] as int * 256 + b[3]
  }

  function Hunk(data: seq<byte>): (r: seq<byte>)
  {
    [0x0A] + Varint.Encode(|data|) + data
  }

  function Frame(payload: seq<byte>): (r: seq<byte>)
    requires |payload| < 0x1_0000_0000
  {
    [0x00] + U32(|payload|) + payload
  }

  /** One chunk of tunnelled bytes, framed twice. */
  function GunFrame(data: seq<byte>): (r: seq<byte>)
    requires |data| <= MAX_MESSAGE_SIZE
  {
    HunkLength(data);
    Frame(Hunk(data))
  }

  /** The wire image of a list of chunks. */
  function WireImage(chunks: seq<seq<byte>>): (r: seq<byte>)
    requires Emittable(chunks)
  {
    if chunks == [] then [] else GunFrame(chunks[0]) + WireImage(chunks[1..])
  }

  /** What the writer cuts: non-empty chunks of at most 16 MiB. */
  predicate Emittable(chunks: seq<seq<byte>>)
  {
    forall i :: 0 <= i < |chunks| ==> 1 <= |chunks[i]| <= MAX_MESSAGE_SIZE
  }

  /** What the reader accepts: the hunk header must fit in the 16 MiB as well. */
  predicate Acceptable(chunks: seq<seq<byte>>)
  {
    forall i :: 0 <= i < |chunks| ==> |chunks[i]| <= MAX_MESSAGE_SIZE - 5
  }

  // ---- Decoding --------------------------------------------------------------

  datatype FrameStep = BadFrame | NeedMore | Next(payload: seq<byte>, rest: seq<byte>)

  /** One attempt to take a frame off the front of the receive buffer. */
  function NextFrame(buf: seq<byte>): (r: FrameStep)
    ensures r.Next? ==> |r.rest| < |buf|
  {
    if |buf| < FRAME_HEADER_LEN then NeedMore
    else if buf[0] != 0x00 then BadFrame
    else
      var len := FromU32(buf[1..5]);
      if len > MAX_MESSAGE_SIZE then BadFrame
      else if |buf| < FRAME_HEADER_LEN + len then NeedMore
      else Next(buf[5..5 + len], buf[5 + len..])
  }

  /** `Panicked`: the end offset leaves the 64-bit range, and the slice that follows
      is out of order whether or not the addition is checked. */
  datatype HunkResult = HunkError | Panicked | HunkData(data: seq<byte>)

  function DecodeHunk(payload: seq<byte>): (r: HunkResult)
  {
    if payload == [] then HunkData([])
    else if payload[0] != 0x0A then HunkError
    else
      match Varint.Decode(payload[1..])
      case None => HunkError
      case Some((len, width)) =>
        var offset := 1 + width;
        if offset + len >= Varint.TWO_64 then Panicked
        else if |payload| < offset + len then HunkError
        else HunkData(payload[offset..offset + len])
  }

  /** The outcome of decoding as far as the bytes allow: the tunnelled bytes, the
      undecoded remainder, and whether decoding stopped at a frame or hunk it rejects. */
  datatype Decoded = Decoded(data: seq<byte>, rest: seq<byte>, failed: bool)

  function DecodeAll(buf: seq<byte>): (r: Decoded)
    decreases |buf|
  {
    match NextFrame(buf)
    case NeedMore => Decoded([], buf, false)
    case BadFrame => Decoded([], buf, true)
    case Next(payload, rest) =>
      match DecodeHunk(payload)
      case HunkData(data) =>
        var more := DecodeAll(rest);
        Decoded(data + more.data, more.rest, more.failed)
      case _ => Decoded([], rest, true)
  }

  // ---- The bytes on the wire -----------------------------------------------------

  /** A frame is a zero byte, a length, most significant byte first, and so many bytes; one of
      more than 16 MiB, or with another first byte, is refused. */
  lemma FrameBytes(flag: byte, l3: byte, l2: byte, l1: byte, l0: byte, body: seq<byte>)
    ensures var len := l3 as int * 0x100_0000 + l2 as int * 0x1_0000 + l1 as int * 0x100 + l0 as int;
            NextFrame([flag, l3, l2, l1, l0] + body)
            == if flag != 0 || len > 0x100_0000 then BadFrame
               else if |body| < len then NeedMore
               else Next(body[..len], body[len..])
  {
    var buf := [flag, l3, l2, l1, l0] + body;
    assert buf[1..5] == [l3, l2, l1, l0];
    assert buf[5..] == body;
    var len := FromU32([l3, l2, l1, l0]);
    if |body| >= len {
      assert buf[5..5 + len] == body[..len] && buf[5 + len..] == body[len..];
    }
  }

  /** A hunk is the byte 10, the length of its data as a varint, and the data; nothing at all
      is a hunk without data, and what follows the data is ignored. */
  lemma HunkBytes(n: nat, hi: nat, data: seq<byte>, more: seq<byte>)
    requires n < 128 && 0 < hi < 128
    ensures DecodeHunk([]) == HunkData([])
    ensures |data| == n ==> DecodeHunk([10, n] + data + more) == HunkData(data) && Hunk(data) == [10, n] + data
    ensures |data| == n + 128 * hi ==>
              && DecodeHunk([10, n + 128, hi] + data + more) == HunkData(data)
              && Hunk(data) == [10, n + 128, hi] + data
  {
    Varint.GroupBytes(n, hi, data + more);
    if |data| == n {
      var payload: seq<byte> := [10, n] + data + more;
      assert payload[1..] == [n] + (data + more) && payload[2..2 + n] == data;
    }
    if |data| == n + 128 * hi {
      var payload: seq<byte> := [10, n + 128, hi] + data + more;
      assert payload[1..] == [n + 128, hi] + (data + more) && payload[3..3 + |data|] == data;
    }
  }

  /** Whole frames of the writer, for data whose length is one byte and for data whose length
      is two. */
  lemma GunFrameBytes(data: seq<byte>, n: nat, hi: nat, l1: byte, l0: byte)
    requires n < 128 && 0 < hi < 128
    ensures |data| == n ==> GunFrame(data) == [0, 0, 0, 0, n + 2, 10, n] + data
    ensures |data| == n + 128 * hi && |data| + 3 == l1 as int * 256 + l0 as int ==>
              GunFrame(data) == [0, 0, 0, l1, l0, 10, n + 128, hi] + data
  {
    HunkBytes(n, hi, data, []);
    if |data| == n {
      FrameOfHunk(Hunk(data), [10, n], data, 0, n + 2);
    }
    if |data| == n + 128 * hi && |data| + 3 == l1 as int * 256 + l0 as int {
      FrameOfHunk(Hunk(data), [10, n + 128, hi], data, l1, l0);
    }
  }

  lemma FrameOfHunk(hunk: seq<byte>, tag: seq<byte>, data: seq<byte>, l1: byte, l0: byte)
    requires hunk == tag + data && |hunk| == l1 as int * 256 + l0 as int
    ensures Frame(hunk) == [0, 0, 0, l1, l0] + tag + data
  {
    ShortU32(|hunk|, l1, l0);
  }

  lemma ShortU32(n: nat, l1: byte, l0: byte)
    requires n == l1 as int * 256 + l0 as int
    ensures U32(n) == [0, 0, l1, l0]
  {
  }

  /** Any other field than the first, or another wire type, is refused. */
  lemma OtherFieldsRefused(payload: seq<byte>)
    requires payload != [] && payload[0] != 10
    ensures DecodeHunk(payload) == HunkError
  {
  }

  /** A payload is a hunk with that data exactly if it is empty and so is the data, or it has the
      tag, a varint of the data's length, and the data behind it. */
  lemma HunkDecodesExactly(payload: seq<byte>, data: seq<byte>)
    ensures DecodeHunk(payload) == HunkData(data)
            <==> || (payload == [] && data == [])
                 || (payload != [] && payload[0] == 10 && Varint.Decode(payload[1..]).Some?
                     && var (len, width) := Varint.Decode(payload[1..]).value;
                        && 1 + width + len < 0x1_0000_0000_0000_0000 && len == |data|
                        && 1 + width + len <= |payload| && payload[1 + width..1 + width + len] == data)
  {
  }

  // ---- The length arithmetic ---------------------------------------------------

  /** The hunk length is the length the writer announces, and needs four length
      bytes from 2 MiB up. */
  lemma HunkLength(data: seq<byte>)
    requires |data| <= MAX_MESSAGE_SIZE
    ensures |Hunk(data)| == 1 + |Varint.Encode(|data|)| + |data|
    ensures |Hunk(data)| <= |data| + 5
    ensures |data| > MAX_MESSAGE_SIZE - 6 ==> |Hunk(data)| == |data| + 5
  {
    assert Varint.Weight(2) == 0x4000;
    assert Varint.Weight(3) == 0x20_0000;
    assert Varint.Weight(4) == 0x1000_0000;
    Varint.EncodeLength(|data|, 3);
    Varint.EncodeLength(|data|, 4);
  }

  lemma U32RoundTrip(n: nat)
    requires n < 0x1_0000_0000
    ensures FromU32(U32(n)) == n
  {
    var q := n / 0x1_0000;
    assert n / 0x100_0000 == q / 256;
  }

  /** Decoding a hunk gives back its data, for every chunk the writer can cut. */
  lemma HunkRoundTrip(data: seq<byte>)
    requires |data| <= MAX_MESSAGE_SIZE
    ensures DecodeHunk(Hunk(data)) == HunkData(data)
  {
    var v := Varint.Encode(|data|);
    Varint.RoundTrip(|data|, data);
    HunkParts(v, data);
  }

  lemma HunkParts(v: seq<byte>, data: seq<byte>)
    ensures var h := [0x0A] + v + data; h[1..] == v + data && h[1 + |v|..1 + |v| + |data|] == data
  {
  }

  /** The slice is out of order exactly for a hunk whose length is written in ten bytes, all
      ones but for its lowest few bits. */
  lemma HunkPanicsExactly(payload: seq<byte>)
    ensures DecodeHunk(payload).Panicked? <==> payload != [] && payload[0] == 0x0A && Varint.NearTop(payload[1..])
  {
    if payload != [] {
      Varint.OverflowsExactly(payload[1..]);
    }
  }

  /** Such a hunk: the length is the largest there is. */
  lemma LargestLengthPanics(payload: seq<byte>)
    requires payload == [0x0A, 255, 255, 255, 255, 255, 255, 255, 255, 255, 1]
    ensures DecodeHunk(payload).Panicked?
  {
    HunkPanicsExactly(payload);
  }

  /** A frame the writer emits is accepted exactly when its chunk leaves five bytes of
      the 16 MiB for the hunk header; a longer chunk is cut and sent but refused. */
  lemma FrameAcceptedExactly(data: seq<byte>, tail: seq<byte>)
    requires |data| <= MAX_MESSAGE_SIZE
    ensures NextFrame(GunFrame(data) + tail)
         == if |data| <= MAX_MESSAGE_SIZE - 5 then Next(Hunk(data), tail) else BadFrame
  {
    HunkLength(data);
    var payload := Hunk(data);
    var buf := GunFrame(data) + tail;
    assert buf[1..5] == U32(|payload|);
    U32RoundTrip(|payload|);
    if |data| <= MAX_MESSAGE_SIZE - 5 {
      assert buf[5..5 + |payload|] == payload;
      assert buf[5 + |payload|..] == tail;
    }
  }

  // ---- Refragmentation ---------------------------------------------------------

  lemma NextFrameExtends(buf: seq<byte>, more: seq<byte>)
    ensures NextFrame(buf).BadFrame? ==> NextFrame(buf + more).BadFrame?
    ensures NextFrame(buf).Next? ==>
              NextFrame(buf + more) == Next(NextFrame(buf).payload, NextFrame(buf).rest + more)
  {
    if |buf| >= 5 {
      assert (buf + more)[1..5] == buf[1..5];
      var len := FromU32(buf[1..5]);
      if len <= MAX_MESSAGE_SIZE && |buf| >= 5 + len {
        assert (buf + more)[5..5 + len] == buf[5..5 + len];
        assert (buf + more)[5 + len..] == buf[5 + len..] + more;
      }
    }
  }

  /** `all` is what decoding `head` and then, unless that failed, `tail` amounts to. */
  predicate Joins(head: Decoded, tail: Decoded, all: Decoded)
  {
    if head.failed then all.failed && all.data == head.data
    else all == Decoded(head.data + tail.data, tail.rest, tail.failed)
  }

  function Prepend(first: seq<byte>, d: Decoded): (r: Decoded)
  {
    d.(data := first + d.data)
  }

  lemma JoinsPrepend(first: seq<byte>, head: Decoded, tail: Decoded, all: Decoded)
    requires Joins(head, tail, all)
    ensures Joins(Prepend(first, head), tail, Prepend(first, all))
  {
    assert (first + head.data) + tail.data == first + (head.data + tail.data);
  }

  /** A frame taken off the front of a buffer, with or without more bytes behind it. */
  lemma DecodeConsumesOne(buf: seq<byte>, more: seq<byte>)
    requires NextFrame(buf).Next?
    ensures match DecodeHunk(NextFrame(buf).payload)
            case HunkData(first) =>
              && DecodeAll(buf) == Prepend(first, DecodeAll(NextFrame(buf).rest))
              && DecodeAll(buf + more) == Prepend(first, DecodeAll(NextFrame(buf).rest + more))
            case _ =>
              && DecodeAll(buf) == Decoded([], NextFrame(buf).rest, true)
              && DecodeAll(buf + more) == Decoded([], NextFrame(buf).rest + more, true)
  {
    NextFrameExtends(buf, more);
  }

  lemma DecodeStops(buf: seq<byte>, more: seq<byte>)
    requires !NextFrame(buf).Next?
    ensures Joins(DecodeAll(buf), DecodeAll(DecodeAll(buf).rest + more), DecodeAll(buf + more))
  {
    NextFrameExtends(buf, more);
    assert [] + DecodeAll(buf + more).data == DecodeAll(buf + more).data;
  }

  /** Decoding what has arrived and then the remainder with what arrives next is the
      same as decoding everything at once; a rejected frame stays rejected. */
  lemma {:induction false} DecodeResumes(buf: seq<byte>, more: seq<byte>)
    ensures Joins(DecodeAll(buf), DecodeAll(DecodeAll(buf).rest + more), DecodeAll(buf + more))
    decreases |buf|
  {
    if !NextFrame(buf).Next? {
      DecodeStops(buf, more);
    } else {
      var rest := NextFrame(buf).rest;
      DecodeConsumesOne(buf, more);
      var hunk := DecodeHunk(NextFrame(buf).payload);
      if hunk.HunkData? {
        DecodeResumes(rest, more);
        JoinsPrepend(hunk.data, DecodeAll(rest), DecodeAll(DecodeAll(rest).rest + more), DecodeAll(rest + more));
      }
    }
  }

  lemma DecodeGrows(buf: seq<byte>, more: seq<byte>)
    ensures DecodeAll(buf).data <= DecodeAll(buf + more).data
  {
    DecodeResumes(buf, more);
  }

  /** Feeding pieces one at a time, carrying the remainder over. */
  function DecodePieces(carry: seq<byte>, pieces: seq<seq<byte>>): (r: Decoded)
    decreases |pieces|
  {
    if pieces == [] then DecodeAll(carry)
    else
      var head := DecodeAll(carry + pieces[0]);
      if head.failed then head
      else
        var more := DecodePieces(head.rest, pieces[1..]);
        Decoded(head.data + more.data, more.rest, more.failed)
  }

  /** No decoded remainder holds another complete frame. */
  lemma {:induction false} RemainderIsFinal(buf: seq<byte>)
    requires !DecodeAll(buf).failed
    ensures NextFrame(DecodeAll(buf).rest).NeedMore?
    ensures DecodeAll(DecodeAll(buf).rest) == Decoded([], DecodeAll(buf).rest, false)
    decreases |buf|
  {
    if NextFrame(buf).Next? {
      RemainderIsFinal(NextFrame(buf).rest);
    }
  }

  /** Every way of cutting a byte stream into pieces decodes to the same bytes and
      the same verdict, and loses nothing while waiting for more. */
  lemma {:induction false} RefragmentationInvariant(carry: seq<byte>, pieces: seq<seq<byte>>)
    ensures DecodePieces(carry, pieces).data == DecodeAll(carry + Flatten(pieces)).data
    ensures DecodePieces(carry, pieces).failed == DecodeAll(carry + Flatten(pieces)).failed
    ensures !DecodePieces(carry, pieces).failed ==>
              DecodePieces(carry, pieces).rest == DecodeAll(carry + Flatten(pieces)).rest
    decreases |pieces|
  {
    if pieces == [] {
      assert carry + Flatten(pieces) == carry;
    } else {
      var head := DecodeAll(carry + pieces[0]);
      var later := Flatten(pieces[1..]);
      assert carry + Flatten(pieces) == (carry + pieces[0]) + later;
      DecodeResumes(carry + pieces[0], later);
      if !head.failed {
        RefragmentationInvariant(head.rest, pieces[1..]);
      }
    }
  }

  // ---- Whole streams -------------------------------------------------------------

  lemma {:induction false} WireImageSnoc(chunks: seq<seq<byte>>, last: seq<byte>)
    requires Emittable(chunks + [last])
    ensures Emittable(chunks) && 1 <= |last| <= MAX_MESSAGE_SIZE
    ensures WireImage(chunks + [last]) == WireImage(chunks) + GunFrame(last)
  {
    EmittableSnoc(chunks, last);
    if chunks == [] {
      OneFrameOnWire(chunks + [last], last);
    } else {
      WireImageSnoc(chunks[1..], last);
      FirstFrameOnWire(chunks, last);
    }
  }

  lemma EmittableSnoc(chunks: seq<seq<byte>>, last: seq<byte>)
    requires Emittable(chunks + [last])
    ensures Emittable(chunks) && 1 <= |last| <= MAX_MESSAGE_SIZE
    ensures chunks != [] ==> Emittable(chunks[1..] + [last])
  {
    var all := chunks + [last];
    assert all[|chunks|] == last;
    assert forall i :: 0 <= i < |chunks| ==> all[i] == chunks[i];
    assert chunks != [] ==> all[1..] == chunks[1..] + [last];
  }

  lemma OneFrameOnWire(all: seq<seq<byte>>, last: seq<byte>)
    requires all == [last] && Emittable(all) && 1 <= |last| <= MAX_MESSAGE_SIZE
    ensures WireImage(all) == GunFrame(last) == WireImage([]) + GunFrame(last)
  {
    assert all[1..] == [];
    assert GunFrame(last) + [] == GunFrame(last) == [] + GunFrame(last);
  }

  lemma FirstFrameOnWire(chunks: seq<seq<byte>>, last: seq<byte>)
    requires chunks != [] && Emittable(chunks) && Emittable(chunks + [last]) && Emittable(chunks[1..] + [last])
    requires 1 <= |last| <= MAX_MESSAGE_SIZE
    requires WireImage(chunks[1..] + [last]) == WireImage(chunks[1..]) + GunFrame(last)
    ensures WireImage(chunks + [last]) == WireImage(chunks) + GunFrame(last)
  {
    var all := chunks + [last];
    assert all[1..] == chunks[1..] + [last] && all[0] == chunks[0];
    Associative(GunFrame(chunks[0]), WireImage(chunks[1..]), GunFrame(last));
  }

  /** Decoding a wire image yields a prefix of the chunks' bytes; it yields all of them,
      with nothing left over, exactly when every chunk is acceptable. */
  lemma {:induction false} WireRoundTrip(chunks: seq<seq<byte>>)
    requires Emittable(chunks)
    ensures DecodeAll(WireImage(chunks)).data <= Flatten(chunks)
    ensures Acceptable(chunks) ==> DecodeAll(WireImage(chunks)) == Decoded(Flatten(chunks), [], false)
    ensures !Acceptable(chunks) ==> DecodeAll(WireImage(chunks)).failed
    ensures DecodeAll(WireImage(chunks)).data == Flatten(chunks) <==> Acceptable(chunks)
  {
    if chunks != [] {
      var later := WireImage(chunks[1..]);
      FrameAcceptedExactly(chunks[0], later);
      HunkRoundTrip(chunks[0]);
      WireRoundTrip(chunks[1..]);
      AcceptableCons(chunks);
      if |chunks[0]| > MAX_MESSAGE_SIZE - 5 {
        assert |Flatten(chunks)| > 0;
      }
    }
  }

  lemma AcceptableCons(chunks: seq<seq<byte>>)
    requires chunks != []
    ensures Acceptable(chunks) <==> |chunks[0]| <= MAX_MESSAGE_SIZE - 5 && Acceptable(chunks[1..])
  {
    if Acceptable(chunks[1..]) && |chunks[0]| <= MAX_MESSAGE_SIZE - 5 {
      forall i | 0 <= i < |chunks| ensures |chunks[i]| <= MAX_MESSAGE_SIZE - 5 {
        if i > 0 { assert chunks[i] == chunks[1..][i - 1]; }
      }
    }
  }
}
