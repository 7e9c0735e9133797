/** SOCKS5 addresses (sections 5 and 7 of RFC 1928): one encoder, a decoder for slices and
    one for streams, and the UDP datagram around an address. */
module Socks5 {
  import opened Bytes

  const ATYP_IPV4: byte := 1
  const ATYP_DOMAIN: byte := 3
  const ATYP_IPV6: byte := 4

  /** A domain is the bytes of its UTF-8 form. */
  datatype Address =
    | Ipv4(octets: seq<byte>, port: nat)
    | Ipv6(octets: seq<byte>, port: nat)
    | Domain(name: seq<byte>, port: nat)

  /** UTF-8 validity is a parameter: nothing here depends on what it accepts. */
  type Utf8 = seq<byte> -> bool

  predicate Proper(a: Address, utf8: Utf8)
  {
    && a.port < 65536
    && match a
       case Ipv4(octets, _) => |octets| == 4
       case Ipv6(octets, _) => |octets| == 16
       case Domain(name, _) => utf8(name)
  }

  function U16(n: nat): (w: seq<byte>)
    requires n < 65536
    ensures |w| == 2
  {
    [n / 256, n % 256]
  }

  function FromU16(hi: byte, lo: byte): (n: nat)
    ensures n < 65536
  {
    hi as int * 256 + lo
  }

  // ---- Writing ----------------------------------------------------------------------------

  function TypeOf(a: Address): (atyp: byte)
  {
    match a
    case Ipv4(_, _) => ATYP_IPV4
    case Ipv6(_, _) => ATYP_IPV6
    case Domain(_, _) => ATYP_DOMAIN
  }

  /** A domain of more than 255 bytes has no form. */
  predicate Encodable(a: Address)
  {
    a.Domain? ==> |a.name| <= 255
  }

  /** What follows the type byte. */
  function Body(a: Address): (w: seq<byte>)
    requires a.port < 65536 && Encodable(a)
  {
    match a
    case Ipv4(octets, port) => octets + U16(port)
    case Ipv6(octets, port) => octets + U16(port)
    case Domain(name, port) => [|name|] + name + U16(port)
  }

  /** Appends to `buf`; a domain that is too long fails with its type byte written. */
  method WriteAddress(buf: seq<byte>, dest: Address, ghost utf8: Utf8) returns (ok: bool, out: seq<byte>)
    requires Proper(dest, utf8)
    ensures ok <==> Encodable(dest)
    ensures ok ==> out == buf + [TypeOf(dest)] + Body(dest)
    ensures !ok ==> out == buf + [ATYP_DOMAIN]
  {
    out := buf;
    match dest {
      case Ipv4(octets, port) =>
        out := out + [ATYP_IPV4];
        out := out + octets;
        out := out + U16(port);
      case Ipv6(octets, port) =>
        out := out + [ATYP_IPV6];
        out := out + octets;
        out := out + U16(port);
      case Domain(name, port) =>
        out := out + [ATYP_DOMAIN];
        if |name| > 255 {
          return false, out;
        }
        out := out + [|name|];
        out := out + name;
        out := out + U16(port);
    }
    ok := true;
    assert out == buf + [TypeOf(dest)] + Body(dest);
  }

  // ---- The slice decoder --------------------------------------------------------------------

  datatype Decoded = Fail | Got(address: Address, consumed: nat)

  /** An address from the front of `data`, after its type byte. */
  function Decode(data: seq<byte>, atyp: byte, utf8: Utf8): (r: Decoded)
    ensures r.Got? ==> r.consumed <= |data| && Proper(r.address, utf8) && Encodable(r.address)
  {
    if atyp == ATYP_IPV4 then
      if |data| < 6 then Fail else Got(Ipv4(data[..4], FromU16(data[4], data[5])), 6)
    else if atyp == ATYP_IPV6 then
      if |data| < 18 then Fail else Got(Ipv6(data[..16], FromU16(data[16], data[17])), 18)
    else if atyp == ATYP_DOMAIN then
      if |data| == 0 then Fail
      else
        var n := data[0] as int;
        if |data| < 1 + n + 2 then Fail
        else if !utf8(data[1..1 + n]) then Fail
        else Got(Domain(data[1..1 + n], FromU16(data[1 + n], data[2 + n])), 1 + n + 2)
    else Fail
  }

  // ---- The streaming decoder ----------------------------------------------------------------

  /** A stream that ends after `data`. */
  class Reader {
    const data: seq<byte>
    var pos: nat

    predicate Valid()
      reads this
    {
      pos <= |data|
    }

    constructor (data: seq<byte>)
      ensures Valid() && this.data == data && pos == 0
    {
      this.data, pos := data, 0;
    }

    /** Exactly `n` bytes, or a failure at the end of the stream. */
    method ReadExact(n: nat) returns (ok: bool, bytes: seq<byte>)
      requires Valid()
      modifies this
      ensures Valid()
      ensures ok <==> old(pos) + n <= |data|
      ensures ok ==> bytes == data[old(pos)..old(pos) + n] && pos == old(pos) + n
    {
      ok := pos + n <= |data|;
      if ok {
        bytes := data[pos..pos + n];
        pos := pos + n;
      } else {
        bytes := [];
        pos := |data|;
      }
    }

    method ReadPort() returns (ok: bool, port: nat)
      requires Valid()
      modifies this
      ensures Valid()
      ensures ok <==> old(pos) + 2 <= |data|
      ensures ok ==> pos == old(pos) + 2 && port == FromU16(data[old(pos)], data[old(pos) + 1])
    {
      var bytes;
      ok, bytes := ReadExact(2);
      port := if ok then FromU16(bytes[0], bytes[1]) else 0;
    }

    /** The streaming decoder agrees with the slice decoder on every input: on success, on
        the address, and on how much is consumed. */
    method ReadAddress(atyp: byte, utf8: Utf8) returns (r: Decoded)
      requires Valid()
      modifies this
      ensures Valid()
      ensures r == Decode(data[old(pos)..], atyp, utf8)
      ensures r.Got? ==> pos == old(pos) + r.consumed
    {
      ghost var rest := data[pos..];
      if atyp == ATYP_IPV4 {
        r := ReadFixed(4, true);
      } else if atyp == ATYP_IPV6 {
        r := ReadFixed(16, false);
      } else if atyp == ATYP_DOMAIN {
        r := ReadDomain(utf8);
      } else {
        r := Fail;
      }
    }

    method ReadFixed(n: nat, v4: bool) returns (r: Decoded)
      requires Valid()
      modifies this
      ensures Valid()
      ensures r.Got? <==> old(pos) + n + 2 <= |data|
      ensures r.Got? ==>
                var rest := data[old(pos)..]; var port := FromU16(rest[n], rest[n + 1]);
                && r == Got(if v4 then Ipv4(rest[..n], port) else Ipv6(rest[..n], port), n + 2)
                && pos == old(pos) + n + 2
    {
      var ok, octets := ReadExact(n);
      if !ok {
        return Fail;
      }
      var ok2, port := ReadPort();
      if !ok2 {
        return Fail;
      }
      assert data[old(pos)..][..n] == octets;
      r := Got(if v4 then Ipv4(octets, port) else Ipv6(octets, port), n + 2);
    }

    method ReadDomain(utf8: Utf8) returns (r: Decoded)
      requires Valid()
      modifies this
      ensures Valid()
      ensures r == Decode(data[old(pos)..], ATYP_DOMAIN, utf8)
      ensures r.Got? ==> pos == old(pos) + r.consumed
    {
      ghost var rest := data[pos..];
      var ok, length := ReadExact(1);
      if !ok {
        return Fail;
      }
      assert length[0] == rest[0];
      var n := length[0] as int;
      var ok2, name := ReadExact(n);
      if !ok2 {
        return Fail;
      }
      var ok3, port := ReadPort();
      if !ok3 {
        return Fail;
      }
      assert name == rest[1..1 + n];
      if !utf8(name) {
        return Fail;
      }
      r := Got(Domain(name, port), 1 + n + 2);
    }
  }

  // ---- Round trips ------------------------------------------------------------------------------

  lemma U16RoundTrip(n: nat)
    requires n < 65536
    ensures FromU16(U16(n)[0], U16(n)[1]) == n
  {
  }

  /** Decoding what was encoded, whatever follows. */
  lemma DecodeInvertsBody(a: Address, suffix: seq<byte>, utf8: Utf8)
    requires Proper(a, utf8) && Encodable(a)
    ensures Decode(Body(a) + suffix, TypeOf(a), utf8) == Got(a, |Body(a)|)
  {
    U16RoundTrip(a.port);
    var data := Body(a) + suffix;
    match a
    case Ipv4(octets, port) =>
      assert data[..4] == octets && data[4] == U16(port)[0] && data[5] == U16(port)[1];
    case Ipv6(octets, port) =>
      assert data[..16] == octets && data[16] == U16(port)[0] && data[17] == U16(port)[1];
    case Domain(name, port) =>
      NameThenPort(|name| as byte, name, U16(port), suffix);
  }

  lemma NameThenPort(length: byte, name: seq<byte>, port: seq<byte>, suffix: seq<byte>)
    requires |port| == 2
    ensures var data, n := [length] + name + port + suffix, |name|;
            data[0] == length && data[1..1 + n] == name && data[1 + n] == port[0] && data[2 + n] == port[1]
  {
  }

  /** A stretch of bytes and the port after it. */
  lemma ThenPort(data: seq<byte>, k: nat)
    requires k + 2 <= |data|
    ensures data[..k] + U16(FromU16(data[k], data[k + 1])) == data[..k + 2]
  {
    PortBytes(data[k], data[k + 1]);
  }

  lemma PortBytes(hi: byte, lo: byte)
    ensures U16(FromU16(hi, lo)) == [hi, lo]
  {
  }

  lemma LengthThenName(data: seq<byte>, n: nat)
    requires 1 + n <= |data| && n == data[0] as int
    ensures [n as byte] + data[1..1 + n] == data[..1 + n]
  {
  }

  /** And the other way: an address that decodes has only that encoding. */
  lemma BodyInvertsDecode(data: seq<byte>, atyp: byte, utf8: Utf8)
    requires Decode(data, atyp, utf8).Got?
    ensures var r := Decode(data, atyp, utf8);
            TypeOf(r.address) == atyp && Body(r.address) == data[..r.consumed]
  {
    if atyp == ATYP_DOMAIN {
      DomainInvertsDecode(data, data[0], Decode(data, atyp, utf8).address);
    } else {
      IpInvertsDecode(data, Decode(data, atyp, utf8).consumed - 2, Decode(data, atyp, utf8).address);
    }
  }

  lemma IpInvertsDecode(data: seq<byte>, k: nat, a: Address)
    requires k + 2 <= |data| && !a.Domain? && a.octets == data[..k] && a.port == FromU16(data[k], data[k + 1])
    ensures Body(a) == data[..k + 2]
  {
    ThenPort(data, k);
  }

  lemma DomainInvertsDecode(data: seq<byte>, n: nat, a: Address)
    requires 1 + n + 2 <= |data| && n == data[0] as int
    requires a == Domain(data[1..1 + n], FromU16(data[1 + n], data[2 + n]))
    ensures Body(a) == data[..1 + n + 2]
  {
    LengthThenName(data, n);
    ThenPort(data, 1 + n);
  }

  // ---- Datagrams ---------------------------------------------------------------------------------

  /** `OutOfBounds`: the type byte is read where there is none. */
  datatype Datagram = Malformed | OutOfBounds | Datagram(dest: Address, payload: seq<byte>)

  function ParseDatagram(buf: seq<byte>, utf8: Utf8): (r: Datagram)
  {
    if |buf| < 3 then Malformed
    else if buf[0] != 0 || buf[1] != 0 then Malformed
    else if buf[2] != 0 then Malformed
    else if |buf| == 3 then OutOfBounds
    else
      match Decode(buf[4..], buf[3], utf8)
      case Fail => Malformed
      case Got(dest, consumed) => Datagram(dest, buf[4 + consumed..])
  }

  method EncodeDatagram(dest: Address, payload: seq<byte>, ghost utf8: Utf8) returns (ok: bool, out: seq<byte>)
    requires Proper(dest, utf8)
    ensures ok <==> Encodable(dest)
    ensures ok ==> out == Image(dest, payload)
    ensures ok ==> ParseDatagram(out, utf8) == Datagram(dest, payload)
  {
    ok, out := WriteAddress([0, 0, 0], dest, utf8);
    if !ok {
      return false, [];
    }
    out := out + payload;
    assert out == Image(dest, payload);
    ParseInvertsEncode(dest, payload, utf8);
  }

  /** A datagram on the wire: no reserved bits, no fragment, the address, the payload. */
  function Image(dest: Address, payload: seq<byte>): (w: seq<byte>)
    requires dest.port < 65536 && Encodable(dest)
  {
    [0, 0, 0, TypeOf(dest)] + (Body(dest) + payload)
  }

  lemma ParseInvertsEncode(dest: Address, payload: seq<byte>, utf8: Utf8)
    requires Proper(dest, utf8) && Encodable(dest)
    ensures ParseDatagram(Image(dest, payload), utf8) == Datagram(dest, payload)
  {
    var w := Image(dest, payload);
    var rest := Body(dest) + payload;
    assert w[4..] == rest && w[3] == TypeOf(dest);
    DecodeInvertsBody(dest, payload, utf8);
    assert rest[|Body(dest)|..] == payload;
    assert w[4 + |Body(dest)|..] == payload;
  }

  lemma ParsedIsEncoded(buf: seq<byte>, dest: Address, payload: seq<byte>, utf8: Utf8)
    requires ParseDatagram(buf, utf8) == Datagram(dest, payload)
    ensures Proper(dest, utf8) && Encodable(dest) && buf == Image(dest, payload)
  {
    var data := buf[4..];
    var r := Decode(data, buf[3], utf8);
    BodyInvertsDecode(data, buf[3], utf8);
    assert payload == data[r.consumed..];
    assert data == data[..r.consumed] + data[r.consumed..];
    assert buf == [0, 0, 0, TypeOf(dest)] + data;
  }

  /** A datagram parses exactly if it is the encoding of something, and then of just that. */
  lemma ParsesExactly(buf: seq<byte>, dest: Address, payload: seq<byte>, utf8: Utf8)
    ensures ParseDatagram(buf, utf8) == Datagram(dest, payload)
            <==> Proper(dest, utf8) && Encodable(dest) && buf == Image(dest, payload)
  {
    if ParseDatagram(buf, utf8) == Datagram(dest, payload) {
      ParsedIsEncoded(buf, dest, payload, utf8);
    }
    if Proper(dest, utf8) && Encodable(dest) && buf == Image(dest, payload) {
      ParseInvertsEncode(dest, payload, utf8);
    }
  }

  /** The bytes themselves: three zeros, the type (1, 4 or 3), four octets, sixteen, or a length
      and so many bytes of a name, the port, high byte first, and the payload. */
  lemma DatagramBytes(octets: seq<byte>, name: seq<byte>, hi: byte, lo: byte, payload: seq<byte>, utf8: Utf8)
    ensures var port := hi as int * 256 + lo as int;
            && (|octets| == 4 ==>
                  ParseDatagram([0, 0, 0, 1] + octets + [hi, lo] + payload, utf8)
                  == Datagram(Ipv4(octets, port), payload))
            && (|octets| == 16 ==>
                  ParseDatagram([0, 0, 0, 4] + octets + [hi, lo] + payload, utf8)
                  == Datagram(Ipv6(octets, port), payload))
            && (|name| < 256 && utf8(name) ==>
                  ParseDatagram([0, 0, 0, 3, |name|] + name + [hi, lo] + payload, utf8)
                  == Datagram(Domain(name, port), payload))
  {
    if |octets| == 4 {
      var buf := [0, 0, 0, 1] + octets + [hi, lo] + payload;
      assert buf[4..][..4] == octets && buf[4..][4] == hi && buf[4..][5] == lo && buf[10..] == payload;
    }
    if |octets| == 16 {
      var buf := [0, 0, 0, 4] + octets + [hi, lo] + payload;
      assert buf[4..][..16] == octets && buf[4..][16] == hi && buf[4..][17] == lo && buf[22..] == payload;
    }
    if |name| < 256 && utf8(name) {
      NamedDatagram(name, hi, lo, payload, utf8);
    }
  }

  lemma NamedDatagram(name: seq<byte>, hi: byte, lo: byte, payload: seq<byte>, utf8: Utf8)
    requires |name| < 256 && utf8(name)
    ensures ParseDatagram([0, 0, 0, 3, |name|] + name + [hi, lo] + payload, utf8)
            == Datagram(Domain(name, hi as int * 256 + lo as int), payload)
  {
    var n := |name|;
    var buf := [0, 0, 0, 3, n] + name + [hi, lo] + payload;
    var data := buf[4..];
    assert data[0] as int == n && data[1..1 + n] == name && data[1 + n] == hi && data[2 + n] == lo;
    assert buf[7 + n..] == payload;
  }

  /** Reserved bytes or a fragment number that are not zero, and other types, are refused. */
  lemma RefusedDatagrams(buf: seq<byte>, utf8: Utf8)
    requires |buf| >= 4
    requires buf[0] != 0 || buf[1] != 0 || buf[2] != 0 || (buf[3] != 1 && buf[3] != 3 && buf[3] != 4)
    ensures ParseDatagram(buf, utf8) == Malformed
  {
  }

  /** Every input gets an answer but one: three zero bytes. */
  lemma OutOfBoundsExactly(buf: seq<byte>, utf8: Utf8)
    ensures ParseDatagram(buf, utf8).OutOfBounds? <==> buf == [0, 0, 0]
  {
  }
}
