/** The protobuf base-128 varint codec of the Gun transport. */
module Varint {
  import opened Bytes
  import opened Options

  const TWO_64: nat := 0x1_0000_0000_0000_0000

  /** The encoding of `val`: seven bits a byte, least significant group first,
      the top bit set on every byte but the last. */
  function Encode(val: nat): (r: seq<byte>)
    decreases val
  {
    if val < 128 then [val] else [val % 128 + 128] + Encode(val / 128)
  }

  /** The number a string of groups denotes, continuation bits ignored. */
  function Value(groups: seq<byte>): (v: nat)
  {
    if groups == [] then 0 else groups[0] % 128 + 128 * Value(groups[1..])
  }

  /** How many leading bytes carry a continuation bit. */
  function Continued(buf: seq<byte>): (n: nat)
    ensures n <= |buf|
  {
    if buf == [] || buf[0] < 128 then 0 else 1 + Continued(buf[1..])
  }

  /** What decoding means: the value of the groups up to and including the first
      byte without a continuation bit, kept to 64 bits, provided that byte is
      among the first ten. */
  function Decode(buf: seq<byte>): (r: Option<(nat, nat)>)
  {
    var n := Continued(buf);
    if n < |buf| && n < 10 then Some((Truncate(Value(buf[..n + 1])), n + 1)) else None
  }

  lemma {:induction false} ContinuedShape(buf: seq<byte>)
    ensures forall i :: 0 <= i < Continued(buf) ==> buf[i] >= 128
    ensures Continued(buf) < |buf| ==> buf[Continued(buf)] < 128
  {
    if buf != [] && buf[0] >= 128 {
      ContinuedShape(buf[1..]);
    }
  }

  /** Decoding succeeds exactly when one of the first ten bytes ends the number, and
      consumes the bytes up to the first such byte. */
  lemma DecodeSucceedsExactly(buf: seq<byte>)
    ensures Decode(buf).Some? <==> exists i :: 0 <= i < |buf| && i < 10 && buf[i] < 128
    ensures Decode(buf).Some? ==>
              var n := Decode(buf).value.1;
              && 1 <= n <= |buf| && n <= 10 && buf[n - 1] < 128
              && forall i :: 0 <= i < n - 1 ==> buf[i] >= 128
  {
    ContinuedShape(buf);
  }

  /** The bytes themselves: a number below 128 is one byte, and one of two groups the low seven
      bits with the top bit set and then the high ones. */
  lemma GroupBytes(lo: nat, hi: nat, rest: seq<byte>)
    requires lo < 128 && 0 < hi < 128
    ensures Encode(lo) == [lo] && Encode(lo + 128 * hi) == [lo + 128, hi]
    ensures Decode([lo] + rest) == Some((lo, 1)) && Decode([lo + 128, hi] + rest) == Some((lo + 128 * hi, 2))
  {
    var one, two: seq<byte> := [lo] + rest, [lo + 128, hi] + rest;
    assert Continued(one) == 0 && one[..1] == [lo];
    assert Continued(two[1..]) == 0 && Continued(two) == 1 && two[..2] == [lo + 128, hi];
    assert [lo + 128, hi][1..] == [hi] && [hi][1..] == [] && [lo][1..] == [];
    assert Value([lo]) == lo + 128 * Value([]);
    assert Value([hi]) == hi + 128 * Value([]);
  }

  // ---- The loops of the source ---------------------------------------------

  /** Appending the encoding group by group. */
  method PutVarint(val: nat, buf: seq<byte>) returns (out: seq<byte>)
    requires val < TWO_64
    ensures out == buf + Encode(val)
  {
    out := buf;
    var rest := val;
    while rest >= 128
      invariant out + Encode(rest) == buf + Encode(val)
    {
      out := out + [rest % 128 + 128];
      rest := rest / 128;
    }
    out := out + [rest];
  }

  /** The length the writer computes before it emits the varint. */
  method PrecomputedLength(val: nat) returns (len: nat)
    ensures len == |Encode(val)|
  {
    len := 1;
    var remaining := val;
    while remaining >= 128
      invariant len + |Encode(remaining)| == |Encode(val)| + 1
    {
      remaining := remaining / 128;
      len := len + 1;
    }
  }

  /** 128 to the power `n`, the weight of group `n`. */
  function Weight(n: nat): (w: nat)
    ensures w > 0
  {
    if n == 0 then 1 else 128 * Weight(n - 1)
  }

  lemma {:induction false} ValueSnoc(groups: seq<byte>, b: byte)
    ensures Value(groups + [b]) == Value(groups) + (b % 128) * Weight(|groups|)
  {
    if groups == [] {
      assert groups + [b] == [b];
      assert Value([b]) == b % 128 + 128 * Value([]);
    } else {
      ValueSnoc(groups[1..], b);
      assert (groups + [b])[1..] == groups[1..] + [b];
      var x, w := b % 128, Weight(|groups| - 1);
      assert 128 * (x * w) == x * (128 * w);
    }
  }

  lemma {:induction false} ValueBound(groups: seq<byte>)
    ensures Value(groups) < Weight(|groups|)
  {
    if groups != [] {
      ValueBound(groups[1..]);
    }
  }

  lemma WeightsToTen()
    ensures Weight(8) == 0x100_0000_0000_0000
    ensures Weight(9) == 0x8000_0000_0000_0000
  {
    assert Weight(2) == 0x4000;
    assert Weight(4) == 0x1000_0000;
    assert Weight(6) == 0x400_0000_0000;
  }

  lemma {:induction false} WeightMonotone(m: nat, n: nat)
    requires m <= n
    ensures Weight(m) <= Weight(n)
    decreases n - m
  {
    if m < n {
      WeightMonotone(m, n - 1);
    }
  }

  /** The accumulating loop with its 64-bit shift, against `Decode`.  `val` is
      or-ed with bits above its own, so the or is a sum. */
  method GetVarint(buf: seq<byte>) returns (r: Option<(nat, nat)>)
    ensures r == Decode(buf)
  {
    ContinuedShape(buf);
    var val: nat := 0;
    var i := 0;
    while i < |buf|
      invariant 0 <= i <= |buf| && i <= 10
      invariant i <= Continued(buf)
      invariant i < 10 ==> val == Value(buf[..i])
    {
      if 7 * i >= 64 {
        return None;
      }
      var b := buf[i];
      assert buf[..i + 1] == buf[..i] + [b];
      GroupFits(buf[..i], b);
      val := val + Truncate((b % 128) * Weight(i));
      if b < 128 {
        return Some((val, i + 1));
      }
      i := i + 1;
    }
    r := None;
  }

  /** Adding group `n`, truncated to 64 bits, gives the value truncated to 64 bits. */
  lemma GroupFits(groups: seq<byte>, b: byte)
    requires |groups| < 10
    ensures Value(groups) + Truncate((b % 128) * Weight(|groups|)) == Truncate(Value(groups + [b]))
    ensures |groups| < 9 ==> Truncate(Value(groups + [b])) == Value(groups + [b])
  {
    if |groups| < 9 {
      LowGroup(groups, b);
    } else {
      ValueSnoc(groups, b);
      ValueBound(groups);
      WeightsToTen();
      TopGroup(Value(groups), b % 128);
    }
  }

  /** The low 64 bits. */
  function Truncate(x: nat): (r: nat)
    ensures x < TWO_64 ==> r == x
    ensures r < TWO_64
  {
    x % TWO_64
  }

  lemma LowGroup(groups: seq<byte>, b: byte)
    requires |groups| < 9
    ensures Value(groups + [b]) == Value(groups) + (b % 128) * Weight(|groups|) < TWO_64
  {
    ValueSnoc(groups, b);
    ValueBound(groups + [b]);
    WeightsToTen();
    WeightMonotone(|groups| + 1, 9);
  }

  /** The tenth group contributes one bit, bit 63. */
  lemma TopGroup(low: nat, x: nat)
    requires low < 0x8000_0000_0000_0000
    ensures low + Truncate(x * 0x8000_0000_0000_0000) == Truncate(low + x * 0x8000_0000_0000_0000)
  {
  }

  // ---- Decoding inverts encoding -------------------------------------------

  lemma {:induction false} EncodeShape(val: nat)
    ensures |Encode(val)| >= 1 && Continued(Encode(val)) == |Encode(val)| - 1
    ensures Value(Encode(val)) == val
    decreases val
  {
    if val >= 128 {
      EncodeShape(val / 128);
      assert Encode(val)[1..] == Encode(val / 128);
    }
  }

  lemma {:induction false} EncodeLength(val: nat, n: nat)
    requires n >= 1
    ensures |Encode(val)| <= n <==> val < Weight(n)
    decreases n
  {
    if val >= 128 {
      EncodeShape(val / 128);
      if n > 1 {
        EncodeLength(val / 128, n - 1);
      }
    } else {
      WeightMonotone(1, n);
    }
  }

  lemma {:induction false} ContinuedPrefix(head: seq<byte>, tail: seq<byte>)
    requires Continued(head) < |head|
    ensures Continued(head + tail) == Continued(head)
  {
    assert (head + tail)[0] == head[0];
    if head[0] >= 128 {
      assert (head + tail)[1..] == head[1..] + tail;
      ContinuedPrefix(head[1..], tail);
    }
  }

  /** Decoding an encoded 64-bit value gives it back, whatever follows it. */
  lemma RoundTrip(val: nat, tail: seq<byte>)
    requires val < TWO_64
    ensures Decode(Encode(val) + tail) == Some((val, |Encode(val)|))
    ensures |Encode(val)| <= 10
  {
    EncodeShape(val);
    ContinuedPrefix(Encode(val), tail);
    WeightsToTen();
    assert Weight(10) == 128 * Weight(9);
    EncodeLength(val, 10);
    assert (Encode(val) + tail)[..|Encode(val)|] == Encode(val);
  }

  // ---- The top of the range ---------------------------------------------------

  lemma {:induction false} AllOnes(groups: seq<byte>)
    ensures Value(groups) == Weight(|groups|) - 1 <==> forall i :: 0 <= i < |groups| ==> groups[i] % 128 == 127
  {
    if groups != [] {
      AllOnes(groups[1..]);
      ValueBound(groups[1..]);
      if groups[0] % 128 == 127 && forall i :: 0 <= i < |groups| - 1 ==> groups[1..][i] % 128 == 127 {
        assert forall i :: 1 <= i < |groups| ==> groups[i] == groups[1..][i - 1];
      }
    }
  }

  /** Nine groups come within eleven of their top exactly if all but the lowest are ones and
      that one is at least 117. */
  lemma NineNearTop(groups: seq<byte>)
    requires |groups| == 9
    ensures Value(groups) >= Weight(9) - 11 <==> NineOnes(groups)
  {
    var tail := groups[1..];
    AllOnes(tail);
    ValueBound(tail);
    assert forall i :: 0 <= i < 8 ==> tail[i] == groups[i + 1];
    assert (forall i :: 0 <= i < 8 ==> tail[i] % 128 == 127) ==> forall i :: 1 <= i < 9 ==> groups[i] == tail[i - 1];
  }

  /** The bytes of a number within eleven of the top of the 64-bit range. */
  predicate NearTop(buf: seq<byte>)
  {
    |buf| >= 10 && buf[0] >= 245 && (forall i :: 1 <= i < 9 ==> buf[i] == 255) && buf[9] < 128 && buf[9] % 2 == 1
  }

  /** What decodes to a length that an offset behind it carries past 64 bits. */
  lemma OverflowsExactly(buf: seq<byte>)
    ensures Decode(buf).Some? && 1 + Decode(buf).value.1 + Decode(buf).value.0 >= TWO_64 <==> NearTop(buf)
  {
    DecodeSucceedsExactly(buf);
    if NearTop(buf) {
      assert Decode(buf).Some?;
    }
    if Decode(buf).Some? {
      var n := Decode(buf).value.1;
      if n == 10 {
        TenNearTop(buf);
      } else {
        ShortIsFar(buf, n);
      }
    }
  }

  /** Of the tenth group only the lowest bit fits. */
  lemma TopBit(x: nat)
    ensures Truncate(x * 0x8000_0000_0000_0000) == (x % 2) * 0x8000_0000_0000_0000
  {
    assert x == 2 * (x / 2) + x % 2;
    assert x * 0x8000_0000_0000_0000 == (x / 2) * TWO_64 + (x % 2) * 0x8000_0000_0000_0000;
  }

  /** Ten bytes denote nine groups and that bit. */
  lemma TenGroups(buf: seq<byte>)
    requires Decode(buf).Some? && Decode(buf).value.1 == 10
    ensures Decode(buf).value.0 == Value(buf[..9]) + (buf[9] as int % 2) * 0x8000_0000_0000_0000
    ensures Value(buf[..9]) < 0x8000_0000_0000_0000
  {
    DecodeSucceedsExactly(buf);
    assert buf[..10] == buf[..9] + [buf[9]];
    GroupFits(buf[..9], buf[9]);
    ValueBound(buf[..9]);
    WeightsToTen();
    TopBit(buf[9]);
  }

  lemma TenNearTop(buf: seq<byte>)
    requires Decode(buf).Some? && Decode(buf).value.1 == 10
    ensures Decode(buf).value.0 >= TWO_64 - 11 <==> NearTop(buf)
  {
    var groups := buf[..9];
    TenGroups(buf);
    NineGroups(groups);
    DecodeSucceedsExactly(buf);
    assert forall i :: 0 <= i < 9 ==> groups[i] == buf[i];
    assert NearTop(buf) <==> NineOnes(groups) && buf[9] % 2 == 1;
  }

  /** Nine continued bytes as near the top as they come. */
  predicate NineOnes(groups: seq<byte>)
    requires |groups| == 9
  {
    groups[0] % 128 >= 117 && forall i :: 1 <= i < 9 ==> groups[i] % 128 == 127
  }

  lemma NineGroups(groups: seq<byte>)
    requires |groups| == 9
    ensures Value(groups) >= 0x8000_0000_0000_0000 - 11 <==> NineOnes(groups)
  {
    NineNearTop(groups);
    WeightsToTen();
  }

  lemma ShortIsFar(buf: seq<byte>, n: nat)
    requires Decode(buf).Some? && Decode(buf).value.1 == n < 10
    ensures Decode(buf).value.0 < TWO_64 - 11
    ensures !NearTop(buf)
  {
    DecodeSucceedsExactly(buf);
    ValueBound(buf[..n]);
    WeightMonotone(n, 9);
    WeightsToTen();
  }
}
