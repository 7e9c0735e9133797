/** IP ranges kept sorted and looked up by binary search, looking back at no more than four
    ranges: never a false positive, and exactly when a range can be missed. */
module CidrIndex {

  const LOOK_BACK: nat := 4

  /** An address: family and value. */
  datatype Ip = Ip(v6: bool, value: nat)

  /** A range as written: the address keeps its host bits, if it has any. */
  datatype Net = Net(v6: bool, addr: nat, prefix: nat)

  function Width(v6: bool): (w: nat)
  {
    if v6 then 128 else 32
  }

  function Pow2(n: nat): (p: nat)
    ensures p > 0
  {
    if n == 0 then 1 else 2 * Pow2(n - 1)
  }

  predicate Valid(n: Net)
  {
    n.prefix <= Width(n.v6)
  }

  /** How many addresses the range covers. */
  function Size(n: Net): (s: nat)
    requires Valid(n)
    ensures s > 0
  {
    Pow2(HostBits(n))
  }

  function HostBits(n: Net): (h: nat)
    requires Valid(n)
  {
    Width(n.v6) - n.prefix
  }

  /** An address with its last `h` bits cleared. */
  function Mask(addr: nat, h: nat): (a: nat)
  {
    if h == 0 then addr else 2 * Mask(addr / 2, h - 1)
  }

  /** The first address of the range: the written one without its host bits. */
  function Network(n: Net): (a: nat)
    requires Valid(n)
  {
    Mask(n.addr, HostBits(n))
  }

  predicate Contains(n: Net, ip: Ip)
    requires Valid(n)
  {
    n.v6 == ip.v6 && Network(n) <= ip.value < Network(n) + Size(n)
  }

  predicate Canonical(n: Net)
  {
    Valid(n) && Network(n) == n.addr
  }

  /** Family, then address, then prefix length. */
  predicate Le(a: Net, b: Net)
  {
    (!a.v6 && b.v6) || (a.v6 == b.v6 && (a.addr < b.addr || (a.addr == b.addr && a.prefix <= b.prefix)))
  }

  predicate Sorted(ranges: seq<Net>)
  {
    forall i, j :: 0 <= i <= j < |ranges| ==> Le(ranges[i], ranges[j])
  }

  predicate AllValid(ranges: seq<Net>)
  {
    forall i :: 0 <= i < |ranges| ==> Valid(ranges[i])
  }

  predicate AllCanonical(ranges: seq<Net>)
  {
    forall i :: 0 <= i < |ranges| ==> Canonical(ranges[i])
  }

  /** The linear scan the index stands for. */
  predicate Covered(ranges: seq<Net>, ip: Ip)
    requires AllValid(ranges)
  {
    exists i :: 0 <= i < |ranges| && Contains(ranges[i], ip)
  }

  /** The range of the one address. */
  function Probe(ip: Ip): (n: Net)
    ensures Valid(n)
  {
    Net(ip.v6, ip.value, Width(ip.v6))
  }

  /** `idx` splits the ranges into those up to the probe and those after it. */
  predicate Splits(ranges: seq<Net>, ip: Ip, idx: nat)
  {
    && idx <= |ranges|
    && (forall i :: 0 <= i < idx ==> Le(ranges[i], Probe(ip)))
    && (forall i :: idx <= i < |ranges| ==> !Le(ranges[i], Probe(ip)))
  }

  // ---- What a range means -------------------------------------------------------------------

  /** What is left of an address without its last `h` bits. */
  function Leading(x: nat, h: nat): (r: nat)
  {
    if h == 0 then x else Leading(x / 2, h - 1)
  }

  lemma {:induction false} BlockIsLeadingBits(addr: nat, x: nat, h: nat)
    ensures Mask(addr, h) <= x < Mask(addr, h) + Pow2(h) <==> Leading(addr, h) == Leading(x, h)
    decreases h
  {
    if h > 0 {
      BlockIsLeadingBits(addr / 2, x / 2, h - 1);
    }
  }

  /** A range contains an address of its own family that has the same leading bits, as many as
      the prefix says, of 32 or of 128; host bits in the written address do not matter. */
  lemma ContainsMeans(n: Net, ip: Ip)
    requires Valid(n)
    ensures n.prefix <= if n.v6 then 128 else 32
    ensures var host := (if n.v6 then 128 else 32) - n.prefix;
            Contains(n, ip) <==> n.v6 == ip.v6 && Leading(n.addr, host) == Leading(ip.value, host)
  {
    BlockIsLeadingBits(n.addr, ip.value, HostBits(n));
  }

  // ---- Building and looking up ------------------------------------------------------------

  /** The ranges in order. */
  method Build(ranges: seq<Net>) returns (sorted: seq<Net>)
    ensures Sorted(sorted) && multiset(sorted) == multiset(ranges)
  {
    sorted := [];
    var i := 0;
    while i < |ranges|
      invariant 0 <= i <= |ranges|
      invariant Sorted(sorted) && multiset(sorted) == multiset(ranges[..i])
    {
      var next := Insert(sorted, ranges[i]);
      assert ranges[..i + 1] == ranges[..i] + [ranges[i]];
      sorted := next;
      i := i + 1;
    }
    assert ranges[..i] == ranges;
  }

  method Insert(sorted: seq<Net>, n: Net) returns (r: seq<Net>)
    requires Sorted(sorted)
    ensures Sorted(r) && multiset(r) == multiset(sorted) + multiset{n}
  {
    var k := |sorted|;
    while k > 0 && !Le(sorted[k - 1], n)
      invariant 0 <= k <= |sorted|
      invariant forall i :: k <= i < |sorted| ==> Le(n, sorted[i])
    {
      k := k - 1;
    }
    r := sorted[..k] + [n] + sorted[k..];
    assert sorted == sorted[..k] + sorted[k..];
    SortedAround(sorted, k, n);
  }

  lemma SortedAround(sorted: seq<Net>, k: nat, n: Net)
    requires Sorted(sorted) && k <= |sorted|
    requires k > 0 ==> Le(sorted[k - 1], n)
    requires forall i :: k <= i < |sorted| ==> Le(n, sorted[i])
    ensures Sorted(sorted[..k] + [n] + sorted[k..])
  {
    var r := sorted[..k] + [n] + sorted[k..];
    forall i, j | 0 <= i <= j < |r| ensures Le(r[i], r[j]) {
      assert i < k ==> r[i] == sorted[i] && Le(sorted[i], sorted[k - 1]);
      assert i > k ==> r[i] == sorted[i - 1];
      assert j < k ==> r[j] == sorted[j];
      assert j > k ==> r[j] == sorted[j - 1];
    }
  }

  /** Binary search for the split. */
  method PartitionPoint(ranges: seq<Net>, ip: Ip) returns (idx: nat)
    requires Sorted(ranges)
    ensures Splits(ranges, ip, idx)
  {
    var lo, hi := 0, |ranges|;
    while lo < hi
      invariant 0 <= lo <= hi <= |ranges|
      invariant forall i :: 0 <= i < lo ==> Le(ranges[i], Probe(ip))
      invariant forall i :: hi <= i < |ranges| ==> !Le(ranges[i], Probe(ip))
    {
      var mid := (lo + hi) / 2;
      if Le(ranges[mid], Probe(ip)) {
        lo := mid + 1;
      } else {
        hi := mid;
      }
    }
    idx := lo;
  }

  /** Some range among the last four up to the probe contains the address. */
  predicate Seen(ranges: seq<Net>, ip: Ip, idx: nat)
    requires AllValid(ranges) && idx <= |ranges|
  {
    exists i :: 0 <= i < idx && idx <= i + LOOK_BACK && Contains(ranges[i], ip)
  }

  /** The lookup: the last four ranges up to the probe, latest first. */
  method Matches(ranges: seq<Net>, ip: Ip) returns (found: bool)
    requires Sorted(ranges) && AllValid(ranges)
    ensures exists idx :: Splits(ranges, ip, idx) && (found <==> Seen(ranges, ip, idx))
    ensures found ==> Covered(ranges, ip)
    ensures (found <==> Covered(ranges, ip)) <==> !Overlooked(ranges, ip)
    ensures AllCanonical(ranges) ==> ((found <==> Covered(ranges, ip)) <==> !Missed(ranges, ip))
  {
    var idx := PartitionPoint(ranges, ip);
    var i := idx;
    found := false;
    while i > 0 && i + LOOK_BACK > idx && !found
      invariant 0 <= i <= idx && i + LOOK_BACK >= idx
      invariant !found ==> forall k :: i <= k < idx ==> !Contains(ranges[k], ip)
      invariant found ==> Seen(ranges, ip, idx)
      decreases i, !found
    {
      i := i - 1;
      found := Contains(ranges[i], ip);
    }
    AgreesExactly(ranges, ip, idx);
    if AllCanonical(ranges) {
      LookupIsExact(ranges, ip, idx);
    }
  }

  // ---- Aligned blocks ------------------------------------------------------------------------

  /** A block contains the address it was masked from. */
  lemma {:induction false} MaskIsAround(x: nat, h: nat)
    ensures Mask(x, h) <= x < Mask(x, h) + Pow2(h)
  {
    if h > 0 {
      MaskIsAround(x / 2, h - 1);
    }
  }

  /** The block of a masked address is the block of every address in it. */
  lemma {:induction false} MaskOfMember(addr: nat, x: nat, h: nat)
    requires Mask(addr, h) == addr && addr <= x < addr + Pow2(h)
    ensures Mask(x, h) == addr
  {
    if h > 0 {
      MaskOfMember(addr / 2, x / 2, h - 1);
    }
  }

  /** Of two blocks around an address the smaller lies in the larger. */
  lemma {:induction false} BlocksNest(x: nat, large: nat, small: nat)
    requires small <= large
    ensures Mask(x, large) <= Mask(x, small)
    ensures Mask(x, small) + Pow2(small) <= Mask(x, large) + Pow2(large)
  {
    if small == 0 {
      MaskIsAround(x, large);
    } else {
      BlocksNest(x / 2, large - 1, small - 1);
    }
  }

  /** Every address of `b` is one of `a`. */
  predicate Inside(b: Net, a: Net)
    requires Valid(a) && Valid(b)
  {
    a.v6 == b.v6 && Network(a) <= Network(b) && Network(b) + Size(b) <= Network(a) + Size(a)
  }

  /** Two canonical ranges that share an address are nested, the longer prefix inside. */
  lemma Nested(a: Net, b: Net, ip: Ip)
    requires Canonical(a) && Canonical(b) && a.prefix <= b.prefix
    requires Contains(a, ip) && Contains(b, ip)
    ensures Inside(b, a)
  {
    MaskOfMember(a.addr, ip.value, HostBits(a));
    MaskOfMember(b.addr, ip.value, HostBits(b));
    BlocksNest(ip.value, HostBits(a), HostBits(b));
  }

  // ---- What the lookup sees ----------------------------------------------------------------------

  /** The range is written with an address after this one, or four or more ranges up to the
      address follow it. */
  predicate OutOfSight(ranges: seq<Net>, ip: Ip, k: nat)
    requires k < |ranges|
  {
    !Le(ranges[k], Probe(ip)) || (k + LOOK_BACK < |ranges| && Le(ranges[k + LOOK_BACK], Probe(ip)))
  }

  /** There are ranges that contain the address, all of them out of sight. */
  predicate Overlooked(ranges: seq<Net>, ip: Ip)
    requires AllValid(ranges)
  {
    Covered(ranges, ip) && forall k :: 0 <= k < |ranges| && Contains(ranges[k], ip) ==> OutOfSight(ranges, ip, k)
  }

  /** On any ranges, host bits or not, the lookup agrees with the linear scan exactly when not
      every containing range is out of sight. */
  lemma AgreesExactly(ranges: seq<Net>, ip: Ip, idx: nat)
    requires Sorted(ranges) && AllValid(ranges) && Splits(ranges, ip, idx)
    ensures (Seen(ranges, ip, idx) <==> Covered(ranges, ip)) <==> !Overlooked(ranges, ip)
  {
    forall k | 0 <= k < |ranges| ensures OutOfSight(ranges, ip, k) <==> !(k < idx <= k + LOOK_BACK) {
    }
  }

  /** The innermost range that contains the address: the longest prefix, and of equal ranges
      the last. */
  predicate Innermost(ranges: seq<Net>, ip: Ip, j: nat)
    requires AllValid(ranges)
  {
    && j < |ranges| && Contains(ranges[j], ip)
    && (forall k :: 0 <= k < |ranges| && Contains(ranges[k], ip) ==>
          ranges[k].prefix < ranges[j].prefix || (ranges[k].prefix == ranges[j].prefix && k <= j))
  }

  /** More than three ranges lie, in order, between the innermost containing range and the
      address. */
  ghost predicate Missed(ranges: seq<Net>, ip: Ip)
    requires AllValid(ranges)
  {
    exists j: nat :: Innermost(ranges, ip, j) && j + LOOK_BACK < |ranges| && Le(ranges[j + LOOK_BACK], Probe(ip))
  }

  /** A canonical range that contains the address is up to the probe. */
  lemma ContainingIsBefore(n: Net, ip: Ip)
    requires Canonical(n) && Contains(n, ip)
    ensures Le(n, Probe(ip))
  {
  }

  /** Of the ranges that contain the address the innermost comes last. */
  lemma InnermostIsLast(ranges: seq<Net>, ip: Ip, j: nat, k: nat)
    requires Sorted(ranges) && AllCanonical(ranges)
    requires Innermost(ranges, ip, j) && k < |ranges| && Contains(ranges[k], ip)
    ensures k <= j
  {
    if k > j {
      assert Le(ranges[j], ranges[k]);
      Nested(ranges[k], ranges[j], ip);
    }
  }

  /** If any range contains the address there is an innermost one: the last that does. */
  lemma LastIsInnermost(ranges: seq<Net>, ip: Ip, j: nat)
    requires Sorted(ranges) && AllCanonical(ranges)
    requires j < |ranges| && Contains(ranges[j], ip)
    requires forall k :: j < k < |ranges| ==> !Contains(ranges[k], ip)
    ensures Innermost(ranges, ip, j)
  {
    forall k | 0 <= k < |ranges| && Contains(ranges[k], ip)
      ensures ranges[k].prefix < ranges[j].prefix || (ranges[k].prefix == ranges[j].prefix && k <= j)
    {
      if ranges[k].prefix > ranges[j].prefix {
        assert k < j ==> Le(ranges[k], ranges[j]);
        Nested(ranges[j], ranges[k], ip);
      }
    }
  }

  lemma {:induction false} FindLast(ranges: seq<Net>, ip: Ip, n: nat) returns (j: nat)
    requires AllValid(ranges) && n <= |ranges|
    requires exists i :: 0 <= i < n && Contains(ranges[i], ip)
    ensures j < n && Contains(ranges[j], ip) && forall k :: j < k < n ==> !Contains(ranges[k], ip)
  {
    if Contains(ranges[n - 1], ip) {
      j := n - 1;
    } else {
      j := FindLast(ranges, ip, n - 1);
    }
  }

  /** On canonical ranges the lookup agrees with the linear scan exactly when the innermost
      containing range, if any, has at most three ranges between it and the address. */
  lemma LookupIsExact(ranges: seq<Net>, ip: Ip, idx: nat)
    requires Sorted(ranges) && AllCanonical(ranges) && Splits(ranges, ip, idx)
    ensures (Seen(ranges, ip, idx) <==> Covered(ranges, ip)) <==> !Missed(ranges, ip)
  {
    if Covered(ranges, ip) {
      var j := FindLast(ranges, ip, |ranges|);
      LastIsInnermost(ranges, ip, j);
      ContainingIsBefore(ranges[j], ip);
      assert Seen(ranges, ip, idx) <==> idx <= j + LOOK_BACK;
      assert j + LOOK_BACK < idx ==> Missed(ranges, ip);
      if Missed(ranges, ip) {
        var m: nat :| Innermost(ranges, ip, m) && m + LOOK_BACK < |ranges| && Le(ranges[m + LOOK_BACK], Probe(ip));
        InnermostIsLast(ranges, ip, m, j);
      }
    } else {
      assert !Seen(ranges, ip, idx) && !Missed(ranges, ip);
    }
  }

  // ---- When nothing can be missed -----------------------------------------------------------------

  /** Ranges that follow a containing range up to the address lie inside it. */
  lemma FollowersAreInside(a: Net, b: Net, ip: Ip)
    requires Canonical(a) && Canonical(b) && Contains(a, ip) && Le(a, b) && Le(b, Probe(ip))
    ensures Inside(b, a)
  {
    var here := Ip(b.v6, b.addr);
    assert Contains(a, here) && Contains(b, here);
    if b.prefix < a.prefix {
      Nested(b, a, here);
    }
    Nested(a, b, here);
  }

  /** No range has another, four places further on, inside it. */
  predicate Shallow(ranges: seq<Net>)
    requires AllValid(ranges)
  {
    forall j :: 0 <= j && j + LOOK_BACK < |ranges| ==> !Inside(ranges[j + LOOK_BACK], ranges[j])
  }

  predicate Disjoint(ranges: seq<Net>)
    requires AllValid(ranges)
  {
    forall i, j :: 0 <= i < j < |ranges| ==>
      ranges[i].v6 != ranges[j].v6
      || Network(ranges[i]) + Size(ranges[i]) <= Network(ranges[j])
      || Network(ranges[j]) + Size(ranges[j]) <= Network(ranges[i])
  }

  /** Where nesting is shallow the lookup is the linear scan, for every address. */
  lemma ShallowIsExact(ranges: seq<Net>, ip: Ip)
    requires Sorted(ranges) && AllCanonical(ranges) && Shallow(ranges)
    ensures !Missed(ranges, ip)
  {
    if Missed(ranges, ip) {
      var j: nat :| Innermost(ranges, ip, j) && j + LOOK_BACK < |ranges| && Le(ranges[j + LOOK_BACK], Probe(ip));
      FollowersAreInside(ranges[j], ranges[j + LOOK_BACK], ip);
    }
  }

  /** Disjoint ranges in particular. */
  lemma DisjointIsExact(ranges: seq<Net>, ip: Ip)
    requires Sorted(ranges) && AllCanonical(ranges) && Disjoint(ranges)
    ensures !Missed(ranges, ip)
  {
    ShallowIsExact(ranges, ip);
  }

  // ---- What can be missed ---------------------------------------------------------------------------

  function Shifted(q: nat, k: nat): (x: nat)
  {
    if k == 0 then q else 2 * Shifted(q, k - 1)
  }

  lemma {:induction false} MaskOfShifted(q: nat, k: nat, h: nat)
    requires h <= k
    ensures Mask(Shifted(q, k), h) == Shifted(q, k)
  {
    if h > 0 {
      MaskOfShifted(q, k - 1, h - 1);
      MaskStep(Shifted(q, k), Shifted(q, k - 1), h);
    }
  }

  lemma MaskStep(x: nat, half: nat, h: nat)
    requires h > 0 && x == 2 * half && Mask(half, h - 1) == half
    ensures Mask(x, h) == x
  {
    assert x / 2 == half;
  }

  const TEN: nat := 10 * 16777216

  lemma TenIsShifted()
    ensures Shifted(10, 24) == TEN && Pow2(24) == 16777216
  {
    assert Shifted(10, 6) == 640 && Pow2(6) == 64;
    assert Shifted(10, 12) == 40960 && Pow2(12) == 4096;
    assert Shifted(10, 18) == 2621440 && Pow2(18) == 262144;
  }

  /** A /8, and the four addresses that follow its first. */
  function Crowded(ten: nat): (ranges: seq<Net>)
  {
    [Net(false, ten, 8), Net(false, ten + 1, 32), Net(false, ten + 2, 32),
     Net(false, ten + 3, 32), Net(false, ten + 4, 32)]
  }

  lemma HostRange(n: Net, ip: Ip)
    requires !n.v6 && n.prefix == 32
    ensures Canonical(n) && (Contains(n, ip) <==> ip == Ip(false, n.addr))
  {
    assert Mask(n.addr, 0) == n.addr && Pow2(0) == 1;
  }

  lemma ShiftedRange(n: Net, ip: Ip, q: nat, k: nat)
    requires Valid(n) && n.addr == Shifted(q, k) && HostBits(n) <= k
    requires n.v6 == ip.v6 && n.addr <= ip.value < n.addr + Pow2(HostBits(n))
    ensures Canonical(n) && Contains(n, ip)
  {
    MaskOfShifted(q, k, HostBits(n));
  }

  lemma CrowdHidesTheRange(ten: nat)
    requires Canonical(Net(false, ten, 8)) && Contains(Net(false, ten, 8), Ip(false, ten + 9))
    ensures Sorted(Crowded(ten)) && AllCanonical(Crowded(ten))
    ensures Covered(Crowded(ten), Ip(false, ten + 9)) && Missed(Crowded(ten), Ip(false, ten + 9))
  {
    var ranges, ip := Crowded(ten), Ip(false, ten + 9);
    forall i | 1 <= i < |ranges| ensures Canonical(ranges[i]) && !Contains(ranges[i], ip) {
      HostRange(ranges[i], ip);
    }
    assert Contains(ranges[0], ip);
    assert Innermost(ranges, ip, 0);
    assert Le(ranges[0 + LOOK_BACK], Probe(ip));
  }

  /** 10.0.0.0/8 with 10.0.0.1/32 to 10.0.0.4/32: the lookup of 10.0.0.9 finds nothing. */
  lemma NestedRangeIsMissed()
    ensures Sorted(Crowded(TEN)) && AllCanonical(Crowded(TEN))
    ensures Covered(Crowded(TEN), Ip(false, TEN + 9)) && Missed(Crowded(TEN), Ip(false, TEN + 9))
  {
    TenIsShifted();
    ShiftedRange(Net(false, TEN, 8), Ip(false, TEN + 9), 10, 24);
    CrowdHidesTheRange(TEN);
  }

  /** 10.0.0.200/24, written with host bits: 10.0.0.5 is in it and not found. */
  lemma HostBitsAreMissed()
    ensures var ranges := [Net(false, TEN + 200, 24)];
            && Sorted(ranges) && AllValid(ranges) && Covered(ranges, Ip(false, TEN + 5))
            && Splits(ranges, Ip(false, TEN + 5), 0) && !Seen(ranges, Ip(false, TEN + 5), 0)
  {
    var ranges := [Net(false, TEN + 200, 24)];
    TenIsShifted();
    MaskOfShifted(10, 24, 8);
    assert Pow2(8) == 256;
    MaskOfMember(TEN, TEN + 200, 8);
    assert Contains(ranges[0], Ip(false, TEN + 5));
  }
}
