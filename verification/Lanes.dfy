/** One direction of a relay over its whole life: how much of the source was taken, what reached
    the other side, and what was left in a pipe by a splice that failed. */
module Lanes {
  import opened Bytes

  /** `uncounted`: bytes forwarded by splices that then failed, which no count includes.
      `torn`: a byte was sent after one that was lost. */
  datatype Lane = Lane(taken: nat, sent: seq<byte>, lost: nat, uncounted: nat, torn: bool)

  const EMPTY: Lane := Lane(0, [], 0, 0, false)

  /** What a splice that fails has done: taken some bytes, and forwarded the first of them. */
  datatype Leg = Leg(taken: nat, sent: nat)

  /** The next `n` bytes are sent. */
  function Forward(source: seq<byte>, l: Lane, n: nat): (r: Lane)
    requires l.taken + n <= |source|
  {
    Lane(l.taken + n, l.sent + source[l.taken..l.taken + n], l.lost, l.uncounted, l.torn || (l.lost > 0 && n > 0))
  }

  /** The next `n` bytes are taken and go nowhere. */
  function Drop(l: Lane, n: nat): (r: Lane)
  {
    l.(taken := l.taken + n, lost := l.lost + n)
  }

  /** A splice fails. */
  function Fail(source: seq<byte>, l: Lane, leg: Leg): (r: Lane)
    requires l.taken <= |source|
  {
    var taken := Min(leg.taken, |source| - l.taken);
    var sent := Min(leg.sent, taken);
    Drop(Forward(source, l, sent).(uncounted := l.uncounted + sent), taken - sent)
  }

  /** A byte that was not the next one took its place. */
  ghost predicate SkipsAhead(source: seq<byte>, sent: seq<byte>)
  {
    exists p: nat, q: nat :: p < q < |source| && p < |sent| && sent[..p] == source[..p] && sent[p] == source[q]
  }

  /** `sent` is `source` with bytes left out: nothing added, repeated or moved. */
  predicate InOrder(sent: seq<byte>, source: seq<byte>)
    decreases |source|
  {
    || sent == []
    || (source != [] &&
        var front := source[..|source| - 1];
        || InOrder(sent, front)
        || (sent[|sent| - 1] == source[|source| - 1] && InOrder(sent[..|sent| - 1], front)))
  }

  lemma {:induction false} SentInOrder(sent: seq<byte>, source: seq<byte>, more: seq<byte>)
    requires InOrder(sent, source)
    ensures InOrder(sent + more, source + more)
    decreases |more|
  {
    if more == [] {
      assert sent + more == sent && source + more == source;
    } else {
      var front := more[..|more| - 1];
      SentInOrder(sent, source, front);
      assert (sent + more)[..|sent + more| - 1] == sent + front;
      assert (source + more)[..|source + more| - 1] == source + front;
    }
  }

  lemma {:induction false} DroppedInOrder(sent: seq<byte>, source: seq<byte>, more: seq<byte>)
    requires InOrder(sent, source)
    ensures InOrder(sent, source + more)
    decreases |more|
  {
    if more == [] {
      assert source + more == source;
    } else {
      var front := more[..|more| - 1];
      DroppedInOrder(sent, source, front);
      assert (source + more)[..|source + more| - 1] == source + front;
    }
  }

  /** Nothing arrives more often than it was taken. */
  lemma {:induction false} NothingTwice(sent: seq<byte>, source: seq<byte>)
    requires InOrder(sent, source)
    ensures multiset(sent) <= multiset(source)
    decreases |source|
  {
    if sent != [] {
      var front, last := source[..|source| - 1], source[|source| - 1];
      assert source == front + [last];
      if InOrder(sent, front) {
        NothingTwice(sent, front);
      } else {
        NothingTwice(sent[..|sent| - 1], front);
        assert sent == sent[..|sent| - 1] + [last];
      }
    }
  }

  /** Every byte taken was sent or lost, the sent ones in order: a prefix of the source as long
      as none is sent after a lost one, and then no longer. */
  ghost predicate Carried(source: seq<byte>, l: Lane)
  {
    && |l.sent| + l.lost == l.taken <= |source| && l.uncounted <= |l.sent|
    && InOrder(l.sent, source[..l.taken])
    && (!l.torn ==> l.sent == source[..|l.sent|])
    && (l.torn ==> l.lost > 0 && SkipsAhead(source, l.sent))
  }

  lemma ForwardKeeps(source: seq<byte>, l: Lane, n: nat)
    requires Carried(source, l) && l.taken + n <= |source|
    ensures Carried(source, Forward(source, l, n))
  {
    SentInOrder(l.sent, source[..l.taken], source[l.taken..l.taken + n]);
    assert source[..l.taken] + source[l.taken..l.taken + n] == source[..l.taken + n];
    TearsOrExtends(source, l, n, Forward(source, l, n));
  }

  lemma TearsOrExtends(source: seq<byte>, l: Lane, n: nat, r: Lane)
    requires Carried(source, l) && l.taken + n <= |source| && r == Forward(source, l, n)
    ensures !r.torn ==> r.sent == source[..|r.sent|]
    ensures r.torn ==> r.lost > 0 && SkipsAhead(source, r.sent)
  {
    if l.torn {
      var p: nat, q: nat :| p < q < |source| && p < |l.sent| && l.sent[..p] == source[..p] && l.sent[p] == source[q];
      assert r.sent[..p] == source[..p] && r.sent[p] == source[q];
    } else if l.lost > 0 && n > 0 {
      var p := |l.sent|;
      assert r.sent[..p] == source[..p] && r.sent[p] == source[l.taken];
    } else if n > 0 {
      assert r.sent == source[..l.taken + n];
    } else {
      assert r.sent == l.sent;
    }
  }

  lemma FailKeeps(source: seq<byte>, l: Lane, leg: Leg)
    requires Carried(source, l)
    ensures Carried(source, Fail(source, l, leg))
  {
    var taken := Min(leg.taken, |source| - l.taken);
    var sent := Min(leg.sent, taken);
    ForwardKeeps(source, l, sent);
    DropKeeps(source, Forward(source, l, sent), taken - sent);
  }

  lemma DropKeeps(source: seq<byte>, l: Lane, n: nat)
    requires Carried(source, l) && l.taken + n <= |source|
    ensures Carried(source, Drop(l, n))
  {
    DroppedInOrder(l.sent, source[..l.taken], source[l.taken..l.taken + n]);
    assert source[..l.taken] + source[l.taken..l.taken + n] == source[..l.taken + n];
  }

  /** A prefix sent and nothing else. */
  lemma PrefixCarried(source: seq<byte>, n: nat)
    requires n <= |source|
    ensures Carried(source, Lane(n, source[..n], 0, 0, false))
  {
    SentInOrder([], [], source[..n]);
    assert [] + source[..n] == source[..n];
  }

  lemma PrefixIfNothingLost(source: seq<byte>, l: Lane)
    requires Carried(source, l) && l.lost == 0
    ensures l.sent == source[..l.taken] && l.sent <= source
  {
  }

  /** The whole source arrived exactly if all of it was taken and nothing lost. */
  lemma WholeExactly(source: seq<byte>, l: Lane)
    requires Carried(source, l)
    ensures l.sent == source <==> l.taken == |source| && l.lost == 0
  {
    if l.taken == |source| && l.lost == 0 {
      assert source[..|source|] == source;
    }
  }

  /** After a splice that failed, what is sent stays a prefix exactly if the next bytes of the
      source are those that come right after what was sent: always if none was left in the
      pipe, and otherwise only if the source happens to repeat itself there. */
  lemma PrefixExactly(source: seq<byte>, l: Lane, leg: Leg, n: nat)
    requires Carried(source, l) && l.lost == 0
    requires Fail(source, l, leg).taken + n <= |source|
    ensures var f := Fail(source, l, leg); var r := Forward(source, f, n);
            && (r.torn <==> f.lost > 0 && n > 0)
            && (r.sent <= source
                <==> source[f.taken..f.taken + n] == source[|f.sent|..|f.sent| + n])
  {
    FailKeeps(source, l, leg);
    var f := Fail(source, l, leg);
    Appended(source, |f.sent|, source[f.taken..f.taken + n]);
  }

  lemma Appended(source: seq<byte>, at: nat, more: seq<byte>)
    requires at + |more| <= |source|
    ensures source[..at] + more <= source <==> more == source[at..at + |more|]
  {
    var whole := source[..at] + more;
    if whole <= source {
      assert forall i :: 0 <= i < |more| ==> more[i] == whole[at + i];
    }
  }

  /** A byte left in the pipe and one copied after it: what arrives is no prefix. */
  lemma LostByteTears(source: seq<byte>, x: byte, y: byte)
    requires source == [x, y] && x != y
    ensures var l := Forward(source, Drop(EMPTY, 1), 1);
            l.torn && l.sent == [y] && !(l.sent <= source)
  {
    var sent := [] + source[1..2];
    assert sent == [y] && sent[0] != source[0];
  }
}
