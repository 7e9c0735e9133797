/** The relay over its paths: which path is taken when, what either side gets, what the returned
    counts count, and exactly when success means that everything was forwarded. */
module RelayPaths {
  import opened Bytes
  import opened Lanes
  import opened StreamRecovery
  import opened PooledCopy
  import opened AdaptiveCopy
  import E = EpollSplice
  import U = UringRelay

  datatype Policy = Disabled | Adaptive | Always

  // ---- The relay -----------------------------------------------------------------------------------

  /** Everything the environment decides during a relay. */
  datatype Events = Events(opening: Turn, reply: Turn, script: seq<Turn>, upScript: seq<Turn>, downScript: seq<Turn>)

  /** Nothing fails, and there are turns enough for the bytes of both sides. */
  predicate Suffices(e: Events, up: nat, down: nat)
  {
    && !e.opening.writeFails && !e.reply.writeFails && Calm(e.script) && Calm(e.upScript) && Calm(e.downScript)
    && |e.script| > up + down + 2 && |e.upScript| > up && |e.downScript| > down
  }

  /** No splice the policy may attempt leaves anything in a pipe; or forwards anything and fails. */
  predicate LeavesNothing(policy: Policy, e: Events)
  {
    match policy
    case Disabled => true
    case Always => Clean(e.opening.splice)
    case Adaptive => AllClean(e.script)
  }

  predicate MovesNothing(policy: Policy, e: Events)
  {
    match policy
    case Disabled => true
    case Always => Still(e.opening.splice)
    case Adaptive => AllStill(e.script)
  }

  /** The prefixes go out, and the policy splices first thing, with success. */
  predicate SplicesAtOnce(policy: Policy, e: Events)
  {
    policy == Always && !e.opening.writeFails && !e.reply.writeFails && e.opening.splice.Spliced?
  }

  /** The first `n` bytes have been sent, and no more. */
  predicate AfterPrefix(l: Lane, source: seq<byte>, n: nat)
  {
    n <= |source| && l == Lane(n, source[..n], 0, 0, false)
  }

  /** A splice is taken only as the policy has it: first thing, or when the copy proves bulky. */
  ghost predicate AsThePolicySays(a: seq<byte>, b: seq<byte>, up: nat, down: nat, policy: Policy, e: Events, path: Path)
  {
    path.SplicedFrom? ==>
      match policy
      case Disabled => false
      case Always => path.splice == e.opening.splice && AfterPrefix(path.up, a, up) && AfterPrefix(path.down, b, down)
      case Adaptive => Bulky(e.script, up, down, path)
  }

  /** Writing out a prefix: all of it, or a part and a failure. */
  predicate Written(n: nat, turn: Turn)
  {
    n == 0 || !turn.writeFails
  }

  function AfterWrite(source: seq<byte>, n: nat, turn: Turn): (l: Lane)
    requires n <= |source|
    ensures l.taken <= |source| && (Written(n, turn) ==> AfterPrefix(l, source, n))
  {
    var written := if Written(n, turn) then n else Min(turn.part, n);
    Lane(written, source[..written], 0, 0, false)
  }

  /** The path the policy names, from lanes that hold the prefixes. */
  function ByPolicy(a: seq<byte>, b: seq<byte>, u: Lane, d: Lane, policy: Policy, e: Events): (r: Result)
    requires u.taken <= |a| && d.taken <= |b|
  {
    if policy == Adaptive then Adaptively(a, b, u, d, e.script)
    else if policy == Always && e.opening.splice.Spliced? then
      BySplice(a, b, u, d, e.opening.splice, |u.sent|, |d.sent|)
    else
      var u' := if policy == Always then Fail(a, u, e.opening.splice.upLeg) else u;
      var d' := if policy == Always then Fail(b, d, e.opening.splice.downLeg) else d;
      Counting(CopyBoth(a, b, u', d', e.upScript, e.downScript), |u.sent|, |d.sent|)
  }

  /** The prefixes count too. */
  function Counting(r: Result, up: nat, down: nat): (c: Result)
  {
    if r.outcome.Done? then r.(outcome := Done(r.outcome.up + up, r.outcome.down + down)) else r
  }

  /** What two sockets are promised, with `up` and `down` bytes waiting in front of them. */
  ghost predicate SocketLaw(a: seq<byte>, b: seq<byte>, up: nat, down: nat, policy: Policy, e: Events, r: Result)
  {
    && Law(a, b, LeavesNothing(policy, e), MovesNothing(policy, e), r) && !r.outcome.HandedToVision?
    && AsThePolicySays(a, b, up, down, policy, e, r.path)
    && (Suffices(e, |a|, |b|) ==> r.outcome.Done?)
    && (r.path.SplicedFrom? <==> TakesSplice(a, b, up, down, policy, e))
    && (0 < up <= |a| && e.opening.writeFails ==>
          r.outcome == Failed && r.up.sent == a[..Min(e.opening.part, up)] && r.down.sent == [])
    && (up <= |a| && 0 < down <= |b| && !(up > 0 && e.opening.writeFails) && e.reply.writeFails ==>
          r.outcome == Failed && r.up.sent == a[..up] && r.down.sent == b[..Min(e.reply.part, down)])
  }

  /** The prefixes go out, and the policy then comes to splice, with success: first thing, or at
      the turn that finds the last four reads of a side full. */
  ghost predicate TakesSplice(a: seq<byte>, b: seq<byte>, up: nat, down: nat, policy: Policy, e: Events)
  {
    && up <= |a| && down <= |b| && !(up > 0 && e.opening.writeFails) && !(down > 0 && e.reply.writeFails)
    && match policy
       case Disabled => false
       case Always => e.opening.splice.Spliced?
       case Adaptive =>
         ProvesBulky(a, b, Lane(up, a[..up], 0, 0, false), Lane(down, b[..down], 0, 0, false), e.script)
  }

  lemma ByPolicyLaw(a: seq<byte>, b: seq<byte>, u: Lane, d: Lane, policy: Policy, e: Events,
                    up: nat, down: nat, r: Result)
    requires AfterPrefix(u, a, up) && AfterPrefix(d, b, down) && r == ByPolicy(a, b, u, d, policy, e)
    requires Written(up, e.opening) && Written(down, e.reply)
    ensures SocketLaw(a, b, up, down, policy, e, r)
  {
    PrefixCarried(a, up);
    PrefixCarried(b, down);
    if policy == Adaptive {
      AdaptivelyLaw(a, b, u, d, e.script, r);
      SplicedExactly(a, b, u, d, e.script, 0);
    } else if policy == Always && e.opening.splice.Spliced? {
      BySpliceLaw(a, b, u, d, e.opening.splice, |u.sent|, |d.sent|, true, true, r);
    } else if policy == Always {
      FallbackLaw(a, b, u, d, e, up, down, r);
    } else {
      var c := CopyBoth(a, b, u, d, e.upScript, e.downScript);
      CopyBothLaw(a, b, u, d, e.upScript, e.downScript, c);
      CountedLaw(a, b, u, d, u, d, e, c, r, true, true);
    }
  }

  /** The first splice failed: all the rest is copied. */
  lemma FallbackLaw(a: seq<byte>, b: seq<byte>, u: Lane, d: Lane, e: Events, up: nat, down: nat, r: Result)
    requires AfterPrefix(u, a, up) && AfterPrefix(d, b, down) && Carried(a, u) && Carried(b, d)
    requires e.opening.splice.SpliceFails? && r == ByPolicy(a, b, u, d, Always, e)
    requires Written(up, e.opening) && Written(down, e.reply)
    ensures SocketLaw(a, b, up, down, Always, e, r)
  {
    var splice := e.opening.splice;
    FailKeeps(a, u, splice.upLeg);
    FailKeeps(b, d, splice.downLeg);
    var u', d' := Fail(a, u, splice.upLeg), Fail(b, d, splice.downLeg);
    var c := CopyBoth(a, b, u', d', e.upScript, e.downScript);
    CopyBothLaw(a, b, u', d', e.upScript, e.downScript, c);
    CountedLaw(a, b, u, d, u', d', e, c, r, Clean(splice), Still(splice));
  }

  /** Copied from lanes that went on without being counted. */
  lemma CountedLaw(a: seq<byte>, b: seq<byte>, u: Lane, d: Lane, u': Lane, d': Lane, e: Events, c: Result, r: Result,
                   clean: bool, still: bool)
    requires CopiesBoth(a, b, u', d', e.upScript, e.downScript, c) && r == Counting(c, |u.sent|, |d.sent|)
    requires |u'.sent| == |u.sent| + u'.uncounted && |d'.sent| == |d.sent| + d'.uncounted
    requires (clean ==> u'.lost == d'.lost == 0) && (still ==> u'.uncounted == d'.uncounted == 0)
    ensures Law(a, b, clean, still, r) && r.path == AllCopied && !r.outcome.HandedToVision?
    ensures Suffices(e, |a|, |b|) ==> r.outcome.Done?
  {
  }

  /** Both sides are sockets: prefixes first, then the path the policy names. */
  function OfSockets(x: Recovery, y: Recovery, policy: Policy, e: Events): (r: Result)
    requires x.Recovered? && y.Recovered?
  {
    var a, b := x.prefix + x.socket.incoming, y.prefix + y.socket.incoming;
    var u, d := AfterWrite(a, |x.prefix|, e.opening), AfterWrite(b, |y.prefix|, e.reply);
    if !Written(|x.prefix|, e.opening) then Result(Failed, u, EMPTY, AllCopied)
    else if !Written(|y.prefix|, e.reply) then Result(Failed, u, d, AllCopied)
    else ByPolicy(a, b, u, d, policy, e)
  }

  lemma OfSocketsLaw(x: Recovery, y: Recovery, policy: Policy, e: Events, r: Result)
    requires x.Recovered? && y.Recovered? && r == OfSockets(x, y, policy, e)
    ensures SocketLaw(x.prefix + x.socket.incoming, y.prefix + y.socket.incoming, |x.prefix|, |y.prefix|, policy, e, r)
  {
    var a, b := x.prefix + x.socket.incoming, y.prefix + y.socket.incoming;
    var u, d := AfterWrite(a, |x.prefix|, e.opening), AfterWrite(b, |y.prefix|, e.reply);
    PrefixCarried(a, u.taken);
    PrefixCarried(b, d.taken);
    PrefixCarried(b, 0);
    if Written(|x.prefix|, e.opening) && Written(|y.prefix|, e.reply) {
      ByPolicyLaw(a, b, u, d, policy, e, |x.prefix|, |y.prefix|, r);
    }
  }

  /** The relay.  Only a Vision inbound takes another path. */
  function RelayOf(inbound: Stream, outbound: Stream, policy: Policy, e: Events): (r: Result)
  {
    var x, y := TryIntoTcp(inbound), TryIntoTcp(outbound);
    if x.Refused? then
      if x.stream.Vision? then Result(HandedToVision, EMPTY, EMPTY, AllCopied)
      else CopyBoth(Yields(x.stream), Yields(outbound), EMPTY, EMPTY, e.upScript, e.downScript)
    else if y.Refused? then
      CopyBoth(x.prefix + x.socket.incoming, Yields(y.stream), EMPTY, EMPTY, e.upScript, e.downScript)
    else OfSockets(x, y, policy, e)
  }

  /** No splice is ever attempted. */
  predicate CopiesOnly(inbound: Stream, outbound: Stream, policy: Policy)
  {
    policy == Disabled || !OverTcp(inbound) || !OverTcp(outbound)
  }

  /** What the relay promises, whatever the wrappers, the policy, the fragmentation and the
      failures: of what a side yields the other gets a prefix, unless a failed splice left bytes
      in its pipe and more was sent after them, still in order.  On success the counts are the
      bytes copied, prefixes included once, plus what the last splice reports, if it succeeded;
      and everything was forwarded exactly if nothing was left in a pipe and that splice went on
      to the end.  A splice needs two sockets and is taken as the policy says. */
  ghost predicate Relays(inbound: Stream, outbound: Stream, policy: Policy, e: Events, r: Result)
  {
    && Promised(Yields(inbound), Yields(outbound), Held(inbound), Held(outbound),
                CopiesOnly(inbound, outbound, policy), policy, e, r)
    && (r.outcome.HandedToVision? <==> inbound.Vision?)
    && (!inbound.Vision? && Suffices(e, |Yields(inbound)|, |Yields(outbound)|) ==> r.outcome.Done?)
  }

  ghost predicate Promised(a: seq<byte>, b: seq<byte>, up: nat, down: nat, copies: bool, policy: Policy, e: Events,
                           r: Result)
  {
    && Law(a, b, copies || LeavesNothing(policy, e), copies || MovesNothing(policy, e), r)
    && (r.outcome.Done? ==>
          (r.up.sent == a && r.down.sent == b
           <==> ToTheEnd(r.path, |a|, |b|) && r.up.lost == 0 && r.down.lost == 0))
    && (copies ==> r.path == AllCopied)
    && AsThePolicySays(a, b, up, down, policy, e, r.path)
    && (r.path.SplicedFrom? <==> !copies && TakesSplice(a, b, up, down, policy, e))
  }

  lemma RelayKeepsItsPromise(inbound: Stream, outbound: Stream, policy: Policy, e: Events, r: Result)
    requires r == RelayOf(inbound, outbound, policy, e)
    ensures Relays(inbound, outbound, policy, e, r)
  {
    RecoveryKeepsTheBytes(inbound);
    RecoveryKeepsTheBytes(outbound);
    var x, y := TryIntoTcp(inbound), TryIntoTcp(outbound);
    if x.Refused? || y.Refused? {
      CopiesPromised(Yields(inbound), Yields(outbound), Held(inbound), Held(outbound), policy, e, r);
    } else {
      HeldIsThePrefix(inbound);
      HeldIsThePrefix(outbound);
      OfSocketsLaw(x, y, policy, e, r);
      SocketsPromised(Yields(inbound), Yields(outbound), Held(inbound), Held(outbound), policy, e, r);
    }
  }

  lemma SocketsPromised(a: seq<byte>, b: seq<byte>, up: nat, down: nat, policy: Policy, e: Events, r: Result)
    requires SocketLaw(a, b, up, down, policy, e, r)
    ensures Promised(a, b, up, down, policy == Disabled, policy, e, r)
  {
    if r.outcome.Done? {
      CompleteExactly(a, b, r);
    }
  }

  /** A wrapper on either side, or a Vision inbound, which is handed on. */
  lemma CopiesPromised(a: seq<byte>, b: seq<byte>, up: nat, down: nat, policy: Policy, e: Events, r: Result)
    requires || r == CopyBoth(a, b, EMPTY, EMPTY, e.upScript, e.downScript)
             || r == Result(HandedToVision, EMPTY, EMPTY, AllCopied)
    ensures Promised(a, b, up, down, true, policy, e, r)
    ensures r == CopyBoth(a, b, EMPTY, EMPTY, e.upScript, e.downScript) ==>
              !r.outcome.HandedToVision? && (Suffices(e, |a|, |b|) ==> r.outcome.Done?)
  {
    PrefixCarried(a, 0);
    PrefixCarried(b, 0);
    if r.outcome.Done? || !r.outcome.HandedToVision? || r == CopyBoth(a, b, EMPTY, EMPTY, e.upScript, e.downScript) {
      CopyBothLaw(a, b, EMPTY, EMPTY, e.upScript, e.downScript, r);
    }
    if r.outcome.Done? {
      CompleteExactly(a, b, r);
    }
  }

  /** If splices that fail move nothing, the counts are exact: the lengths of what both sides
      yield, all of it delivered, when all was copied; and otherwise what was taken before the
      splice plus what that reports. */
  lemma CountsAreExact(inbound: Stream, outbound: Stream, policy: Policy, e: Events)
    requires CopiesOnly(inbound, outbound, policy) || (LeavesNothing(policy, e) && MovesNothing(policy, e))
    ensures var r := RelayOf(inbound, outbound, policy, e);
            r.outcome.Done? ==>
              match r.path
              case AllCopied =>
                && r.outcome == Done(|Yields(inbound)|, |Yields(outbound)|)
                && r.up.sent == Yields(inbound) && r.down.sent == Yields(outbound)
              case SplicedFrom(u, d, splice) =>
                && splice.Spliced? && u.sent <= Yields(inbound) && d.sent <= Yields(outbound)
                && r.outcome == Done(|u.sent| + splice.upCount, |d.sent| + splice.downCount)
  {
    var r := RelayOf(inbound, outbound, policy, e);
    RelayKeepsItsPromise(inbound, outbound, policy, e, r);
    if r.outcome.Done? {
      ExactIfNothingMoved(Yields(inbound), Yields(outbound), r);
    }
  }

  lemma ExactIfNothingMoved(a: seq<byte>, b: seq<byte>, r: Result)
    requires Law(a, b, true, true, r) && r.outcome.Done?
    ensures match r.path
            case AllCopied => r.outcome == Done(|a|, |b|) && r.up.sent == a && r.down.sent == b
            case SplicedFrom(u, d, splice) =>
              && splice.Spliced? && u.sent <= a && d.sent <= b
              && r.outcome == Done(|u.sent| + splice.upCount, |d.sent| + splice.downCount)
  {
    if r.path.SplicedFrom? {
      PrefixIfNothingLost(a, r.path.up);
      PrefixIfNothingLost(b, r.path.down);
    } else {
      CompleteExactly(a, b, r);
    }
  }

  /** The relay as it is written: recover the sockets, or put back what was recovered and copy. */
  method RelayBidirectional(inbound: Stream, outbound: Stream, policy: Policy, e: Events) returns (r: Result)
    ensures r == RelayOf(inbound, outbound, policy, e) && Relays(inbound, outbound, policy, e, r)
  {
    var x := TryIntoTcp(inbound);
    if x.Refused? {
      if x.stream.Vision? {
        r := Result(HandedToVision, EMPTY, EMPTY, AllCopied);
      } else {
        r := CopyBidirectional(Yields(x.stream), Yields(outbound), EMPTY, EMPTY, e.upScript, e.downScript);
      }
    } else {
      var y := TryIntoTcp(outbound);
      if y.Refused? {
        var again := if x.prefix == [] then Tcp(x.socket) else PrependedTcp(x.prefix, 0, x.socket);
        assert Yields(again) == x.prefix + x.socket.incoming;
        r := CopyBidirectional(Yields(again), Yields(y.stream), EMPTY, EMPTY, e.upScript, e.downScript);
      } else {
        r := RelaySockets(x, y, policy, e);
      }
    }
    RelayKeepsItsPromise(inbound, outbound, policy, e, r);
  }

  method RelaySockets(x: Recovery, y: Recovery, policy: Policy, e: Events) returns (r: Result)
    requires x.Recovered? && y.Recovered?
    ensures r == OfSockets(x, y, policy, e)
    ensures SocketLaw(x.prefix + x.socket.incoming, y.prefix + y.socket.incoming, |x.prefix|, |y.prefix|, policy, e, r)
  {
    var a, b := x.prefix + x.socket.incoming, y.prefix + y.socket.incoming;
    var u := AfterWrite(a, |x.prefix|, e.opening);
    var d := AfterWrite(b, |y.prefix|, e.reply);
    if !Written(|x.prefix|, e.opening) {
      r := Result(Failed, u, EMPTY, AllCopied);
    } else if !Written(|y.prefix|, e.reply) {
      r := Result(Failed, u, d, AllCopied);
    } else if policy == Adaptive {
      r := AdaptiveCopyThenSplice(a, b, u, d, e.script);
    } else if policy == Always && e.opening.splice.Spliced? {
      r := BySplice(a, b, u, d, e.opening.splice, |u.sent|, |d.sent|);
    } else {
      var u', d' := u, d;
      if policy == Always {
        u', d' := Fail(a, u, e.opening.splice.upLeg), Fail(b, d, e.opening.splice.downLeg);
      }
      r := CopyBidirectional(a, b, u', d', e.upScript, e.downScript);
      r := Counting(r, |u.sent|, |d.sent|);
    }
    OfSocketsLaw(x, y, policy, e, r);
  }

  // ---- What a splice may come to -------------------------------------------------------------

  /** What an io_uring relay that has ended has done. */
  function SpliceOf(s: U.Relay): (r: Splice)
  {
    if s.phase == U.Ended(true) then Spliced(|s.ab.delivered|, |s.ba.delivered|, s.ab.half.total, s.ba.half.total)
    else SpliceFails(Leg(|s.ab.consumed|, |s.ab.delivered|), Leg(|s.ba.consumed|, |s.ba.delivered|))
  }

  /** Whatever the run that succeeded, it forwarded prefixes of the two sides and counted at
      most them; and it went on to the end exactly if it read both sides to their ends and
      neither direction is stranded. */
  lemma RunIsASplice(steps: seq<U.Step>, up: seq<byte>, down: seq<byte>)
    requires U.Runnable(U.Start(), steps) && U.After(U.Start(), steps).phase == U.Ended(true)
    requires U.After(U.Start(), steps).ab.consumed <= up && U.After(U.Start(), steps).ba.consumed <= down
    ensures var s := U.After(U.Start(), steps); var r := SpliceOf(s);
            && r.up <= |up| && s.ab.delivered == up[..r.up] && r.upCount <= r.up
            && r.down <= |down| && s.ba.delivered == down[..r.down] && r.downCount <= r.down
            && (ToTheEnd(SplicedFrom(EMPTY, EMPTY, r), |up|, |down|)
                <==> && s.ab.consumed == up && s.ba.consumed == down
                     && !U.Stranded(s.ab) && !U.Stranded(s.ba))
  {
    U.SuccessMeans(steps, U.AB);
    U.SuccessMeans(steps, U.BA);
  }

  /** And whatever the run that failed: what it took and forwarded is such a leg, and what it
      left behind is what its pipe held. */
  lemma FailedRunIsASplice(steps: seq<U.Step>, side: U.Side, source: seq<byte>)
    requires U.Runnable(U.Start(), steps) && U.Get(U.After(U.Start(), steps), side).consumed <= source
    ensures var d := U.Get(U.After(U.Start(), steps), side);
            var l := Fail(source, EMPTY, Leg(|d.consumed|, |d.delivered|));
            l.sent == d.delivered && l.lost == |d.pipe| && l.taken == |d.consumed|
  {
    U.NoByteLostOrReordered(steps, side);
    var d := U.Get(U.After(U.Start(), steps), side);
    assert source[..|d.consumed|] == d.consumed;
    assert [] + source[0..|d.delivered|] == source[..|d.delivered|] == d.delivered;
  }

  /** The same of an epoll relay of both ways that succeeded: prefixes, counted at most as they
      are; to the end exactly if both sources were read out and the direction that ended last
      got all of its own out. */
  lemma EpollIsASplice(abIns: seq<E.InEvent>, abOuts: seq<E.OutEvent>, baIns: seq<E.InEvent>, baOuts: seq<E.OutEvent>,
                       abFirst: bool, r: E.Both, up: seq<byte>, down: seq<byte>)
    requires E.Whole(abIns) <= up && E.Whole(baIns) <= down && r.Relayed?
    requires var ab, ba := E.Ends(abIns, abOuts), E.Ends(baIns, baOuts);
             E.Decides(if abFirst then ab else ba, if abFirst then ba else ab, abFirst, r)
    ensures var s := Spliced(|E.Sent(abIns, abOuts)|, |E.Sent(baIns, baOuts)|, r.up, r.down);
            && s.up <= |up| && E.Sent(abIns, abOuts) == up[..s.up] && s.upCount <= s.up
            && s.down <= |down| && E.Sent(baIns, baOuts) == down[..s.down] && s.downCount <= s.down
            && (ToTheEnd(SplicedFrom(EMPTY, EMPTY, s), |up|, |down|)
                <==> && E.Whole(abIns) == up && E.Whole(baIns) == down
                     && if abFirst then E.Walked(baIns, baOuts, 0, 0).reached == |down|
                        else E.Walked(abIns, abOuts, 0, 0).reached == |up|)
  {
  }

  /** The relay of two sockets that splices at once, down to the io_uring steps: beyond the
      prefixes either side gets what the run delivered, the counts are the run's, and all of
      it arrived exactly if the run read all and stranded nothing. */
  lemma SplicedRelay(inbound: Stream, outbound: Stream, e: Events, steps: seq<U.Step>, s: U.Relay, r: Result)
    requires OverTcp(inbound) && OverTcp(outbound) && r == RelayOf(inbound, outbound, Always, e)
    requires !e.opening.writeFails && !e.reply.writeFails
    requires U.Runnable(U.Start(), steps) && s == U.After(U.Start(), steps) && s.phase == U.Ended(true)
    requires e.opening.splice == SpliceOf(s)
    requires s.ab.consumed <= Base(inbound).incoming && s.ba.consumed <= Base(outbound).incoming
    ensures r.outcome == Done(Held(inbound) + s.ab.half.total, Held(outbound) + s.ba.half.total)
    ensures SplicedWay(inbound, s.ab, r.up.sent) && SplicedWay(outbound, s.ba, r.down.sent)
  {
    OnwardAtOnce(inbound, outbound, e, r);
    RunSucceeded(steps, U.AB, s.ab, Base(inbound));
    RunSucceeded(steps, U.BA, s.ba, Base(outbound));
    SplicedAtOnce(inbound, s.ab, r.path.up, r.up);
    SplicedAtOnce(outbound, s.ba, r.path.down, r.down);
  }

  lemma RunSucceeded(steps: seq<U.Step>, side: U.Side, d: U.Dir, socket: Socket)
    requires U.Runnable(U.Start(), steps) && U.After(U.Start(), steps).phase == U.Ended(true)
    requires d == U.Get(U.After(U.Start(), steps), side) && d.consumed <= socket.incoming
    ensures Succeeded(d, socket)
  {
    U.SuccessMeans(steps, side);
  }

  predicate Succeeded(d: U.Dir, socket: Socket)
  {
    d.delivered <= d.consumed <= socket.incoming && (d.delivered == d.consumed <==> !U.Stranded(d))
  }

  /** One direction: the prefix and what the run delivered; all of the stream exactly if the
      run read all and stranded nothing. */
  predicate SplicedWay(stream: Stream, d: U.Dir, sent: seq<byte>)
    requires OverTcp(stream)
  {
    && sent == Yields(stream)[..Held(stream)] + d.delivered
    && (sent == Yields(stream) <==> d.consumed == Base(stream).incoming && !U.Stranded(d))
  }

  /** The prefix, and then `n` bytes at most. */
  predicate Onward(a: seq<byte>, held: nat, l: Lane, n: nat, r: Lane)
  {
    AfterPrefix(l, a, held) && r == Forward(a, l, Min(n, |a| - l.taken))
  }

  lemma OnwardAtOnce(inbound: Stream, outbound: Stream, e: Events, r: Result)
    requires OverTcp(inbound) && OverTcp(outbound) && SplicesAtOnce(Always, e)
    requires r == RelayOf(inbound, outbound, Always, e)
    ensures OnwardBoth(Yields(inbound), Yields(outbound), Held(inbound), Held(outbound), e.opening.splice, r)
  {
    RelayKeepsItsPromise(inbound, outbound, Always, e, r);
    OnwardAsPromised(Yields(inbound), Yields(outbound), Held(inbound), Held(outbound), e, r);
  }

  predicate OnwardBoth(a: seq<byte>, b: seq<byte>, up: nat, down: nat, splice: Splice, r: Result)
  {
    && r.path.SplicedFrom? && splice.Spliced? && r.outcome == Done(up + splice.upCount, down + splice.downCount)
    && Onward(a, up, r.path.up, splice.up, r.up) && Onward(b, down, r.path.down, splice.down, r.down)
  }

  lemma OnwardAsPromised(a: seq<byte>, b: seq<byte>, up: nat, down: nat, e: Events, r: Result)
    requires Promised(a, b, up, down, false, Always, e, r) && SplicesAtOnce(Always, e) && up <= |a| && down <= |b|
    ensures OnwardBoth(a, b, up, down, e.opening.splice, r)
  {
    OnwardIfAccounted(a, b, up, down, r);
  }

  lemma OnwardIfAccounted(a: seq<byte>, b: seq<byte>, up: nat, down: nat, r: Result)
    requires Accounted(a, b, r)
    requires r.path.SplicedFrom? && AfterPrefix(r.path.up, a, up) && AfterPrefix(r.path.down, b, down)
    ensures OnwardBoth(a, b, up, down, r.path.splice, r)
  {
  }

  /** One direction that spliced at once. */
  lemma SplicedAtOnce(stream: Stream, d: U.Dir, l: Lane, r: Lane)
    requires OverTcp(stream) && Succeeded(d, Base(stream))
    requires Onward(Yields(stream), Held(stream), l, |d.delivered|, r)
    ensures SplicedWay(stream, d, r.sent)
  {
    Within(d.delivered, d.consumed, Base(stream).incoming);
    PrefixThenSpliced(stream, l, d.delivered, r);
  }

  lemma Within(delivered: seq<byte>, consumed: seq<byte>, source: seq<byte>)
    requires delivered <= consumed <= source
    ensures delivered <= source && (delivered == source <==> consumed == source && delivered == consumed)
  {
  }

  /** What was sent is what waited in front of the socket and then `x`; all of it exactly if
      that is all the socket had. */
  predicate PrefixThen(stream: Stream, x: seq<byte>, sent: seq<byte>)
    requires OverTcp(stream)
  {
    && sent == Yields(stream)[..Held(stream)] + x
    && (sent == Yields(stream) <==> x == Base(stream).incoming)
  }

  lemma PrefixThenSpliced(stream: Stream, l: Lane, x: seq<byte>, r: Lane)
    requires OverTcp(stream) && AfterPrefix(l, Yields(stream), Held(stream)) && x <= Base(stream).incoming
    requires r == Forward(Yields(stream), l, Min(|x|, |Yields(stream)| - l.taken))
    ensures PrefixThen(stream, x, r.sent)
  {
    RecoveryKeepsTheBytes(stream);
    HeldIsThePrefix(stream);
    AfterThePrefix(TryIntoTcp(stream).prefix, Base(stream).incoming, x);
  }

  lemma AfterThePrefix(prefix: seq<byte>, rest: seq<byte>, x: seq<byte>)
    requires x <= rest
    ensures (prefix + rest)[..|prefix|] == prefix
    ensures (prefix + rest)[|prefix|..|prefix| + |x|] == x
    ensures prefix + x == prefix + rest <==> x == rest
  {
    var whole := prefix + rest;
    assert whole[|prefix|..|prefix| + |x|] == rest[..|x|];
  }

  /** A client half-closes and is answered after the drain window: the io_uring relay has a
      run, and with it the relay of the two sockets returns success without any of the
      answer. */
  lemma HalfCloseCutsTheAnswer(fd: nat, answer: seq<byte>, e: Events) returns (steps: seq<U.Step>)
    requires !e.opening.writeFails && !e.reply.writeFails
    ensures U.Runnable(U.Start(), steps) && U.After(U.Start(), steps).phase == U.Ended(true)
    ensures e.opening.splice == SpliceOf(U.After(U.Start(), steps)) ==>
              var r := RelayOf(Tcp(Socket(fd, [])), Tcp(Socket(fd + 1, answer)), Always, e);
              r.outcome == Done(0, 0) && r.down.sent == []
  {
    steps := U.HalfCloseLosesTheReply();
    if e.opening.splice == SpliceOf(U.After(U.Start(), steps)) {
      var client, server := Tcp(Socket(fd, [])), Tcp(Socket(fd + 1, answer));
      SplicedRelay(client, server, e, steps, U.After(U.Start(), steps), RelayOf(client, server, Always, e));
    }
  }
}
