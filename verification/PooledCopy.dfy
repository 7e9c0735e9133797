/** The pooled copy, and what every way of relaying keeps: each side gets what the other sends, in
    order, and the counts add up. */
module PooledCopy {
  import opened Bytes
  import opened Lanes

  const POOLED_BUFFER: nat := 16 * 1024

  /** How a relay, or one direction of it, ended; `Running` if what was scheduled ran out. */
  datatype Outcome = Done(up: nat, down: nat) | Failed | Running | HandedToVision

  /** What an attempt to splice comes to: an error, after some bytes perhaps were taken and
      some of those forwarded; or success after forwarding some of what each side still had
      to send, with the counts it reports. */
  datatype Splice = SpliceFails(upLeg: Leg, downLeg: Leg) | Spliced(up: nat, down: nat, upCount: nat, downCount: nat)

  /** If the splice fails, it left nothing in a pipe. */
  predicate Clean(s: Splice)
  {
    s.SpliceFails? ==> s.upLeg.taken <= s.upLeg.sent && s.downLeg.taken <= s.downLeg.sent
  }

  /** If the splice fails, it forwarded nothing. */
  predicate Still(s: Splice)
  {
    s.SpliceFails? ==> Min(s.upLeg.taken, s.upLeg.sent) == 0 && Min(s.downLeg.taken, s.downLeg.sent) == 0
  }

  /** How the bytes went: all copied, or spliced from there on. */
  datatype Path = AllCopied | SplicedFrom(up: Lane, down: Lane, splice: Splice)

  /** What a relay comes to. */
  datatype Result = Result(outcome: Outcome, up: Lane, down: Lane, path: Path)

  /** What the sockets do in one turn: time passed, what a splice attempted now comes to,
      which side is served, how much it reads, and whether the read or the write fails, the
      write after some of its bytes. */
  datatype Turn = Turn(elapsed: nat, splice: Splice, down: bool, n: nat, readFails: bool, writeFails: bool, part: nat)

  /** Nothing fails. */
  predicate Calm(script: seq<Turn>)
  {
    forall i :: 0 <= i < |script| ==> !script[i].readFails && !script[i].writeFails
  }

  // ---- Reading and writing ---------------------------------------------------------------------

  /** How much a read of `room` bytes gives: at least one byte while there are any. */
  function ReadSize(left: nat, room: nat, n: nat): (r: nat)
    requires room > 0
    ensures r <= left && r <= room && (r == 0 <==> left == 0)
  {
    var most := Min(left, room);
    if most == 0 then 0 else if n == 0 then 1 else Min(n, most)
  }

  /** One turn of one direction of a copy. */
  datatype Moved = Ended | Broken(sent: nat) | Progress(n: nat)

  function MoveOnce(left: nat, room: nat, turn: Turn): (m: Moved)
    requires room > 0
    ensures m.Ended? ==> left == 0
    ensures m.Broken? ==> m.sent <= left
    ensures m.Progress? ==> 0 < m.n <= left && m.n <= room
  {
    if turn.readFails then Broken(0)
    else
      var n := ReadSize(left, room, turn.n);
      if n == 0 then (if turn.writeFails then Broken(0) else Ended)
      else if turn.writeFails then Broken(Min(turn.part, n))
      else Progress(n)
  }

  /** How far one direction of the pooled copy gets: the bytes sent, the bytes counted, and
      whether it ended or failed; neither if the script is too short. */
  datatype Copied = Copied(sent: nat, total: nat, ended: bool, failed: bool)

  /** The pooled copy of `size` bytes from turn `i` on, with `done` of them copied. */
  function CopyRun(size: nat, script: seq<Turn>, i: nat, done: nat): (c: Copied)
    requires i <= |script| && done <= size
    ensures done <= c.total <= c.sent <= size && !(c.ended && c.failed)
    ensures c.ended ==> c.total == c.sent == size
    decreases |script| - i
  {
    if i == |script| then Copied(done, done, false, false)
    else if script[i].readFails then Copied(done, done, false, true)
    else
      var n := ReadSize(size - done, POOLED_BUFFER, script[i].n);
      if n == 0 then Copied(done, done, true, false)
      else if script[i].writeFails then Copied(done + Min(script[i].part, n), done, false, true)
      else CopyRun(size, script, i + 1, done + n)
  }

  lemma {:induction false} CalmCopyEnds(size: nat, script: seq<Turn>, i: nat, done: nat)
    requires i <= |script| && done <= size && Calm(script) && |script| - i > size - done
    ensures CopyRun(size, script, i, done) == Copied(size, size, true, false)
    decreases |script| - i
  {
    var n := ReadSize(size - done, POOLED_BUFFER, script[i].n);
    if n > 0 {
      CalmCopyEnds(size, script, i + 1, done + n);
    }
  }

  /** The turns before `k` are without trouble, and turn `k` is not. */
  predicate FirstTrouble(script: seq<Turn>, k: nat)
  {
    && k < |script| && (script[k].readFails || script[k].writeFails)
    && forall i :: 0 <= i < k ==> !script[i].readFails && !script[i].writeFails
  }

  /** Trouble makes the copy fail where it stands: before any more is read, or with what part of
      one more read got out uncounted; but not if the source has ended before, or ends there
      with nothing to write.  Without trouble nothing fails. */
  lemma FailsWhereItStands(size: nat, script: seq<Turn>, k: nat)
    ensures Calm(script) ==> !CopyRun(size, script, 0, 0).failed
    ensures FirstTrouble(script, k) ==>
              var before, c := CopyRun(size, script[..k], 0, 0), CopyRun(size, script, 0, 0);
              && !before.failed
              && (before.ended ==> c == before)
              && (!before.ended && script[k].readFails ==> c == Copied(before.total, before.total, false, true))
              && (!before.ended && !script[k].readFails && before.total == size ==>
                    c == Copied(size, size, true, false))
              && (!before.ended && !script[k].readFails && before.total < size ==>
                    && c.failed && c.total == before.total
                    && before.total <= c.sent <= before.total + Min(script[k].part, 16384))
  {
    if Calm(script) {
      CalmNeverFails(size, script, 0, 0);
    }
    if FirstTrouble(script, k) {
      FailsFrom(size, script, k, 0, 0);
    }
  }

  /** A read brings as much as there is, up to the 16 KiB of the buffer, if the socket has it. */
  lemma ReadsFillTheBuffer(size: nat, turn: Turn)
    requires !turn.readFails && !turn.writeFails && size > 0
    ensures turn.n >= 16384 ==> CopyRun(size, [turn], 0, 0).sent == Min(size, 16384)
    ensures 0 < turn.n <= 16384 ==> CopyRun(size, [turn], 0, 0).sent == Min(size, turn.n)
  {
  }

  lemma {:induction false} CalmNeverFails(size: nat, script: seq<Turn>, i: nat, done: nat)
    requires i <= |script| && done <= size && Calm(script)
    ensures !CopyRun(size, script, i, done).failed
    decreases |script| - i
  {
    if i < |script| {
      CalmNeverFails(size, script, i + 1, done + ReadSize(size - done, POOLED_BUFFER, script[i].n));
    }
  }

  lemma {:induction false} FailsFrom(size: nat, script: seq<Turn>, k: nat, i: nat, done: nat)
    requires FirstTrouble(script, k) && i <= k && done <= size
    ensures var before, c := CopyRun(size, script[..k], i, done), CopyRun(size, script, i, done);
            && !before.failed
            && (before.ended ==> c == before)
            && (!before.ended && script[k].readFails ==> c == Copied(before.total, before.total, false, true))
            && (!before.ended && !script[k].readFails && before.total == size ==> c == Copied(size, size, true, false))
            && (!before.ended && !script[k].readFails && before.total < size ==>
                  && c.failed && c.total == before.total
                  && before.total <= c.sent <= before.total + Min(script[k].part, 16384))
    decreases k - i
  {
    if i < k {
      assert script[..k][i] == script[i];
      var n := ReadSize(size - done, POOLED_BUFFER, script[i].n);
      if n > 0 {
        FailsFrom(size, script, k, i + 1, done + n);
      }
    }
  }

  /** One direction of the pooled copy: reads and writes until the end of `source`.  A
      failed shutdown at the end is ignored. */
  method CopyOne(source: seq<byte>, script: seq<Turn>) returns (c: Copied)
    ensures c == CopyRun(|source|, script, 0, 0)
    ensures Calm(script) && |script| > |source| ==> c == Copied(|source|, |source|, true, false)
  {
    if Calm(script) && |script| > |source| {
      CalmCopyEnds(|source|, script, 0, 0);
    }
    var total, i := 0, 0;
    while i < |script|
      invariant 0 <= i <= |script| && 0 <= total <= |source|
      invariant CopyRun(|source|, script, 0, 0) == CopyRun(|source|, script, i, total)
    {
      var turn := script[i];
      if turn.readFails {
        return Copied(total, total, false, true);
      }
      var n := ReadSize(|source| - total, POOLED_BUFFER, turn.n);
      if n == 0 {
        return Copied(total, total, true, false);
      }
      if turn.writeFails {
        return Copied(total + Min(turn.part, n), total, false, true);
      }
      total := total + n;
      i := i + 1;
    }
    return Copied(total, total, false, false);
  }

  /** Two directions together: an error of either is the result, once both are over. */
  function Joined(x: Copied, y: Copied): (o: Outcome)
  {
    if !(x.ended || x.failed) || !(y.ended || y.failed) then Running
    else if x.failed || y.failed then Failed
    else Done(x.total, y.total)
  }

  /** Success takes both; an error of either comes out, but not before the other is over too. */
  lemma JoinedMeans(x: Copied, y: Copied)
    requires !(x.ended && x.failed) && !(y.ended && y.failed)
    ensures Joined(x, y).Done? <==> x.ended && y.ended
    ensures Joined(x, y).Failed? <==> (x.failed && (y.failed || y.ended)) || (y.failed && (x.failed || x.ended))
    ensures !Joined(x, y).HandedToVision?
  {
  }

  /** The pooled copy of what is left of both sides. */
  function CopyBoth(a: seq<byte>, b: seq<byte>, u: Lane, d: Lane, upScript: seq<Turn>, downScript: seq<Turn>)
    : (r: Result)
    requires u.taken <= |a| && d.taken <= |b|
  {
    var x, y := CopyRun(|a| - u.taken, upScript, 0, 0), CopyRun(|b| - d.taken, downScript, 0, 0);
    Result(Joined(x, y), Forward(a, u, x.sent), Forward(b, d, y.sent), AllCopied)
  }

  /** Success means that both sides were taken to their ends and counted; nothing more is lost
      or goes uncounted; and it succeeds if nothing fails. */
  ghost predicate CopiesBoth(a: seq<byte>, b: seq<byte>, u: Lane, d: Lane, upScript: seq<Turn>, downScript: seq<Turn>,
                             r: Result)
  {
    && Carried(a, r.up) && Carried(b, r.down) && !r.outcome.HandedToVision? && r.path == AllCopied
    && r.up.lost == u.lost && r.down.lost == d.lost
    && r.up.uncounted == u.uncounted && r.down.uncounted == d.uncounted
    && (r.outcome.Done? ==>
          && r.up.taken == |a| && r.outcome.up == |r.up.sent| - |u.sent|
          && r.down.taken == |b| && r.outcome.down == |r.down.sent| - |d.sent|)
    && (Calm(upScript) && Calm(downScript) && |upScript| > |a| && |downScript| > |b| ==> r.outcome.Done?)
  }

  lemma CopyBothLaw(a: seq<byte>, b: seq<byte>, u: Lane, d: Lane, upScript: seq<Turn>, downScript: seq<Turn>, r: Result)
    requires Carried(a, u) && Carried(b, d) && r == CopyBoth(a, b, u, d, upScript, downScript)
    ensures CopiesBoth(a, b, u, d, upScript, downScript, r)
  {
    var x, y := CopyRun(|a| - u.taken, upScript, 0, 0), CopyRun(|b| - d.taken, downScript, 0, 0);
    CopyOneWay(a, u, upScript, x, r.up);
    CopyOneWay(b, d, downScript, y, r.down);
    JoinedWays(a, b, u, d, upScript, downScript, x, y, r);
  }

  lemma JoinedWays(a: seq<byte>, b: seq<byte>, u: Lane, d: Lane, upScript: seq<Turn>, downScript: seq<Turn>,
                   x: Copied, y: Copied, r: Result)
    requires CopiesWay(a, u, upScript, x, r.up) && CopiesWay(b, d, downScript, y, r.down)
    requires r.outcome == Joined(x, y) && r.path == AllCopied
    ensures CopiesBoth(a, b, u, d, upScript, downScript, r)
  {
  }

  ghost predicate CopiesWay(source: seq<byte>, l: Lane, script: seq<Turn>, c: Copied, r: Lane)
  {
    && Carried(source, r) && r.lost == l.lost && r.uncounted == l.uncounted && !(c.ended && c.failed)
    && (c.ended ==> r.taken == |source| && c.total == |r.sent| - |l.sent|)
    && (Calm(script) && |script| > |source| ==> c.ended)
  }

  lemma CopyOneWay(source: seq<byte>, l: Lane, script: seq<Turn>, c: Copied, r: Lane)
    requires Carried(source, l) && c == CopyRun(|source| - l.taken, script, 0, 0) && r == Forward(source, l, c.sent)
    ensures CopiesWay(source, l, script, c, r)
  {
    ForwardKeeps(source, l, c.sent);
    if Calm(script) && |script| > |source| {
      CalmCopyEnds(|source| - l.taken, script, 0, 0);
    }
  }

  /** Both directions of the pooled copy, for what is left of each; each runs to its own end,
      also after the other failed. */
  method CopyBidirectional(a: seq<byte>, b: seq<byte>, u: Lane, d: Lane, upScript: seq<Turn>, downScript: seq<Turn>)
    returns (r: Result)
    requires u.taken <= |a| && d.taken <= |b|
    ensures r == CopyBoth(a, b, u, d, upScript, downScript)
  {
    var x := CopyOne(a[u.taken..], upScript);
    var y := CopyOne(b[d.taken..], downScript);
    r := Result(Joined(x, y), Forward(a, u, x.sent), Forward(b, d, y.sent), AllCopied);
  }

  // ---- What success amounts to ----------------------------------------------------------------

  /** The lanes and counts of a relay that succeeded, on either path. */
  ghost predicate Accounted(a: seq<byte>, b: seq<byte>, r: Result)
  {
    r.outcome.Done? && Carried(a, r.up) && Carried(b, r.down) &&
    match r.path
    case AllCopied =>
      && r.up.taken == |a| && r.outcome.up + r.up.uncounted == |r.up.sent|
      && r.down.taken == |b| && r.outcome.down + r.down.uncounted == |r.down.sent|
    case SplicedFrom(u, d, splice) =>
      && splice.Spliced? && Carried(a, u) && Carried(b, d)
      && r.up == Forward(a, u, Min(splice.up, |a| - u.taken))
      && r.down == Forward(b, d, Min(splice.down, |b| - d.taken))
      && r.outcome.up + u.uncounted == |u.sent| + splice.upCount
      && r.outcome.down + d.uncounted == |d.sent| + splice.downCount
  }

  /** The splice that succeeded, if there was one, forwarded all that was left. */
  predicate ToTheEnd(path: Path, a: nat, b: nat)
  {
    path.SplicedFrom? ==>
      path.splice.Spliced? && path.up.taken + path.splice.up >= a && path.down.taken + path.splice.down >= b
  }

  /** Success has delivered everything exactly when nothing was left in a pipe by a splice that
      failed, and the one that succeeded, if any, went on to the end. */
  lemma CompleteExactly(a: seq<byte>, b: seq<byte>, r: Result)
    requires Accounted(a, b, r)
    ensures r.up.sent == a && r.down.sent == b
            <==> ToTheEnd(r.path, |a|, |b|) && r.up.lost == 0 && r.down.lost == 0
  {
    WholeExactly(a, r.up);
    WholeExactly(b, r.down);
  }

  /** What every way of relaying keeps.  `clean`: no splice that failed left anything in a pipe;
      `still`: none forwarded anything. */
  ghost predicate Law(a: seq<byte>, b: seq<byte>, clean: bool, still: bool, r: Result)
  {
    && Carried(a, r.up) && Carried(b, r.down)
    && (clean ==> r.up.lost == r.down.lost == 0)
    && (still ==> r.up.uncounted == r.down.uncounted == 0)
    && (still && r.path.SplicedFrom? ==> r.path.up.uncounted == r.path.down.uncounted == 0)
    && (r.path.SplicedFrom? ==> r.outcome.Done?)
    && (r.outcome.Done? ==> Accounted(a, b, r))
  }

  /** A splice that succeeds ends the relay: its counts are added to what was counted so far. */
  function BySplice(a: seq<byte>, b: seq<byte>, u: Lane, d: Lane, splice: Splice, countUp: nat, countDown: nat)
    : (r: Result)
    requires u.taken <= |a| && d.taken <= |b| && splice.Spliced?
  {
    Result(Done(countUp + splice.upCount, countDown + splice.downCount),
           Forward(a, u, Min(splice.up, |a| - u.taken)), Forward(b, d, Min(splice.down, |b| - d.taken)),
           SplicedFrom(u, d, splice))
  }

  lemma BySpliceLaw(a: seq<byte>, b: seq<byte>, u: Lane, d: Lane, splice: Splice, countUp: nat, countDown: nat,
                    clean: bool, still: bool, r: Result)
    requires Carried(a, u) && Carried(b, d) && splice.Spliced?
    requires r == BySplice(a, b, u, d, splice, countUp, countDown)
    requires countUp + u.uncounted == |u.sent| && countDown + d.uncounted == |d.sent|
    requires (clean ==> u.lost == d.lost == 0) && (still ==> u.uncounted == d.uncounted == 0)
    ensures Law(a, b, clean, still, r)
  {
    ForwardKeeps(a, u, Min(splice.up, |a| - u.taken));
    ForwardKeeps(b, d, Min(splice.down, |b| - d.taken));
  }
}
