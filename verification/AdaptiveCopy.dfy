/** Copying until the stream proves bulky, and then splicing. */
module AdaptiveCopy {
  import opened Bytes
  import opened Lanes
  import opened PooledCopy
  import opened Options

  const MIN_BYTES: nat := 256 * 1024
  const LONG_STREAM_MS: nat := 30
  const COPY_BUFFER: nat := 64 * 1024
  const FULL_READ_STREAK: nat := 4
  const FULL_READ_MIN_BYTES: nat := 64 * 1024

  // ---- When to splice ------------------------------------------------------------------------

  predicate Ready(copied: nat, elapsed: nat, streak: nat)
  {
    streak >= FULL_READ_STREAK
    && (copied >= MIN_BYTES || (copied >= FULL_READ_MIN_BYTES && elapsed >= LONG_STREAM_MS))
  }

  predicate ReadyForDirections(up: nat, down: nat, elapsed: nat, upStreak: nat, downStreak: nat)
  {
    Ready(up, elapsed, upStreak) || Ready(down, elapsed, downStreak)
  }

  /** Four full reads in a row, and either 256 KiB or, after 30 ms, 64 KiB. */
  lemma ReadyMeans(copied: nat, elapsed: nat, streak: nat)
    ensures Ready(copied, elapsed, streak)
            <==> streak >= 4 && (copied >= 262144 || (copied >= 65536 && elapsed >= 30))
  {
  }

  /** Full reads in a row, in eight bits. */
  function NextStreak(current: nat, read: nat, buffer: nat): (streak: nat)
    requires current < 256
    ensures streak < 256
  {
    if read == buffer then Min(current + 1, 255) else 0
  }

  /** Four full reads are 256 KiB, so where full reads are counted as they are copied the
      streak alone decides; neither the byte thresholds nor the time ever do. */
  lemma BulkIsStreak(copied: nat, elapsed: nat, streak: nat)
    requires streak * COPY_BUFFER <= copied
    ensures Ready(copied, elapsed, streak) <==> streak >= FULL_READ_STREAK
  {
  }

  // ---- Copy, then splice ------------------------------------------------------------------------

  /** One direction of the adaptive copy: its lane, the bytes it copied, whether its source has
      ended, and its full reads in a row. */
  datatype Copy = Copy(lane: Lane, copied: nat, eof: bool, streak: nat)

  /** The copy since `start`: what was sent is counted, or was sent by a splice that failed. */
  ghost predicate Going(source: seq<byte>, start: nat, c: Copy, clean: bool, still: bool)
  {
    && Carried(source, c.lane) && start + c.copied + c.lane.uncounted == |c.lane.sent|
    && (c.eof ==> c.lane.taken == |source|) && c.streak < 256 && c.streak * COPY_BUFFER <= c.copied
    && (clean ==> c.lane.lost == 0) && (still ==> c.lane.uncounted == 0)
  }

  /** The turns a copy has used. */
  function Progressed(c: Copy): (n: nat)
  {
    c.copied + if c.eof then 1 else 0
  }

  /** One turn of one direction, and whether it broke the relay. */
  datatype Turned = Turned(copy: Copy, broken: bool)

  function CopyTurn(source: seq<byte>, c: Copy, turn: Turn): (r: Turned)
    requires c.lane.taken <= |source| && c.streak < 256
    ensures r.copy.lane.taken <= |source| && r.copy.streak < 256
  {
    match MoveOnce(|source| - c.lane.taken, COPY_BUFFER, turn)
    case Ended => Turned(c.(eof := true), false)
    case Broken(part) => Turned(c.(lane := Forward(source, c.lane, part)), true)
    case Progress(n) =>
      Turned(Copy(Forward(source, c.lane, n), c.copied + n, c.eof, NextStreak(c.streak, n, COPY_BUFFER)), false)
  }

  lemma CopyTurnKeeps(source: seq<byte>, start: nat, c: Copy, turn: Turn, clean: bool, still: bool)
    requires Going(source, start, c, clean, still) && !c.eof
    ensures var r := CopyTurn(source, c, turn);
            && Carried(source, r.copy.lane) && r.copy.lane.lost == c.lane.lost
            && r.copy.lane.uncounted == c.lane.uncounted
            && (!r.broken ==> Going(source, start, r.copy, clean, still) && Progressed(r.copy) > Progressed(c))
            && (r.broken ==> turn.readFails || turn.writeFails)
  {
    match MoveOnce(|source| - c.lane.taken, COPY_BUFFER, turn) {
      case Ended =>
      case Broken(part) => ForwardKeeps(source, c.lane, part);
      case Progress(n) => ProgressKeeps(source, start, c, n, clean, still);
    }
  }

  lemma ProgressKeeps(source: seq<byte>, start: nat, c: Copy, n: nat, clean: bool, still: bool)
    requires Going(source, start, c, clean, still) && !c.eof && c.lane.taken + n <= |source|
    ensures var r := Copy(Forward(source, c.lane, n), c.copied + n, c.eof, NextStreak(c.streak, n, COPY_BUFFER));
            Going(source, start, r, clean, still)
  {
    ForwardKeeps(source, c.lane, n);
  }

  /** A splice was attempted and failed: nothing is counted, nothing lost if it was clean, and
      nothing was sent if it was still. */
  function FailedCopy(source: seq<byte>, c: Copy, leg: Leg): (r: Copy)
    requires c.lane.taken <= |source|
    ensures r.lane.taken <= |source|
  {
    c.(lane := Fail(source, c.lane, leg))
  }

  lemma FailedCopyKeeps(source: seq<byte>, start: nat, c: Copy, leg: Leg, clean: bool, still: bool)
    requires Going(source, start, c, clean, still) && !c.eof
    requires (clean ==> leg.taken <= leg.sent) && (still ==> Min(leg.taken, leg.sent) == 0)
    ensures Going(source, start, FailedCopy(source, c, leg), clean, still)
  {
    FailKeeps(source, c.lane, leg);
  }

  predicate AttemptsSplice(up: nat, down: nat, x: Copy, y: Copy, turn: Turn)
  {
    !x.eof && !y.eof && ReadyForDirections(up + x.copied, down + y.copied, turn.elapsed, x.streak, y.streak)
  }

  /** Both directions of the copy, and whether a turn broke the relay. */
  datatype Copies = Copies(x: Copy, y: Copy, broken: bool)

  predicate WithinSources(a: seq<byte>, b: seq<byte>, x: Copy, y: Copy)
  {
    x.lane.taken <= |a| && y.lane.taken <= |b| && x.streak < 256 && y.streak < 256
  }

  /** One turn: a splice that fails, if the copy was ready for it, and a turn of the side served. */
  function AdaptiveTurn(a: seq<byte>, b: seq<byte>, up: nat, down: nat, x: Copy, y: Copy, turn: Turn): (r: Copies)
    requires WithinSources(a, b, x, y)
    ensures WithinSources(a, b, r.x, r.y)
  {
    var fails := AttemptsSplice(up, down, x, y, turn) && turn.splice.SpliceFails?;
    var x' := if fails then FailedCopy(a, x, turn.splice.upLeg) else x;
    var y' := if fails then FailedCopy(b, y, turn.splice.downLeg) else y;
    if x.eof || (turn.down && !y.eof) then
      var t := CopyTurn(b, y', turn);
      Copies(x', t.copy, t.broken)
    else
      var t := CopyTurn(a, x', turn);
      Copies(t.copy, y', t.broken)
  }

  ghost predicate BothGoing(a: seq<byte>, b: seq<byte>, up: nat, down: nat, x: Copy, y: Copy, clean: bool, still: bool)
  {
    Going(a, up, x, clean, still) && Going(b, down, y, clean, still)
  }

  lemma AdaptiveTurnKeeps(a: seq<byte>, b: seq<byte>, up: nat, down: nat, x: Copy, y: Copy, turn: Turn,
                          clean: bool, still: bool)
    requires BothGoing(a, b, up, down, x, y, clean, still) && !(x.eof && y.eof)
    requires (clean ==> Clean(turn.splice)) && (still ==> Still(turn.splice))
    ensures var r := AdaptiveTurn(a, b, up, down, x, y, turn);
            && Carried(a, r.x.lane) && Carried(b, r.y.lane)
            && (clean ==> r.x.lane.lost == r.y.lane.lost == 0)
            && (still ==> r.x.lane.uncounted == r.y.lane.uncounted == 0)
            && (!r.broken ==>
                  && BothGoing(a, b, up, down, r.x, r.y, clean, still)
                  && Progressed(r.x) + Progressed(r.y) > Progressed(x) + Progressed(y))
            && (r.broken ==> turn.readFails || turn.writeFails)
  {
    var x', y' := x, y;
    if AttemptsSplice(up, down, x, y, turn) && turn.splice.SpliceFails? {
      FailedCopyKeeps(a, up, x, turn.splice.upLeg, clean, still);
      FailedCopyKeeps(b, down, y, turn.splice.downLeg, clean, still);
      x', y' := FailedCopy(a, x, turn.splice.upLeg), FailedCopy(b, y, turn.splice.downLeg);
    }
    if x.eof || (turn.down && !y.eof) {
      CopyTurnKeeps(b, down, y', turn, clean, still);
    } else {
      CopyTurnKeeps(a, up, x', turn, clean, still);
    }
  }

  /** Copying until the stream proves bulky, then splicing; after a splice that failed the copy
      goes on from where it left the sources.  From turn `i` on. */
  function AdaptiveRun(a: seq<byte>, b: seq<byte>, up: nat, down: nat, x: Copy, y: Copy, script: seq<Turn>, i: nat)
    : (r: Result)
    requires i <= |script| && WithinSources(a, b, x, y)
    decreases |script| - i
  {
    if i == |script| then Result(Running, x.lane, y.lane, AllCopied)
    else if AttemptsSplice(up, down, x, y, script[i]) && script[i].splice.Spliced? then
      BySplice(a, b, x.lane, y.lane, script[i].splice, up + x.copied, down + y.copied)
    else if x.eof && y.eof then Result(Done(x.copied + up, y.copied + down), x.lane, y.lane, AllCopied)
    else
      var t := AdaptiveTurn(a, b, up, down, x, y, script[i]);
      if t.broken then Result(Failed, t.x.lane, t.y.lane, AllCopied)
      else AdaptiveRun(a, b, up, down, t.x, t.y, script, i + 1)
  }

  /** Every splice the script holds is clean; or still. */
  predicate AllClean(script: seq<Turn>)
  {
    forall i :: 0 <= i < |script| ==> Clean(script[i].splice)
  }

  predicate AllStill(script: seq<Turn>)
  {
    forall i :: 0 <= i < |script| ==> Still(script[i].splice)
  }

  /** A splice of the script, taken after at least 256 KiB beyond `up` or `down`. */
  ghost predicate Bulky(script: seq<Turn>, up: nat, down: nat, path: Path)
  {
    path.SplicedFrom? ==>
      && (|path.up.sent| >= up + 262144 || |path.down.sent| >= down + 262144)
      && exists k :: 0 <= k < |script| && path.splice == script[k].splice
  }

  /** A copy that is ready has sent at least 256 KiB. */
  lemma ReadyIsBulk(a: seq<byte>, b: seq<byte>, up: nat, down: nat, x: Copy, y: Copy, elapsed: nat,
                    clean: bool, still: bool)
    requires BothGoing(a, b, up, down, x, y, clean, still)
    requires ReadyForDirections(up + x.copied, down + y.copied, elapsed, x.streak, y.streak)
    ensures |x.lane.sent| >= up + MIN_BYTES || |y.lane.sent| >= down + MIN_BYTES
  {
    BulkIsStreak(up + x.copied, elapsed, x.streak);
    BulkIsStreak(down + y.copied, elapsed, y.streak);
  }

  lemma {:induction false} AdaptiveLaw(a: seq<byte>, b: seq<byte>, up: nat, down: nat, x: Copy, y: Copy,
                                       script: seq<Turn>, i: nat, clean: bool, still: bool, r: Result)
    requires i <= |script| && BothGoing(a, b, up, down, x, y, clean, still)
    requires (clean ==> AllClean(script)) && (still ==> AllStill(script))
    requires r == AdaptiveRun(a, b, up, down, x, y, script, i)
    ensures AdaptiveLawful(a, b, up, down, script, clean, still, r)
    decreases |script| - i
  {
    if i == |script| {
      CopiesStand(a, b, up, down, x, y, script, clean, still, r);
    } else if AttemptsSplice(up, down, x, y, script[i]) && script[i].splice.Spliced? {
      SpliceIsBulky(a, b, up, down, x, y, script, i, clean, still, r);
    } else if x.eof && y.eof {
      CopiesStand(a, b, up, down, x, y, script, clean, still, r);
    } else {
      AdaptiveTurnKeeps(a, b, up, down, x, y, script[i], clean, still);
      var t := AdaptiveTurn(a, b, up, down, x, y, script[i]);
      if !t.broken {
        AdaptiveLaw(a, b, up, down, t.x, t.y, script, i + 1, clean, still, r);
      }
    }
  }

  ghost predicate AdaptiveLawful(a: seq<byte>, b: seq<byte>, up: nat, down: nat, script: seq<Turn>,
                                 clean: bool, still: bool, r: Result)
  {
    Law(a, b, clean, still, r) && Bulky(script, up, down, r.path) && !r.outcome.HandedToVision?
  }

  /** Stopping without a splice. */
  lemma CopiesStand(a: seq<byte>, b: seq<byte>, up: nat, down: nat, x: Copy, y: Copy, script: seq<Turn>,
                    clean: bool, still: bool, r: Result)
    requires BothGoing(a, b, up, down, x, y, clean, still)
    requires r.up == x.lane && r.down == y.lane && r.path == AllCopied && !r.outcome.HandedToVision?
    requires r.outcome.Done? ==> x.eof && y.eof && r.outcome == Done(x.copied + up, y.copied + down)
    ensures AdaptiveLawful(a, b, up, down, script, clean, still, r)
  {
  }

  /** Stopping with one. */
  lemma SpliceIsBulky(a: seq<byte>, b: seq<byte>, up: nat, down: nat, x: Copy, y: Copy, script: seq<Turn>, i: nat,
                      clean: bool, still: bool, r: Result)
    requires i < |script| && BothGoing(a, b, up, down, x, y, clean, still)
    requires AttemptsSplice(up, down, x, y, script[i]) && script[i].splice.Spliced?
    requires r == BySplice(a, b, x.lane, y.lane, script[i].splice, up + x.copied, down + y.copied)
    ensures AdaptiveLawful(a, b, up, down, script, clean, still, r)
  {
    ReadyIsBulk(a, b, up, down, x, y, script[i].elapsed, clean, still);
    BySpliceLaw(a, b, x.lane, y.lane, script[i].splice, up + x.copied, down + y.copied, clean, still, r);
  }

  lemma {:induction false} CalmAdaptiveEnds(a: seq<byte>, b: seq<byte>, up: nat, down: nat, x: Copy, y: Copy,
                                            script: seq<Turn>, i: nat)
    requires i <= |script| && BothGoing(a, b, up, down, x, y, false, false) && Calm(script)
    requires |script| - i + Progressed(x) + Progressed(y) > |a| + |b| + 2
    ensures AdaptiveRun(a, b, up, down, x, y, script, i).outcome.Done?
    decreases |script| - i
  {
    var turn := script[i];
    if !(AttemptsSplice(up, down, x, y, turn) && turn.splice.Spliced?) && !(x.eof && y.eof) {
      AdaptiveTurnKeeps(a, b, up, down, x, y, turn, false, false);
      var t := AdaptiveTurn(a, b, up, down, x, y, turn);
      CalmAdaptiveEnds(a, b, up, down, t.x, t.y, script, i + 1);
    }
  }

  /** The whole of it, from lanes that hold what was written before. */
  function Adaptively(a: seq<byte>, b: seq<byte>, u: Lane, d: Lane, script: seq<Turn>): (r: Result)
    requires u.taken <= |a| && d.taken <= |b|
  {
    AdaptiveRun(a, b, |u.sent|, |d.sent|, Copy(u, 0, false, 0), Copy(d, 0, false, 0), script, 0)
  }

  /** In order, counted, and nothing lost or uncounted but by splices that failed; spliced only
      after 256 KiB; and done if nothing fails. */
  lemma AdaptivelyLaw(a: seq<byte>, b: seq<byte>, u: Lane, d: Lane, script: seq<Turn>, r: Result)
    requires Carried(a, u) && Carried(b, d) && u.uncounted == d.uncounted == 0 && u.lost == d.lost == 0
    requires r == Adaptively(a, b, u, d, script)
    ensures AdaptiveLawful(a, b, |u.sent|, |d.sent|, script, AllClean(script), AllStill(script), r)
    ensures Calm(script) && |script| > |a| + |b| + 2 ==> r.outcome.Done?
  {
    var x, y := Copy(u, 0, false, 0), Copy(d, 0, false, 0);
    AdaptiveLaw(a, b, |u.sent|, |d.sent|, x, y, script, 0, AllClean(script), AllStill(script), r);
    if Calm(script) && |script| > |a| + |b| + 2 {
      CalmAdaptiveEnds(a, b, |u.sent|, |d.sent|, x, y, script, 0);
    }
  }

  // ---- When a splice is taken -------------------------------------------------------------------

  /** The copy at the start of a turn, and the size of every read so far, side by side. */
  datatype Situation = Situation(x: Copy, y: Copy, ups: seq<nat>, downs: seq<nat>)

  /** The last four reads all filled the buffer of 64 KiB. */
  predicate FourFull(sizes: seq<nat>)
  {
    |sizes| >= 4 && forall i :: |sizes| - 4 <= i < |sizes| ==> sizes[i] == 65536
  }

  /** Both sides are open, and one of them has just filled its buffer four times in a row. */
  predicate Bulk(t: Situation)
  {
    !t.x.eof && !t.y.eof && (FourFull(t.ups) || FourFull(t.downs))
  }

  function Extended(sizes: seq<nat>, before: nat, after: nat): (r: seq<nat>)
  {
    if after > before then sizes + [after - before] else sizes
  }

  function Later(t: Situation, c: Copies): (r: Situation)
  {
    Situation(c.x, c.y, Extended(t.ups, t.x.copied, c.x.copied), Extended(t.downs, t.y.copied, c.y.copied))
  }

  /** The situation at turn `k`, if the copy, at turn `i` in situation `t`, gets that far: it is
      not spliced, over or broken before. */
  function SituationAt(a: seq<byte>, b: seq<byte>, up: nat, down: nat, t: Situation, script: seq<Turn>, i: nat, k: nat)
    : (r: Option<Situation>)
    requires i <= k <= |script| && WithinSources(a, b, t.x, t.y)
    ensures r.Some? ==> WithinSources(a, b, r.value.x, r.value.y)
    decreases k - i
  {
    if i == k then Some(t)
    else if (Bulk(t) && script[i].splice.Spliced?) || (t.x.eof && t.y.eof) then None
    else
      var c := AdaptiveTurn(a, b, up, down, t.x, t.y, script[i]);
      if c.broken then None
      else SituationAt(a, b, up, down, Later(t, c), script, i + 1, k)
  }

  /** At turn `k` the stream has proved bulky and a splice would succeed. */
  predicate SplicesAt(a: seq<byte>, b: seq<byte>, up: nat, down: nat, t: Situation, script: seq<Turn>, i: nat, k: nat)
    requires i <= k < |script| && WithinSources(a, b, t.x, t.y)
  {
    var s := SituationAt(a, b, up, down, t, script, i, k);
    s.Some? && Bulk(s.value) && script[k].splice.Spliced?
  }

  /** Full reads at the end. */
  function Trailing(sizes: seq<nat>): (n: nat)
    ensures n <= |sizes|
  {
    if sizes == [] || sizes[|sizes| - 1] != 65536 then 0 else Trailing(sizes[..|sizes| - 1]) + 1
  }

  lemma TrailingFour(sizes: seq<nat>)
    ensures FourFull(sizes) <==> Trailing(sizes) >= 4
  {
    var n := |sizes|;
    if n >= 4 {
      TrailingOnce(sizes[..n - 1]);
      TrailingOnce(sizes[..n - 1][..n - 2]);
      TrailingOnce(sizes[..n - 1][..n - 2][..n - 3]);
    }
  }

  lemma TrailingOnce(sizes: seq<nat>)
    ensures sizes != [] && sizes[|sizes| - 1] == 65536 ==> Trailing(sizes) == Trailing(sizes[..|sizes| - 1]) + 1
    ensures sizes == [] || sizes[|sizes| - 1] != 65536 ==> Trailing(sizes) == 0
  {
  }

  /** The streak kept in eight bits is the number of full reads at the end. */
  ghost predicate Streaks(t: Situation)
  {
    t.x.streak == Min(Trailing(t.ups), 255) && t.y.streak == Min(Trailing(t.downs), 255)
  }

  lemma StreakKept(streak: nat, sizes: seq<nat>, n: nat)
    requires streak == Min(Trailing(sizes), 255) && n > 0
    ensures NextStreak(streak, n, COPY_BUFFER) == Min(Trailing(sizes + [n]), 255)
  {
    var more := sizes + [n];
    assert more[..|more| - 1] == sizes && more[|more| - 1] == n;
  }

  lemma CopyTurnStreak(source: seq<byte>, c: Copy, turn: Turn, sizes: seq<nat>)
    requires c.lane.taken <= |source| && c.streak == Min(Trailing(sizes), 255)
    ensures var r := CopyTurn(source, c, turn);
            !r.broken ==> r.copy.streak == Min(Trailing(Extended(sizes, c.copied, r.copy.copied)), 255)
  {
    match MoveOnce(|source| - c.lane.taken, COPY_BUFFER, turn) {
      case Ended =>
      case Broken(_) =>
      case Progress(n) => StreakKept(c.streak, sizes, n);
    }
  }

  lemma TurnStreaks(a: seq<byte>, b: seq<byte>, up: nat, down: nat, t: Situation, turn: Turn)
    requires WithinSources(a, b, t.x, t.y) && Streaks(t)
    ensures var c := AdaptiveTurn(a, b, up, down, t.x, t.y, turn);
            !c.broken ==> Streaks(Later(t, c))
  {
    var fails := AttemptsSplice(up, down, t.x, t.y, turn) && turn.splice.SpliceFails?;
    var x' := if fails then FailedCopy(a, t.x, turn.splice.upLeg) else t.x;
    var y' := if fails then FailedCopy(b, t.y, turn.splice.downLeg) else t.y;
    CopyTurnStreak(a, x', turn, t.ups);
    CopyTurnStreak(b, y', turn, t.downs);
  }

  lemma AttemptsWhenBulk(a: seq<byte>, b: seq<byte>, up: nat, down: nat, t: Situation, turn: Turn)
    requires BothGoing(a, b, up, down, t.x, t.y, false, false) && Streaks(t)
    ensures AttemptsSplice(up, down, t.x, t.y, turn) <==> Bulk(t)
  {
    BulkIsStreak(up + t.x.copied, turn.elapsed, t.x.streak);
    BulkIsStreak(down + t.y.copied, turn.elapsed, t.y.streak);
    TrailingFour(t.ups);
    TrailingFour(t.downs);
  }

  /** From any situation on: spliced exactly at the turn that finds the stream bulky and the
      splice working, from the lanes of that moment; and otherwise not at all. */
  lemma {:induction false} SplicedExactlyFrom(a: seq<byte>, b: seq<byte>, up: nat, down: nat, t: Situation,
                                              script: seq<Turn>, i: nat, r: Result)
    requires i <= |script| && BothGoing(a, b, up, down, t.x, t.y, false, false) && Streaks(t)
    requires r == AdaptiveRun(a, b, up, down, t.x, t.y, script, i)
    ensures forall k :: i <= k < |script| && SplicesAt(a, b, up, down, t, script, i, k) ==>
              var s := SituationAt(a, b, up, down, t, script, i, k).value;
              r.path == SplicedFrom(s.x.lane, s.y.lane, script[k].splice)
    ensures r.path.SplicedFrom? ==> exists k :: i <= k < |script| && SplicesAt(a, b, up, down, t, script, i, k)
    decreases |script| - i
  {
    if i < |script| {
      AttemptsWhenBulk(a, b, up, down, t, script[i]);
      if Bulk(t) && script[i].splice.Spliced? {
        assert SplicesAt(a, b, up, down, t, script, i, i);
      } else if !(t.x.eof && t.y.eof) {
        var c := AdaptiveTurn(a, b, up, down, t.x, t.y, script[i]);
        AdaptiveTurnKeeps(a, b, up, down, t.x, t.y, script[i], false, false);
        TurnStreaks(a, b, up, down, t, script[i]);
        if !c.broken {
          var t' := Later(t, c);
          SplicedExactlyFrom(a, b, up, down, t', script, i + 1, r);
          assert forall k :: i < k < |script| ==>
              SituationAt(a, b, up, down, t, script, i, k) == SituationAt(a, b, up, down, t', script, i + 1, k);
          if r.path.SplicedFrom? {
            var k :| i + 1 <= k < |script| && SplicesAt(a, b, up, down, t', script, i + 1, k);
            assert SplicesAt(a, b, up, down, t, script, i, k);
          }
        }
      }
    }
  }

  /** Turn `k` is reached, there is something to copy or to close, and it fails. */
  predicate FailsAt(a: seq<byte>, b: seq<byte>, up: nat, down: nat, t: Situation, script: seq<Turn>, i: nat, k: nat)
    requires i <= k < |script| && WithinSources(a, b, t.x, t.y)
  {
    var s := SituationAt(a, b, up, down, t, script, i, k);
    && s.Some? && !(Bulk(s.value) && script[k].splice.Spliced?) && !(s.value.x.eof && s.value.y.eof)
    && (script[k].readFails || script[k].writeFails)
  }

  lemma TurnBreaksExactly(a: seq<byte>, b: seq<byte>, up: nat, down: nat, x: Copy, y: Copy, turn: Turn)
    requires WithinSources(a, b, x, y)
    ensures AdaptiveTurn(a, b, up, down, x, y, turn).broken <==> turn.readFails || turn.writeFails
  {
  }

  /** The relay fails exactly if it comes to a turn that fails, be it a read, a write or a
      half-close, and it is still running exactly if it outlasts the script. */
  lemma {:induction false} OutcomeExactlyFrom(a: seq<byte>, b: seq<byte>, up: nat, down: nat, t: Situation,
                                              script: seq<Turn>, i: nat, r: Result)
    requires i <= |script| && BothGoing(a, b, up, down, t.x, t.y, false, false) && Streaks(t)
    requires r == AdaptiveRun(a, b, up, down, t.x, t.y, script, i)
    ensures r.outcome.Failed? <==> exists k :: i <= k < |script| && FailsAt(a, b, up, down, t, script, i, k)
    ensures r.outcome.Running? <==> SituationAt(a, b, up, down, t, script, i, |script|).Some?
    decreases |script| - i
  {
    if i < |script| {
      AttemptsWhenBulk(a, b, up, down, t, script[i]);
      if !(Bulk(t) && script[i].splice.Spliced?) && !(t.x.eof && t.y.eof) {
        var c := AdaptiveTurn(a, b, up, down, t.x, t.y, script[i]);
        TurnBreaksExactly(a, b, up, down, t.x, t.y, script[i]);
        AdaptiveTurnKeeps(a, b, up, down, t.x, t.y, script[i], false, false);
        TurnStreaks(a, b, up, down, t, script[i]);
        if c.broken {
          assert FailsAt(a, b, up, down, t, script, i, i);
        } else {
          OutcomeExactlyFrom(a, b, up, down, Later(t, c), script, i + 1, r);
          FailsLater(a, b, up, down, t, script, i, c, Later(t, c), i + 1);
        }
      } else {
        FailsNowhere(a, b, up, down, t, script, i);
      }
    }
  }

  lemma FailsLater(a: seq<byte>, b: seq<byte>, up: nat, down: nat, t: Situation, script: seq<Turn>, i: nat,
                   c: Copies, t': Situation, next: nat)
    requires i < |script| && WithinSources(a, b, t.x, t.y) && c == AdaptiveTurn(a, b, up, down, t.x, t.y, script[i])
    requires !(Bulk(t) && script[i].splice.Spliced?) && !(t.x.eof && t.y.eof) && !c.broken
    requires t' == Later(t, c) && next == i + 1
    ensures (exists k :: i <= k < |script| && FailsAt(a, b, up, down, t, script, i, k))
            <==> exists k :: next <= k < |script| && FailsAt(a, b, up, down, t', script, next, k)
  {
    TurnBreaksExactly(a, b, up, down, t.x, t.y, script[i]);
    if k :| i <= k < |script| && FailsAt(a, b, up, down, t, script, i, k) {
      assert FailsAt(a, b, up, down, t', script, next, k);
    }
    if k :| next <= k < |script| && FailsAt(a, b, up, down, t', script, next, k) {
      assert FailsAt(a, b, up, down, t, script, i, k);
    }
  }

  lemma FailsNowhere(a: seq<byte>, b: seq<byte>, up: nat, down: nat, t: Situation, script: seq<Turn>, i: nat)
    requires i < |script| && WithinSources(a, b, t.x, t.y)
    requires (Bulk(t) && script[i].splice.Spliced?) || (t.x.eof && t.y.eof)
    ensures forall k :: i <= k < |script| ==> !FailsAt(a, b, up, down, t, script, i, k)
  {
  }

  /** Where the copy starts. */
  function Opening(u: Lane, d: Lane): (t: Situation)
  {
    Situation(Copy(u, 0, false, 0), Copy(d, 0, false, 0), [], [])
  }

  ghost predicate ProvesBulky(a: seq<byte>, b: seq<byte>, u: Lane, d: Lane, script: seq<Turn>)
    requires u.taken <= |a| && d.taken <= |b|
  {
    exists k :: 0 <= k < |script| && SplicesAt(a, b, |u.sent|, |d.sent|, Opening(u, d), script, 0, k)
  }

  lemma SplicedExactly(a: seq<byte>, b: seq<byte>, u: Lane, d: Lane, script: seq<Turn>, k: nat)
    requires Carried(a, u) && Carried(b, d) && u.uncounted == d.uncounted == 0
    ensures Adaptively(a, b, u, d, script).path.SplicedFrom? <==> ProvesBulky(a, b, u, d, script)
    ensures k < |script| && SplicesAt(a, b, |u.sent|, |d.sent|, Opening(u, d), script, 0, k) ==>
              var t := SituationAt(a, b, |u.sent|, |d.sent|, Opening(u, d), script, 0, k).value;
              Adaptively(a, b, u, d, script).path == SplicedFrom(t.x.lane, t.y.lane, script[k].splice)
    ensures var t, r := Opening(u, d), Adaptively(a, b, u, d, script);
            && (r.outcome.Failed?
                <==> exists j :: 0 <= j < |script| && FailsAt(a, b, |u.sent|, |d.sent|, t, script, 0, j))
            && (r.outcome.Running? <==> SituationAt(a, b, |u.sent|, |d.sent|, t, script, 0, |script|).Some?)
  {
    OutcomeExactlyFrom(a, b, |u.sent|, |d.sent|, Opening(u, d), script, 0, Adaptively(a, b, u, d, script));
    SplicedExactlyFrom(a, b, |u.sent|, |d.sent|, Opening(u, d), script, 0, Adaptively(a, b, u, d, script));
  }

  /** The loop is that run. */
  method AdaptiveCopyThenSplice(a: seq<byte>, b: seq<byte>, u: Lane, d: Lane, script: seq<Turn>) returns (r: Result)
    requires u.taken <= |a| && d.taken <= |b|
    ensures r == Adaptively(a, b, u, d, script)
  {
    var up, down := |u.sent|, |d.sent|;
    var x, y, i := Copy(u, 0, false, 0), Copy(d, 0, false, 0), 0;
    ghost var run := AdaptiveRun(a, b, up, down, x, y, script, 0);
    while i < |script|
      invariant 0 <= i <= |script| && WithinSources(a, b, x, y)
      invariant run == AdaptiveRun(a, b, up, down, x, y, script, i)
    {
      var turn := script[i];
      if AttemptsSplice(up, down, x, y, turn) && turn.splice.Spliced? {
        return BySplice(a, b, x.lane, y.lane, turn.splice, up + x.copied, down + y.copied);
      }
      if x.eof && y.eof {
        return Result(Done(x.copied + up, y.copied + down), x.lane, y.lane, AllCopied);
      }
      var t := AdaptiveTurn(a, b, up, down, x, y, turn);
      if t.broken {
        return Result(Failed, t.x.lane, t.y.lane, AllCopied);
      }
      x, y, i := t.x, t.y, i + 1;
    }
    return Result(Running, x.lane, y.lane, AllCopied);
  }
}
