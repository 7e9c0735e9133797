/** The two-bucket sliding-window meter that decides how hot a destination is, and the
    capacity tier drawn from it. */
module Hotness {

  /** Hits at times in `(lo, hi]`. */
  function Hits(history: seq<int>, lo: int, hi: int): (n: nat)
  {
    if history == [] then 0
    else (if lo < history[|history| - 1] <= hi then 1 else 0) + Hits(history[..|history| - 1], lo, hi)
  }

  lemma {:induction false} HitsSplit(history: seq<int>, lo: int, mid: int, hi: int)
    requires lo <= mid <= hi
    ensures Hits(history, lo, hi) == Hits(history, lo, mid) + Hits(history, mid, hi)
  {
    if history != [] {
      HitsSplit(history[..|history| - 1], lo, mid, hi);
    }
  }

  lemma {:induction false} NoHits(history: seq<int>, lo: int, hi: int)
    requires forall i :: 0 <= i < |history| ==> !(lo < history[i] <= hi)
    ensures Hits(history, lo, hi) == 0
  {
    if history != [] {
      NoHits(history[..|history| - 1], lo, hi);
    }
  }

  lemma HitsSnoc(history: seq<int>, t: int, lo: int, hi: int)
    ensures Hits(history + [t], lo, hi) == Hits(history, lo, hi) + if lo < t <= hi then 1 else 0
  {
    assert (history + [t])[..|history|] == history;
  }

  lemma {:induction false} WiderWindow(history: seq<int>, lo: int, hi: int, lo': int, hi': int)
    requires lo' <= lo && hi <= hi'
    ensures Hits(history, lo, hi) <= Hits(history, lo', hi')
  {
    if history != [] {
      WiderWindow(history[..|history| - 1], lo, hi, lo', hi');
    }
  }

  /** What the two buckets know about the history: the current one holds every hit since
      the window began, the previous one at least those of the window before it and at most
      those of the two before; a window that began after a hit began with one. */
  predicate Tracks(history: seq<int>, window: int, start: int, current: nat, previous: nat)
  {
    && window > 0
    && (forall i :: 0 <= i < |history| ==> history[i] < start + window)
    && current == Hits(history, start - 1, start + window)
    && Hits(history, start - window, start - 1) <= previous <= Hits(history, start - 2 * window, start - 1)
    && (current == 0 ==> previous == 0)
  }

  /** The count read at time `now`, as `estimate` computes it. */
  function Reading(window: int, start: int, current: nat, previous: nat, now: int): (n: nat)
  {
    if now - start >= 2 * window then 0 else if now - start >= window then current else previous + current
  }

  /** The sandwich: at least the hits of the last window, at most those of the last three. */
  lemma ReadingBounds(history: seq<int>, window: int, start: int, current: nat, previous: nat, now: int)
    requires Tracks(history, window, start, current, previous) && start <= now
    requires forall i :: 0 <= i < |history| ==> history[i] <= now
    ensures var reading := Reading(window, start, current, previous, now);
            Hits(history, now - window, now) <= reading <= Hits(history, now - 3 * window, now)
  {
    var elapsed := now - start;
    if elapsed >= 2 * window {
      NoHits(history, now - window, now);
    } else if elapsed >= window {
      UpTo(history, start - 1, start + window, now);
      WiderWindow(history, now - window, now, start - 1, now);
      WiderWindow(history, start - 1, now, now - 3 * window, now);
    } else {
      UpTo(history, start - 1, start + window, now);
      HitsSplit(history, start - window, start - 1, now);
      HitsSplit(history, start - 2 * window, start - 1, now);
      WiderWindow(history, now - window, now, start - window, now);
      WiderWindow(history, start - 2 * window, now, now - 3 * window, now);
    }
  }

  /** With every hit below both ends, the right end of a window does not matter. */
  lemma {:induction false} UpTo(history: seq<int>, lo: int, hi: int, hi': int)
    requires forall i :: 0 <= i < |history| ==> history[i] <= hi && history[i] <= hi'
    ensures Hits(history, lo, hi) == Hits(history, lo, hi')
  {
    if history != [] {
      UpTo(history[..|history| - 1], lo, hi, hi');
    }
  }

  /** A destination without traffic for two windows reads zero. */
  lemma ColdReadsZero(history: seq<int>, window: int, start: int, current: nat, previous: nat, now: int)
    requires Tracks(history, window, start, current, previous) && start <= now
    requires forall i :: 0 <= i < |history| ==> history[i] <= now
    requires Hits(history, now - 2 * window, now) == 0
    ensures Reading(window, start, current, previous, now) == 0
  {
    if now - start < 2 * window {
      UpTo(history, start - 1, start + window, now);
      WiderWindow(history, start - 1, now, now - 2 * window, now);
    }
  }

  /** Recording a hit keeps the buckets tracking. */
  lemma RecordTracks(history: seq<int>, window: int, start: int, current: nat, previous: nat, now: int)
    requires Tracks(history, window, start, current, previous) && start <= now
    requires forall i :: 0 <= i < |history| ==> history[i] <= now
    ensures if now - start >= 2 * window then Tracks(history + [now], window, now, 1, 0)
            else if now - start >= window then Tracks(history + [now], window, now, 1, current)
            else Tracks(history + [now], window, start, current + 1, previous)
  {
    var all := history + [now];
    if now - start >= window {
      NoHits(history, now - 1, now + window);
      HitsSnoc(history, now, now - 1, now + window);
      HitsSnoc(history, now, now - window, now - 1);
      HitsSnoc(history, now, now - 2 * window, now - 1);
      UpTo(history, start - 1, start + window, now - 1);
      if now - start >= 2 * window {
        NoHits(history, now - window, now - 1);
      } else {
        WiderWindow(history, now - window, now - 1, start - 1, now - 1);
        WiderWindow(history, start - 1, now - 1, now - 2 * window, now - 1);
      }
    } else {
      HitsSnoc(history, now, start - 1, start + window);
      HitsSnoc(history, now, start - window, start - 1);
      HitsSnoc(history, now, start - 2 * window, start - 1);
    }
  }

  class HotnessMeter {
    var current: nat
    var previous: nat
    var windowStart: int
    const window: int
    /** Every hit recorded, in order. */
    ghost var history: seq<int>

    ghost predicate Valid()
      reads this
    {
      Tracks(history, window, windowStart, current, previous)
    }

    /** The clock does not run backwards. */
    ghost predicate NotBefore(now: int)
      reads this
    {
      windowStart <= now && forall i :: 0 <= i < |history| ==> history[i] <= now
    }

    constructor (window: int, now: int)
      requires window > 0
      ensures Valid() && NotBefore(now) && history == [] && this.window == window
    {
      this.window := window;
      current, previous, windowStart, history := 0, 0, now, [];
    }

    /** Record a hit at `now` and read the count. */
    method RecordAndGet(now: int) returns (count: nat)
      requires Valid() && NotBefore(now)
      modifies this
      ensures Valid() && NotBefore(now) && history == old(history) + [now]
      ensures Hits(history, now - window, now) <= count <= Hits(history, now - 3 * window, now)
      ensures count >= 1
    {
      Record(now);
      ReadingBounds(history, window, windowStart, current, previous, now);
      count := previous + current;
    }

    /** Count the hit, in a new window if the old one is over. */
    method Record(now: int)
      requires Valid() && NotBefore(now)
      modifies this
      ensures Valid() && NotBefore(now) && history == old(history) + [now]
      ensures now - windowStart < window && current >= 1
    {
      RecordTracks(history, window, windowStart, current, previous, now);
      var elapsed := now - windowStart;
      if elapsed >= 2 * window {
        previous := 0;
        current := 1;
        windowStart := now;
      } else if elapsed >= window {
        previous := current;
        current := 1;
        windowStart := now;
      } else {
        current := current + 1;
      }
      history := history + [now];
    }

    /** Read the count without recording. */
    method Estimate(now: int) returns (count: nat)
      requires Valid() && NotBefore(now)
      ensures Hits(history, now - window, now) <= count <= Hits(history, now - 3 * window, now)
      ensures Hits(history, now - 2 * window, now) == 0 ==> count == 0
    {
      ReadingBounds(history, window, windowStart, current, previous, now);
      if Hits(history, now - 2 * window, now) == 0 {
        ColdReadsZero(history, window, windowStart, current, previous, now);
      }
      var elapsed := now - windowStart;
      if elapsed >= 2 * window {
        count := 0;
      } else if elapsed >= window {
        count := current;
      } else {
        count := previous + current;
      }
    }
  }
}
