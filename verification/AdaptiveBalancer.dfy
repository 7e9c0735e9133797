/** The adaptive balancer: scoring members, cooling the failing ones, and staying with
    the current member until another is better by a margin. */
module AdaptiveBalancer {

  import opened Options

  /** A probe's view of an outbound. */
  datatype Health = Health(alive: bool, latencyMs: nat, failures: nat)

  /** What connect results have taught about a member. */
  datatype Member = Member(attempts: nat, successes: nat, failures: nat,
                           ewmaMs: Option<real>, cooldownUntil: Option<int>)

  datatype Config = Config(failureThreshold: nat, cooldown: nat, ewmaAlpha: real, switchMargin: real)

  const NEVER_PROBED: real := 18446744073709551616.0

  function Clamp(x: real, lo: real, hi: real): (r: real)
    requires lo <= hi
    ensures lo <= r <= hi
  {
    if x < lo then lo else if x > hi then hi else x
  }

  predicate Cooling(m: Member, now: int)
  {
    m.cooldownUntil.Some? && m.cooldownUntil.value > now
  }

  function SuccessRate(m: Member): (r: real)
  {
    if m.attempts == 0 then 1.0 else m.successes as real / m.attempts as real
  }

  function LatencyMs(health: Option<Health>, m: Member): (r: real)
  {
    var probed := if health.Some? then Some(health.value.latencyMs as real) else None;
    var known := if m.ewmaMs.Some? then m.ewmaMs else probed;
    if known.Some? && known.value < NEVER_PROBED then known.value else 5000.0
  }

  /** Half success rate, three tenths latency, two tenths stability. */
  function Score(cfg: Config, health: Option<Health>, m: Member): (r: real)
  {
    var latencyScore := 1.0 - Clamp(LatencyMs(health, m) / 5000.0, 0.0, 1.0);
    var failures := (if health.Some? then health.value.failures else 0) + m.failures;
    0.5 * SuccessRate(m) + 0.3 * latencyScore + 0.2 * Stability(cfg.failureThreshold, failures)
  }

  function Stability(threshold: nat, failures: nat): (r: real)
    ensures 0.0 <= r <= 1.0
  {
    var budget := if threshold > 1 then threshold else 1;
    1.0 - Clamp(failures as real / budget as real, 0.0, 1.0)
  }

  lemma RateInUnit(m: Member)
    requires m.successes <= m.attempts
    ensures 0.0 <= SuccessRate(m) <= 1.0
  {
    if m.attempts > 0 {
      var s, a := m.successes as real, m.attempts as real;
      assert 0.0 <= s <= a;
    }
  }

  lemma ScoreInUnit(cfg: Config, health: Option<Health>, m: Member)
    requires m.successes <= m.attempts
    ensures 0.0 <= Score(cfg, health, m) <= 1.0
  {
    RateInUnit(m);
  }

  // ---- What the score rewards ------------------------------------------------------------

  /** Of two members alike but for their smoothed latency, the slower scores less, by three
      tenths for the five seconds; past those, and below zero, nothing more is taken or given. */
  lemma LatencyCosts(cfg: Config, health: Option<Health>, m: Member, x: real, y: real)
    ensures var fast, slow := m.(ewmaMs := Some(x)), m.(ewmaMs := Some(y));
            && (0.0 <= x <= y <= 5000.0 ==>
                  Score(cfg, health, fast) - Score(cfg, health, slow) == 0.3 * (y - x) / 5000.0)
            && (x >= 5000.0 && y >= 5000.0 ==> Score(cfg, health, fast) == Score(cfg, health, slow))
            && (x <= 0.0 && y <= 0.0 ==> Score(cfg, health, fast) == Score(cfg, health, slow))
  {
  }

  /** Which latency counts: the smoothed one if there is one, whatever the probe says; else the
      probe's; else five seconds. */
  lemma LatencyUsed(cfg: Config, h: Health, m: Member, ms: nat)
    ensures m.ewmaMs.Some? ==> Score(cfg, Some(h), m) == Score(cfg, Some(h.(latencyMs := ms)), m)
    ensures m.ewmaMs.None? ==> Score(cfg, Some(h), m) == Score(cfg, Some(h), m.(ewmaMs := Some(h.latencyMs as real)))
    ensures m.ewmaMs.None? ==> Score(cfg, None, m) == Score(cfg, None, m.(ewmaMs := Some(5000.0)))
  {
  }

  /** Failures, of probes and connects alike, cost a fifth when they reach the threshold, each an
      equal share of it; further ones nothing. */
  lemma FailuresCost(cfg: Config, h: Health, m: Member, n: nat, k: nat)
    requires h.failures + m.failures == n
    ensures var more := m.(failures := m.failures + k);
            && (0 < cfg.failureThreshold && n + k <= cfg.failureThreshold ==>
                  Score(cfg, Some(h), m) - Score(cfg, Some(h), more)
                  == 0.2 * (k as real / cfg.failureThreshold as real))
            && (n >= cfg.failureThreshold && n > 0 ==> Score(cfg, Some(h), m) == Score(cfg, Some(h), more))
            && (cfg.failureThreshold == 0 ==>
                  Score(cfg, Some(h), m) == Score(cfg.(failureThreshold := 1), Some(h), m))
            && Score(cfg, Some(h.(failures := h.failures + k)), m) == Score(cfg, Some(h), more)
            && (h.failures == 0 && m.ewmaMs.Some? ==> Score(cfg, None, m) == Score(cfg, Some(h), m))
  {
    StabilityFalls(cfg.failureThreshold, n, k);
  }

  lemma StabilityFalls(threshold: nat, n: nat, k: nat)
    ensures 0 < threshold && n + k <= threshold ==>
              Stability(threshold, n) - Stability(threshold, n + k) == k as real / threshold as real
    ensures n >= threshold && n > 0 ==> Stability(threshold, n) == Stability(threshold, n + k)
    ensures threshold == 0 ==> Stability(threshold, n) == Stability(1, n)
  {
    SharesOf(n, k, if threshold > 1 then threshold else 1);
  }

  lemma SharesOf(n: nat, k: nat, budget: nat)
    requires budget > 0
    ensures (n + k) as real / budget as real == n as real / budget as real + k as real / budget as real
    ensures n <= budget <==> n as real / budget as real <= 1.0
    ensures n >= budget <==> n as real / budget as real >= 1.0
    ensures 0.0 <= n as real / budget as real
    ensures n + k <= budget <==> (n + k) as real / budget as real <= 1.0
    ensures n + k >= budget <==> (n + k) as real / budget as real >= 1.0
  {
    Ratio(n, budget);
    Ratio(n + k, budget);
  }

  lemma Ratio(n: nat, budget: nat)
    requires budget > 0
    ensures 0.0 <= n as real / budget as real
    ensures n <= budget <==> n as real / budget as real <= 1.0
    ensures n >= budget <==> n as real / budget as real >= 1.0
  {
    Scaled(n as real / budget as real, budget as real, n as real);
    assert n <= budget <==> n as real <= budget as real;
    assert n >= budget <==> n as real >= budget as real;
  }

  lemma Scaled(q: real, b: real, x: real)
    requires b > 0.0 && q * b == x
    ensures (q < 1.0 <==> x < b) && (q > 1.0 <==> x > b) && (q < 0.0 <==> x < 0.0)
  {
    Positive(q, b);
    assert q * b - b == (q - 1.0) * b;
    Positive(q - 1.0, b);
  }

  lemma Positive(q: real, b: real)
    requires b > 0.0
    ensures (q < 0.0 <==> q * b < 0.0) && (q > 0.0 <==> q * b > 0.0)
  {
  }

  /** Success is worth half: a member that connects `s` times of `a` scores half of `s` in `a`
      above one that never does, and an untried one is taken to have succeeded. */
  lemma SuccessPays(cfg: Config, health: Option<Health>, m: Member, a: nat, s: nat)
    requires a > 0
    ensures Score(cfg, health, m.(attempts := a, successes := s))
            == Score(cfg, health, m.(attempts := a, successes := 0)) + 0.5 * (s as real / a as real)
    ensures Score(cfg, health, m.(attempts := 0)) == Score(cfg, health, m.(attempts := a, successes := a))
    ensures Score(cfg, health, m.(attempts := a, successes := 0))
            == Score(cfg, health, m.(attempts := 1, successes := 0))
  {
    assert a as real / a as real == 1.0;
    assert 0.0 / a as real == 0.0;
  }

  /** An untried member that answers at once and has never failed scores one; nothing but
      latency, failures and success is looked at. */
  lemma PerfectScore(cfg: Config, m: Member, alive: bool)
    requires m.attempts == m.failures == 0 && m.ewmaMs.None?
    ensures Score(cfg, Some(Health(alive, 0, 0)), m) == 1.0
  {
  }

  // ---- One pick ------------------------------------------------------------------------

  /** A pick as it happened: who was current, who was alive and not cooling, the scores at
      that moment, and the choice. */
  datatype Pick = Pick(previous: Option<nat>, available: seq<bool>, scores: seq<real>, chosen: nat)

  predicate AnyAvailable(p: Pick)
  {
    exists i :: 0 <= i < |p.available| && p.available[i]
  }

  /** Nobody available beats `i` by more than `margin`. */
  predicate Within(p: Pick, i: nat, margin: real)
    requires i < |p.scores| == |p.available|
  {
    forall j :: 0 <= j < |p.scores| && p.available[j] ==> p.scores[j] <= p.scores[i] + margin
  }

  /** The selection rule.  The current member, if available, is kept exactly when it is
      within the margin of the best; otherwise the choice is the first of the best; with
      nobody available it is the first configured member. */
  predicate Lawful(p: Pick, margin: real)
  {
    && |p.available| == |p.scores| && p.chosen < |p.scores|
    && (p.previous.Some? ==> p.previous.value < |p.scores|)
    && (forall i :: 0 <= i < |p.scores| ==> 0.0 <= p.scores[i] <= 1.0)
    && if !AnyAvailable(p) then p.chosen == 0
       else if p.previous.Some? && p.available[p.previous.value] && Within(p, p.previous.value, margin) then
         p.chosen == p.previous.value
       else
         && p.available[p.chosen] && Within(p, p.chosen, 0.0)
         && forall j :: 0 <= j < p.chosen && p.available[j] ==> p.scores[j] < p.scores[p.chosen]
  }

  /** The first of the highest scores among the available, if anyone is. */
  predicate IsBest(p: Pick, best: Option<nat>)
  {
    && |p.available| == |p.scores|
    && (best.None? <==> !AnyAvailable(p))
    && (best.Some? ==>
          && best.value < |p.scores| && p.available[best.value] && Within(p, best.value, 0.0)
          && forall j :: 0 <= j < best.value && p.available[j] ==> p.scores[j] < p.scores[best.value])
  }

  /** Comparing the current member with the best one alone decides as the rule does. */
  lemma RuleIsLawful(p: Pick, best: Option<nat>, margin: real)
    requires IsBest(p, best) && p.chosen < |p.scores|
    requires p.previous.Some? ==> p.previous.value < |p.scores|
    requires forall i :: 0 <= i < |p.scores| ==> 0.0 <= p.scores[i] <= 1.0
    requires p.chosen
             == if best.None? then 0
                else if p.previous.Some? && p.available[p.previous.value]
                        && p.scores[p.previous.value] + margin >= p.scores[best.value] then p.previous.value
                else best.value
    ensures Lawful(p, margin)
  {
    if best.Some? && p.previous.Some? {
      var c := p.previous.value;
      assert Within(p, c, margin) <==> p.scores[c] + margin >= p.scores[best.value] by {
        if p.scores[c] + margin >= p.scores[best.value] {
          forall j | 0 <= j < |p.scores| && p.available[j] ensures p.scores[j] <= p.scores[c] + margin {
          }
        }
      }
    }
  }

  /** With anyone available the choice is available and within the margin of the best. */
  lemma ChoiceIsGood(p: Pick, margin: real)
    requires Lawful(p, margin) && AnyAvailable(p)
    ensures p.available[p.chosen]
    ensures Within(p, p.chosen, if margin > 0.0 then margin else 0.0)
  {
    var m := if margin > 0.0 then margin else 0.0;
    forall j | 0 <= j < |p.scores| && p.available[j] ensures p.scores[j] <= p.scores[p.chosen] + m {
    }
  }

  // ---- Whole runs ------------------------------------------------------------------------

  /** A member that could have stayed was left for a better one. */
  predicate Voluntary(p: Pick)
  {
    && p.previous.Some? && p.previous.value < |p.available| && p.available[p.previous.value]
    && p.chosen != p.previous.value
  }

  predicate Forced(p: Pick)
  {
    && p.previous.Some? && p.previous.value < |p.available| && !p.available[p.previous.value]
    && p.chosen != p.previous.value
  }

  /** Picks of one balancer, each starting from the choice of the one before. */
  predicate Linked(picks: seq<Pick>, margin: real)
  {
    && (forall k :: 0 <= k < |picks| ==> Lawful(picks[k], margin))
    && (forall k :: 0 < k < |picks| ==> picks[k].previous == Some(picks[k - 1].chosen))
  }

  function VoluntarySwitches(picks: seq<Pick>): (n: nat)
  {
    if |picks| < 2 then 0
    else VoluntarySwitches(picks[..|picks| - 1]) + if Voluntary(picks[|picks| - 1]) then 1 else 0
  }

  function ForcedSwitches(picks: seq<Pick>): (n: nat)
  {
    if |picks| < 2 then 0
    else ForcedSwitches(picks[..|picks| - 1]) + if Forced(picks[|picks| - 1]) then 1 else 0
  }

  /** How far the current member's score fell between two picks. */
  function Fall(before: Pick, after: Pick): (d: real)
    requires before.chosen < |before.scores| && before.chosen < |after.scores|
  {
    var d := before.scores[before.chosen] - after.scores[before.chosen];
    if d > 0.0 then d else 0.0
  }

  ghost function Drift(picks: seq<Pick>, margin: real): (d: real)
    requires Linked(picks, margin)
  {
    if |picks| < 2 then 0.0
    else
      assert picks[|picks| - 1].previous == Some(picks[|picks| - 2].chosen);
      LinkedPrefix(picks, margin);
      Drift(picks[..|picks| - 1], margin) + Fall(picks[|picks| - 2], picks[|picks| - 1])
  }

  lemma LinkedPrefix(picks: seq<Pick>, margin: real)
    requires Linked(picks, margin) && picks != []
    ensures Linked(picks[..|picks| - 1], margin)
  {
  }

  lemma LinkedSnoc(picks: seq<Pick>, p: Pick, margin: real)
    requires Linked(picks, margin) && Lawful(p, margin)
    requires picks != [] ==> p.previous == Some(picks[|picks| - 1].chosen)
    ensures Linked(picks + [p], margin)
  {
  }

  /** What the last of two picks adds to the ledger. */
  function Entry(before: Pick, after: Pick, margin: real): (r: real)
    requires before.chosen < |before.scores| && before.chosen < |after.scores|
  {
    (if Voluntary(after) then margin else 0.0) - (if Forced(after) then 1.0 else 0.0) - Fall(before, after)
  }

  ghost function Ledger(picks: seq<Pick>, margin: real): (r: real)
    requires Linked(picks, margin)
  {
    if |picks| < 2 then 0.0
    else
      assert picks[|picks| - 1].previous == Some(picks[|picks| - 2].chosen);
      LinkedPrefix(picks, margin);
      Ledger(picks[..|picks| - 1], margin) + Entry(picks[|picks| - 2], picks[|picks| - 1], margin)
  }

  /** The score of the member chosen last is at least the balance of the ledger. */
  lemma {:induction false} ScoreLedger(picks: seq<Pick>, margin: real)
    requires Linked(picks, margin) && picks != []
    ensures var last := picks[|picks| - 1]; last.scores[last.chosen] >= Ledger(picks, margin)
  {
    var last := picks[|picks| - 1];
    assert Lawful(last, margin);
    if |picks| > 1 {
      var head := picks[..|picks| - 1];
      var prev := picks[|picks| - 2];
      LinkedPrefix(picks, margin);
      ScoreLedger(head, margin);
      assert head[|head| - 1] == prev;
      assert Lawful(prev, margin) && last.previous == Some(prev.chosen);
      SwitchGain(prev, last, margin);
    }
  }

  function Repeated(n: nat, margin: real): (r: real)
  {
    if n == 0 then 0.0 else Repeated(n - 1, margin) + margin
  }

  lemma {:induction false} RepeatedIsProduct(n: nat, margin: real)
    ensures Repeated(n, margin) == n as real * margin
  {
    if n > 0 {
      RepeatedIsProduct(n - 1, margin);
    }
  }

  /** The balance: the margin for every voluntary switch, less forced switches and drift. */
  lemma {:induction false} LedgerBalance(picks: seq<Pick>, margin: real)
    requires Linked(picks, margin)
    ensures Ledger(picks, margin)
            == Repeated(VoluntarySwitches(picks), margin) - ForcedSwitches(picks) as real - Drift(picks, margin)
  {
    if |picks| > 1 {
      LinkedPrefix(picks, margin);
      LedgerBalance(picks[..|picks| - 1], margin);
      assert picks[|picks| - 1].previous == Some(picks[|picks| - 2].chosen);
    }
  }

  /** One pick's share of the ledger. */
  lemma SwitchGain(prev: Pick, last: Pick, margin: real)
    requires Lawful(prev, margin) && Lawful(last, margin) && last.previous == Some(prev.chosen)
    ensures last.scores[last.chosen] >= prev.scores[prev.chosen] + Entry(prev, last, margin)
  {
    if Voluntary(last) {
      assert !Within(last, prev.chosen, margin);
      var j :| 0 <= j < |last.scores| && last.available[j] && last.scores[j] > last.scores[prev.chosen] + margin;
      assert last.scores[j] <= last.scores[last.chosen] + 0.0;
    }
  }

  lemma {:induction false} BalanceIsBounded(picks: seq<Pick>, margin: real)
    requires Linked(picks, margin)
    ensures Repeated(VoluntarySwitches(picks), margin) <= 1.0 + ForcedSwitches(picks) as real + Drift(picks, margin)
  {
    if picks != [] {
      ScoreLedger(picks, margin);
      LedgerBalance(picks, margin);
      assert Lawful(picks[|picks| - 1], margin);
    }
  }

  /** Voluntary switches times the margin are at most one, plus the forced switches, plus
      how far the current member's score fell between picks. */
  ghost predicate Steady(picks: seq<Pick>, margin: real)
    requires Linked(picks, margin)
  {
    VoluntarySwitches(picks) as real * margin <= 1.0 + ForcedSwitches(picks) as real + Drift(picks, margin)
  }

  /** Over any run of picks, whatever health reports and connect results came between. */
  lemma {:induction false} AntiFlapping(picks: seq<Pick>, margin: real)
    requires Linked(picks, margin)
    ensures Steady(picks, margin)
  {
    BalanceIsBounded(picks, margin);
    RepeatedIsProduct(VoluntarySwitches(picks), margin);
  }

  // ---- Smoothing ---------------------------------------------------------------------------

  function Smooth(alpha: real, sample: real, prev: Option<real>): (r: real)
  {
    var a := Clamp(alpha, 0.01, 1.0);
    if prev.Some? then a * sample + (1.0 - a) * prev.value else sample
  }

  lemma Blend(a: real, x: real, y: real, lo: real, hi: real)
    requires 0.0 <= a <= 1.0 && lo <= x <= hi && lo <= y <= hi
    ensures lo <= a * x + (1.0 - a) * y <= hi
  {
    Product(a, x - lo);
    Product(1.0 - a, y - lo);
    Product(a, hi - x);
    Product(1.0 - a, hi - y);
  }

  lemma Product(a: real, b: real)
    requires a >= 0.0 && b >= 0.0
    ensures a * b >= 0.0
  {
  }

  /** A smoothed value never leaves the range of its samples. */
  lemma SmoothStaysInRange(alpha: real, sample: real, prev: Option<real>, lo: real, hi: real)
    requires lo <= sample <= hi && (prev.Some? ==> lo <= prev.value <= hi)
    ensures lo <= Smooth(alpha, sample, prev) <= hi
  {
    if prev.Some? {
      Blend(Clamp(alpha, 0.01, 1.0), sample, prev.value, lo, hi);
    }
  }

  /** The value lies between two of the samples it was smoothed from. */
  predicate Between(samples: seq<real>, v: real)
  {
    exists i, j :: 0 <= i < |samples| && 0 <= j < |samples| && samples[i] <= v <= samples[j]
  }

  predicate Tracks(m: Member, samples: seq<real>)
  {
    && m.successes <= m.attempts
    && m.successes == |samples|
    && (m.ewmaMs.Some? <==> samples != [])
    && (m.ewmaMs.Some? ==> Between(samples, m.ewmaMs.value))
  }

  /** A connect result as a member records it. */
  function Observed(cfg: Config, m: Member, elapsedMs: real, ok: bool, now: int): (r: Member)
  {
    if ok then
      Member(m.attempts + 1, m.successes + 1, 0, Some(Smooth(cfg.ewmaAlpha, elapsedMs, m.ewmaMs)), m.cooldownUntil)
    else
      Member(m.attempts + 1, m.successes, m.failures + 1, m.ewmaMs,
             if m.failures + 1 >= cfg.failureThreshold then Some(now + cfg.cooldown) else m.cooldownUntil)
  }

  /** Every connect result keeps successes within attempts, and the smoothed latency
      between the smallest and the largest sample. */
  lemma ObservedTracks(cfg: Config, m: Member, samples: seq<real>, elapsedMs: real, ok: bool, now: int)
    requires Tracks(m, samples)
    ensures Tracks(Observed(cfg, m, elapsedMs, ok, now), if ok then samples + [elapsedMs] else samples)
  {
    if ok {
      var more := samples + [elapsedMs];
      var n := |samples|;
      assert more[n] == elapsedMs;
      if m.ewmaMs.Some? {
        var i, j :| 0 <= i < n && 0 <= j < n && samples[i] <= m.ewmaMs.value <= samples[j];
        var lo := if samples[i] <= elapsedMs then i else n;
        var hi := if samples[j] >= elapsedMs then j else n;
        assert more[i] == samples[i] && more[j] == samples[j];
        SmoothStaysInRange(cfg.ewmaAlpha, elapsedMs, m.ewmaMs, more[lo], more[hi]);
      }
    }
  }

  /** Smoothing goes a part of the way from the value before to the sample: the part `alpha`,
      but at least a hundredth and at most all of it; a first sample is taken as it is. */
  lemma SmoothingStep(alpha: real, sample: real, prev: real)
    ensures Smooth(alpha, sample, None) == sample
    ensures 0.01 <= alpha <= 1.0 ==> Smooth(alpha, sample, Some(prev)) - prev == alpha * (sample - prev)
    ensures alpha >= 1.0 ==> Smooth(alpha, sample, Some(prev)) == sample
    ensures alpha <= 0.01 ==> Smooth(alpha, sample, Some(prev)) - prev == (sample - prev) / 100.0
  {
    var a := Clamp(alpha, 0.01, 1.0);
    assert a * sample + (1.0 - a) * prev - prev == a * (sample - prev);
  }

  /** A connect result: whether it succeeded, how long it took, and when it came. */
  datatype Attempt = Attempt(ok: bool, elapsedMs: real, at: int)

  /** What a member, untried before, records of a history. */
  function Replayed(cfg: Config, history: seq<Attempt>): (m: Member)
  {
    if history == [] then Member(0, 0, 0, None, None)
    else
      var last := history[|history| - 1];
      Observed(cfg, Replayed(cfg, history[..|history| - 1]), last.elapsedMs, last.ok, last.at)
  }

  function Succeeded(history: seq<Attempt>): (n: nat)
  {
    if history == [] then 0
    else Succeeded(history[..|history| - 1]) + if history[|history| - 1].ok then 1 else 0
  }

  /** Failures since the last success. */
  function FailedLately(history: seq<Attempt>): (n: nat)
    ensures n <= |history|
    ensures forall i :: |history| - n <= i < |history| ==> !history[i].ok
    ensures n < |history| ==> history[|history| - n - 1].ok
  {
    if history == [] || history[|history| - 1].ok then 0 else FailedLately(history[..|history| - 1]) + 1
  }

  /** Attempt `k` failed, and with it as many in a row as the threshold. */
  predicate Trips(cfg: Config, history: seq<Attempt>, k: nat)
  {
    k < |history| && !history[k].ok && FailedLately(history[..k + 1]) >= cfg.failureThreshold
  }

  /** Counters and cooldown, read off the history: attempts, successes, failures in a row, and
      the cooldown that the last attempt to reach the threshold began. */
  lemma {:induction false} HistoryTells(cfg: Config, history: seq<Attempt>)
    ensures var m := Replayed(cfg, history);
            && m.attempts == |history| && m.successes == Succeeded(history) && m.failures == FailedLately(history)
            && (m.cooldownUntil.None? <==> forall k: nat :: !Trips(cfg, history, k))
            && (m.cooldownUntil.Some? ==>
                  exists k: nat :: LastTrip(cfg, history, k) && m.cooldownUntil.value == history[k].at + cfg.cooldown)
  {
    if history != [] {
      var n := |history| - 1;
      var head := history[..n];
      HistoryTells(cfg, head);
      TripsSoFar(cfg, history);
      var m := Replayed(cfg, history);
      if Trips(cfg, history, n) {
        assert LastTrip(cfg, history, n);
      } else if m.cooldownUntil.Some? {
        var k: nat :| LastTrip(cfg, head, k) && m.cooldownUntil.value == head[k].at + cfg.cooldown;
        assert LastTrip(cfg, history, k);
      }
    }
  }

  lemma TripsSoFar(cfg: Config, history: seq<Attempt>)
    requires history != []
    ensures var n := |history| - 1;
            && (Trips(cfg, history, n) <==> !history[n].ok && FailedLately(history) >= cfg.failureThreshold)
            && forall k: nat ::
                 Trips(cfg, history, k) <==> Trips(cfg, history[..n], k) || (k == n && Trips(cfg, history, n))
  {
    var n := |history| - 1;
    assert history[..n + 1] == history;
    forall k: nat
      ensures Trips(cfg, history, k) <==> Trips(cfg, history[..n], k) || (k == n && Trips(cfg, history, n))
    {
      if k < n {
        assert history[..n][..k + 1] == history[..k + 1];
      }
    }
  }

  predicate LastTrip(cfg: Config, history: seq<Attempt>, k: nat)
  {
    Trips(cfg, history, k) && forall j :: k < j < |history| ==> !Trips(cfg, history, j)
  }

  /** A member is passed over while its cooldown lasts, to the very end of it and no longer. */
  lemma CoolsExactly(health: Option<Health>, m: Member, until: int, now: int)
    ensures !Usable(health, m.(cooldownUntil := Some(until)), now)
            <==> now < until || (health.Some? && !health.value.alive)
    ensures !Usable(health, m.(cooldownUntil := None), now) <==> health.Some? && !health.value.alive
  {
  }

  /** A member that a probe has just seen fail often enough, and that is not cooling. */
  predicate Chilled(cfg: Config, health: Option<Health>, m: Member, now: int)
  {
    (if health.Some? then health.value.failures else 0) >= cfg.failureThreshold && !Cooling(m, now)
  }

  function Known(tag: string, health: map<string, Health>): (r: Option<Health>)
  {
    if tag in health then Some(health[tag]) else None
  }

  /** Alive and not cooling; an outbound no probe has reported on counts as alive. */
  predicate Usable(health: Option<Health>, m: Member, now: int)
  {
    (health.Some? ==> health.value.alive) && !Cooling(m, now)
  }

  function Snapshot(cfg: Config, tags: seq<string>, health: map<string, Health>, members: seq<Member>, now: int,
                    previous: Option<nat>, chosen: nat): (p: Pick)
    requires |tags| == |members|
  {
    Pick(previous,
         seq(|tags|, i requires 0 <= i < |tags| => Usable(Known(tags[i], health), members[i], now)),
         seq(|tags|, i requires 0 <= i < |tags| => Score(cfg, Known(tags[i], health), members[i])), chosen)
  }

  /** A first pick among untried members that probes found alive and without failures is one of
      the fastest, as far as the first five seconds tell. */
  lemma FastestWins(cfg: Config, tags: seq<string>, health: map<string, Health>, now: int, chosen: nat, i: nat)
    requires var members := seq(|tags|, _ => Member(0, 0, 0, None, None));
             Lawful(Snapshot(cfg, tags, health, members, now, None, chosen), cfg.switchMargin)
    requires forall k :: 0 <= k < |tags| ==> tags[k] in health && health[tags[k]].alive && health[tags[k]].failures == 0
    requires i < |tags|
    ensures chosen < |tags|
    ensures health[tags[chosen]].latencyMs <= health[tags[i]].latencyMs || health[tags[i]].latencyMs >= 5000
  {
    var untried := Member(0, 0, 0, None, None);
    var members := seq(|tags|, _ => untried);
    var p := Snapshot(cfg, tags, health, members, now, None, chosen);
    assert p.available[i];
    assert Within(p, chosen, 0.0);
    var fast, slow := health[tags[i]], health[tags[chosen]];
    assert p.scores[i] == Score(cfg, Some(fast), untried) && p.scores[chosen] == Score(cfg, Some(slow), untried);
    if fast.latencyMs < slow.latencyMs && fast.latencyMs < 5000 {
      FasterScoresMore(cfg, fast, slow, untried);
    }
  }

  lemma FasterScoresMore(cfg: Config, fast: Health, slow: Health, m: Member)
    requires fast.latencyMs < slow.latencyMs && fast.latencyMs < 5000 && fast.failures == slow.failures
    requires m.ewmaMs.None?
    ensures Score(cfg, Some(fast), m) > Score(cfg, Some(slow), m)
  {
    LatencyUsed(cfg, fast, m, 0);
    LatencyUsed(cfg, slow, m, 0);
    var x, y := fast.latencyMs as real, slow.latencyMs as real;
    LatencyCosts(cfg, Some(fast), m, x, if y < 5000.0 then y else 5000.0);
    LatencyCosts(cfg, Some(fast), m, if y < 5000.0 then 5000.0 else y, 5000.0);
  }

  /** A member after the probe cooldowns. */
  function Cooled(cfg: Config, health: Option<Health>, m: Member, now: int): (r: Member)
  {
    if Chilled(cfg, health, m, now) then m.(cooldownUntil := Some(now + cfg.cooldown)) else m
  }

  /** A probe round that counts as many failures as the threshold starts a cooldown from now on,
      unless one is running; and otherwise leaves the member alone. */
  lemma ProbeCools(cfg: Config, h: Health, m: Member, now: int, t: int)
    ensures var r := Cooled(cfg, Some(h), m, now);
            if h.failures >= cfg.failureThreshold && (m.cooldownUntil.None? || m.cooldownUntil.value <= now) then
              (Cooling(r, t) <==> t < now + cfg.cooldown) && r.(cooldownUntil := m.cooldownUntil) == m
            else r == m
    ensures cfg.failureThreshold > 0 ==> Cooled(cfg, None, m, now) == m
  {
  }

  class Balancer {
    const tags: seq<string>
    const cfg: Config
    var health: map<string, Health>
    var members: seq<Member>
    var current: Option<nat>
    ghost var samples: seq<seq<real>>
    ghost var picks: seq<Pick>

    ghost predicate Valid()
      reads this
    {
      && |members| == |tags| == |samples|
      && (forall i :: 0 <= i < |members| ==> Tracks(members[i], samples[i]))
      && Linked(picks, cfg.switchMargin)
      && (current.Some? ==> current.value < |members|)
      && current == (if picks == [] then None else Some(picks[|picks| - 1].chosen))
    }

    constructor (tags: seq<string>, cfg: Config)
      ensures Valid() && this.tags == tags && this.cfg == cfg && picks == [] && current == None
    {
      this.tags, this.cfg := tags, cfg;
      health := map[];
      members := seq(|tags|, _ => Member(0, 0, 0, None, None));
      samples := seq(|tags|, _ => []);
      current, picks := None, [];
    }

    function HealthOf(i: nat): (r: Option<Health>)
      requires i < |tags|
      reads this`health
    {
      Known(tags[i], health)
    }

    predicate Available(i: nat, now: int)
      requires i < |tags| == |members|
      reads this`health, this`members
    {
      Usable(HealthOf(i), members[i], now)
    }

    function ScoreOf(i: nat): (r: real)
      requires i < |tags| == |members|
      reads this`health, this`members
    {
      Score(cfg, HealthOf(i), members[i])
    }

    /** A probe round replaces what is known about the outbounds. */
    method Probe(reported: map<string, Health>)
      requires Valid()
      modifies this`health
      ensures Valid() && health == reported
    {
      health := reported;
    }

    method ApplyProbeCooldowns(now: int) returns (chilled: seq<nat>)
      requires Valid()
      modifies this`members
      ensures Valid()
      ensures forall i :: 0 <= i < |tags| ==> members[i] == Cooled(cfg, HealthOf(i), old(members[i]), now)
      ensures forall i: nat :: i in chilled <==> i < |tags| && Chilled(cfg, HealthOf(i), old(members[i]), now)
      ensures forall a, b :: 0 <= a < b < |chilled| ==> chilled[a] < chilled[b]
    {
      chilled := [];
      var idx := 0;
      while idx < |tags|
        invariant 0 <= idx <= |tags| == |members|
        invariant forall i :: idx <= i < |tags| ==> members[i] == old(members)[i]
        invariant forall i :: 0 <= i < idx ==> members[i] == Cooled(cfg, HealthOf(i), old(members)[i], now)
        invariant forall i: nat :: i in chilled <==> i < idx && Chilled(cfg, HealthOf(i), old(members)[i], now)
        invariant forall a :: 0 <= a < |chilled| ==> chilled[a] < idx
        invariant forall a, b :: 0 <= a < b < |chilled| ==> chilled[a] < chilled[b]
      {
        var failures := if HealthOf(idx).Some? then HealthOf(idx).value.failures else 0;
        if failures >= cfg.failureThreshold && !Cooling(members[idx], now) {
          members := members[idx := members[idx].(cooldownUntil := Some(now + cfg.cooldown))];
          chilled := chilled + [idx];
        }
        idx := idx + 1;
      }
    }

    /** The pick as a record of this moment. */
    ghost function Record(now: int, previous: Option<nat>, chosen: nat): (p: Pick)
      requires |tags| == |members|
      reads this`health, this`members
    {
      Snapshot(cfg, tags, health, members, now, previous, chosen)
    }

    /** The scan for the best available member: the first of the highest scores. */
    method BestAvailable(now: int) returns (best: Option<nat>)
      requires Valid()
      ensures best.Some? ==> best.value < |tags|
      ensures forall previous, chosen :: IsBest(Record(now, previous, chosen), best)
    {
      best := None;
      var idx := 0;
      while idx < |tags|
        invariant 0 <= idx <= |tags|
        invariant best.None? <==> forall i :: 0 <= i < idx ==> !Available(i, now)
        invariant best.Some? ==>
                    && best.value < idx && Available(best.value, now)
                    && (forall i :: 0 <= i < idx && Available(i, now) ==> ScoreOf(i) <= ScoreOf(best.value))
                    && (forall i :: 0 <= i < best.value && Available(i, now) ==> ScoreOf(i) < ScoreOf(best.value))
      {
        if Available(idx, now) && (best.None? || ScoreOf(idx) > ScoreOf(best.value)) {
          best := Some(idx);
        }
        idx := idx + 1;
      }
      forall previous, chosen ensures IsBest(Record(now, previous, chosen), best) {
        ScanIsBest(now, previous, chosen, best);
      }
    }

    lemma ScanIsBest(now: int, previous: Option<nat>, chosen: nat, best: Option<nat>)
      requires |tags| == |members|
      requires best.None? <==> forall i :: 0 <= i < |tags| ==> !Available(i, now)
      requires best.Some? ==>
                && best.value < |tags| && Available(best.value, now)
                && (forall i :: 0 <= i < |tags| && Available(i, now) ==> ScoreOf(i) <= ScoreOf(best.value))
                && (forall i :: 0 <= i < best.value && Available(i, now) ==> ScoreOf(i) < ScoreOf(best.value))
      ensures IsBest(Record(now, previous, chosen), best)
    {
      var p := Record(now, previous, chosen);
      assert forall i :: 0 <= i < |tags| ==> p.available[i] == Available(i, now) && p.scores[i] == ScoreOf(i);
    }

    /** If anyone is alive and not cooling, so is the choice, and its score is within the
        margin of the best of them; otherwise the choice is the first configured member. */
    ghost predicate GoodChoice(now: int, chosen: nat)
      requires |tags| == |members|
      reads this`health, this`members
    {
      && chosen < |tags|
      && if forall i :: 0 <= i < |tags| ==> !Available(i, now) then chosen == 0
         else
           && Available(chosen, now)
           && forall i :: 0 <= i < |tags| && Available(i, now) ==>
                ScoreOf(i) <= ScoreOf(chosen) + if cfg.switchMargin > 0.0 then cfg.switchMargin else 0.0
    }

    lemma LawfulIsGood(now: int, previous: Option<nat>, chosen: nat)
      requires |tags| == |members| && Lawful(Record(now, previous, chosen), cfg.switchMargin)
      ensures GoodChoice(now, chosen)
    {
      var p := Record(now, previous, chosen);
      assert forall i :: 0 <= i < |tags| ==> p.available[i] == Available(i, now) && p.scores[i] == ScoreOf(i);
      if AnyAvailable(p) {
        ChoiceIsGood(p, cfg.switchMargin);
      }
    }

    /** One pick: the probe cooldowns and nothing else befall the members; then the scan and
        the choice, recorded as it happened. */
    method PickAdaptive(now: int) returns (r: Option<nat>)
      requires Valid()
      modifies this`members, this`current, this`picks
      ensures Valid()
      ensures forall i :: 0 <= i < |tags| ==> members[i] == Cooled(cfg, HealthOf(i), old(members[i]), now)
      ensures tags != [] ==> r.Some? && GoodChoice(now, r.value)
      ensures tags == [] ==> r == None && picks == old(picks)
      ensures tags != [] ==>
                && r.Some? && r.value < |tags| && current == r
                && picks == old(picks) + [Record(now, old(current), r.value)]
    {
      var _ := ApplyProbeCooldowns(now);
      var selected := Select(now);
      if selected < |members| {
        Commit(now, selected);
        r := Some(selected);
      } else {
        r := None;
      }
    }

    /** The choice becomes the current member. */
    method Commit(now: int, selected: nat)
      requires Valid() && selected < |tags| && Lawful(Record(now, current, selected), cfg.switchMargin)
      modifies this`current, this`picks
      ensures Valid() && current == Some(selected)
      ensures picks == old(picks) + [Record(now, old(current), selected)]
    {
      LinkedSnoc(picks, Record(now, current, selected), cfg.switchMargin);
      picks := picks + [Record(now, current, selected)];
      current := Some(selected);
    }

    method Select(now: int) returns (selected: nat)
      requires Valid()
      ensures tags == [] ==> selected == 0
      ensures tags != [] ==> selected < |tags| && Lawful(Record(now, current, selected), cfg.switchMargin)
      ensures tags != [] ==> GoodChoice(now, selected)
    {
      var best := BestAvailable(now);
      selected := 0;
      if best.Some? {
        selected := best.value;
        if current.Some? && Available(current.value, now)
           && ScoreOf(current.value) + cfg.switchMargin >= ScoreOf(best.value)
        {
          selected := current.value;
        }
      }
      if tags != [] {
        RecordIsLawful(now, best, selected);
        LawfulIsGood(now, current, selected);
      }
    }

    lemma RecordIsLawful(now: int, best: Option<nat>, selected: nat)
      requires Valid() && selected < |tags|
      requires IsBest(Record(now, current, selected), best)
      requires selected
               == if best.None? then 0
                  else if current.Some? && Available(current.value, now)
                          && ScoreOf(current.value) + cfg.switchMargin >= ScoreOf(best.value) then current.value
                  else best.value
      ensures Lawful(Record(now, current, selected), cfg.switchMargin)
    {
      var p := Record(now, current, selected);
      forall i | 0 <= i < |p.scores| ensures 0.0 <= p.scores[i] <= 1.0 {
        ScoreInUnit(cfg, HealthOf(i), members[i]);
      }
      RuleIsLawful(p, best, cfg.switchMargin);
    }

    /** A connect result for a member; an unknown index is ignored. */
    method ObserveConnectResult(idx: nat, elapsedMs: real, ok: bool, now: int)
      requires Valid()
      modifies this`members, this`samples
      ensures Valid()
      ensures idx >= |tags| ==> members == old(members) && samples == old(samples)
      ensures idx < |tags| ==>
                && members == old(members)[idx := Observed(cfg, old(members)[idx], elapsedMs, ok, now)]
                && samples == if ok then old(samples)[idx := old(samples)[idx] + [elapsedMs]] else old(samples)
    {
      if idx >= |members| {
        return;
      }
      ObservedTracks(cfg, members[idx], samples[idx], elapsedMs, ok, now);
      var m := members[idx];
      m := m.(attempts := m.attempts + 1);
      if ok {
        var smoothed := Smooth(cfg.ewmaAlpha, elapsedMs, m.ewmaMs);
        m := m.(successes := m.successes + 1, failures := 0, ewmaMs := Some(smoothed));
        samples := samples[idx := samples[idx] + [elapsedMs]];
      } else {
        m := m.(failures := m.failures + 1);
        if m.failures >= cfg.failureThreshold {
          m := m.(cooldownUntil := Some(now + cfg.cooldown));
        }
      }
      members := members[idx := m];
    }

    /** Whatever calls brought the balancer here, its picks never flapped more than this. */
    lemma NeverFlaps()
      requires Valid()
      ensures Steady(picks, cfg.switchMargin)
    {
      AntiFlapping(picks, cfg.switchMargin);
    }
  }
}
