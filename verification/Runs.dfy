/**
 What every run of the main loop satisfies: events name the current decision, they keep
 their distance, and their rate is bounded.
 */
module Runs {
  import opened Basics
  import opened Streaks
  import opened MainLoop

  /** Config validation keeps these durations from being negative. */
  ghost predicate Sane(cfg: Config) {
    cfg.openHoldMs >= 0 && cfg.deniedCooldownMs >= 0 && cfg.faceStabilizationMs >= 0
  }

  lemma FollowsPrefix(cfg: Config, passes: seq<Pass>, log: seq<Reaction>, n: nat)
    requires Follows(cfg, passes, log) && n <= |log|
    ensures Follows(cfg, passes, log[..n])
  {
    forall i | 0 <= i < n ensures ReactsAsExpected(cfg, passes, log[..n], i) {
      assert log[..n][..i] == log[..i] && ReactsAsExpected(cfg, passes, log, i);
    }
  }

  /** A pass that reached the matcher saw a face, and an event says what the matcher said. */
  lemma EventsReportTheirPass(cfg: Config, passes: seq<Pass>, log: seq<Reaction>, i: nat)
    requires Follows(cfg, passes, log) && i < |log| && log[i].Processed()
    ensures passes[i].sight.Face?
    ensures log[i].Emitted? ==> log[i].event == EventOf(passes[i])
    ensures log[i].Emitted? <==> EventIsDue(cfg, passes, log[..i])
  {
    assert ReactsAsExpected(cfg, passes, log, i);
  }

  lemma EventStaysCurrent(cfg: Config, passes: seq<Pass>, hist: seq<Reaction>, r: Reaction)
    requires |hist| < |passes| && LatestEventIsCurrent(passes, hist) && r == Expected(cfg, passes, hist)
    ensures LatestEventIsCurrent(passes, hist + [r])
  {
    HistoryGrows(hist, r);
    if r.Emitted? {
      assert (hist + [r])[|hist|] == r;
    }
  }

  /**
   The newest event always names the decision of the newest match, whether or not that
   match was announced.
   */
  lemma {:induction false} NewestEventNamesTheDecision(cfg: Config, passes: seq<Pass>, log: seq<Reaction>)
    requires Follows(cfg, passes, log)
    ensures LatestEventIsCurrent(passes, log)
  {
    if log == [] {
    } else {
      var hist := log[..|log| - 1];
      FollowsPrefix(cfg, passes, log, |hist|);
      NewestEventNamesTheDecision(cfg, passes, hist);
      assert ReactsAsExpected(cfg, passes, log, |hist|);
      EventStaysCurrent(cfg, passes, hist, log[|hist|]);
      assert log == hist + [log[|hist|]];
    }
  }

  lemma {:induction false} LastEmittedIsLatest(hist: seq<Reaction>, k: nat)
    requires k < |hist| && hist[k].Emitted?
    ensures LastEmitted(hist) >= k
  {
    if k == |hist| - 1 || hist[|hist| - 1].Emitted? {
    } else {
      LastEmittedIsLatest(hist[..|hist| - 1], k);
    }
  }

  /** Nothing is captured inside the window of any earlier event, not only of the newest. */
  lemma {:induction false} NothingInsideAnyWindow(cfg: Config, passes: seq<Pass>, log: seq<Reaction>, j: nat, i: nat)
    requires Sane(cfg) && ClockRuns(passes) && Follows(cfg, passes, log)
    requires j < i < |log| && log[j].Emitted? && !log[i].Gated?
    ensures passes[i].start >= passes[j].GatedAt() + cfg.Hold(log[j].event.status)
  {
    var e := LastEmitted(log[..i]);
    LastEmittedIsLatest(log[..i], j);
    assert ReactsAsExpected(cfg, passes, log, i);
    if e != j {
      assert ReactsAsExpected(cfg, passes, log, e);
      NothingInsideAnyWindow(cfg, passes, log, j, e);
      EventsReportTheirPass(cfg, passes, log, e);
      assert passes[e].Ordered();
    }
  }

  ghost predicate LaterAreAtLeast(sofar: seq<Time>, all: seq<Time>, bound: int) {
    sofar <= all && forall k | |sofar| <= k < |all| :: all[k] >= bound
  }

  lemma OneMoreDetection(passes: seq<Pass>, hist: seq<Reaction>, r: Reaction, sofar: seq<Time>, bound: int)
    requires |hist| < |passes|
    requires LaterAreAtLeast(sofar, DetectionTimes(passes, hist), bound)
    requires !r.Gated? ==> passes[|hist|].DetectedAt() >= bound
    ensures LaterAreAtLeast(sofar, DetectionTimes(passes, hist + [r]), bound)
  {
    DetectionsGrow(passes, hist, r);
  }

  /** Detections after event j come after its window. */
  lemma {:induction false} DetectionsSplitAtWindow(cfg: Config, passes: seq<Pass>, log: seq<Reaction>, j: nat, i: nat)
    requires Sane(cfg) && ClockRuns(passes) && Follows(cfg, passes, log)
    requires j < i <= |log| && log[j].Emitted?
    ensures LaterAreAtLeast(DetectionTimes(passes, log[..j + 1]), DetectionTimes(passes, log[..i]),
                            passes[j].GatedAt() + cfg.Hold(log[j].event.status))
  {
    if i == j + 1 {
    } else {
      var bound := passes[j].GatedAt() + cfg.Hold(log[j].event.status);
      DetectionsSplitAtWindow(cfg, passes, log, j, i - 1);
      if !log[i - 1].Gated? {
        NothingInsideAnyWindow(cfg, passes, log, j, i - 1);
        assert passes[i - 1].Ordered();
      }
      OneMoreDetection(passes, log[..i - 1], log[i - 1], DetectionTimes(passes, log[..j + 1]), bound);
      assert log[..i - 1] + [log[i - 1]] == log[..i];
    }
  }

  /**
   Two events are at least the first one's hold apart. If that hold outlasts the streak
   grace, the second one also had to earn its stabilisation after the window.
   */
  lemma EventsKeepTheirDistance(cfg: Config, passes: seq<Pass>, log: seq<Reaction>, j: nat, i: nat)
    requires Sane(cfg) && ClockRuns(passes) && Follows(cfg, passes, log)
    requires j < i < |log| && log[j].Emitted? && log[i].Processed()
    ensures var hold := cfg.Hold(log[j].event.status);
            passes[i].Current() - passes[j].Current() >=
            hold + (if hold > STREAK_GAP_GRACE then cfg.Stabilization() else 0)
  {
    var hold := cfg.Hold(log[j].event.status);
    NothingInsideAnyWindow(cfg, passes, log, j, i);
    EventsReportTheirPass(cfg, passes, log, j);
    EventsReportTheirPass(cfg, passes, log, i);
    assert passes[i].Ordered() && passes[j].Ordered();
    if hold > STREAK_GAP_GRACE {
      StabilizesAfterWindow(cfg, passes, log, j, i);
    }
  }

  lemma StabilizesAfterWindow(cfg: Config, passes: seq<Pass>, log: seq<Reaction>, j: nat, i: nat)
    requires Sane(cfg) && ClockRuns(passes) && Follows(cfg, passes, log)
    requires j < i < |log| && log[j].Emitted? && log[i].Processed()
    requires cfg.Hold(log[j].event.status) > STREAK_GAP_GRACE
    ensures passes[i].DetectedAt() >=
            passes[j].GatedAt() + cfg.Hold(log[j].event.status) + cfg.Stabilization()
  {
    var sofar, before := DetectionTimes(passes, log[..j + 1]), DetectionTimes(passes, log[..i]);
    var ts := before + [passes[i].DetectedAt()];
    assert ReactsAsExpected(cfg, passes, log, i);
    EventIsLastDetection(cfg, passes, log, j);
    DetectionsSplitAtWindow(cfg, passes, log, j, i);
    NothingInsideAnyWindow(cfg, passes, log, j, i);
    assert passes[i].Ordered() && passes[j].Ordered();
    AscendingWithNext(passes, log[..i]);
    EventsReportTheirPass(cfg, passes, log, j);
    assert ts[|sofar| - 1] == sofar[|sofar| - 1];
    StableAfterSilence(cfg.Stabilization(), ts, |sofar|);
  }

  lemma EventIsLastDetection(cfg: Config, passes: seq<Pass>, log: seq<Reaction>, j: nat)
    requires Follows(cfg, passes, log) && j < |log| && log[j].Emitted?
    ensures var sofar := DetectionTimes(passes, log[..j + 1]);
            sofar != [] && sofar[|sofar| - 1] == passes[j].DetectedAt()
  {
    EventsReportTheirPass(cfg, passes, log, j);
    assert log[..j + 1] == log[..j] + [log[j]];
    DetectionsGrow(passes, log[..j], log[j]);
  }

  // ---------------------------------------------------------------------------
  // Rate.

  /** The decision times of the events that fall inside [from, till]. */
  ghost function EventTimes(passes: seq<Pass>, log: seq<Reaction>, from: int, till: int): seq<Time>
    requires |log| <= |passes|
  {
    if log == [] then [] else
    var n := |log| - 1;
    EventTimes(passes, log[..n], from, till) +
    (if log[n].Emitted? && from <= passes[n].Current() <= till then [passes[n].Current()] else [])
  }

  /** The least distance between two events. */
  function LeastGap(cfg: Config): int {
    Min(cfg.OpenHold(), cfg.DeniedCooldown()) + cfg.Stabilization()
  }

  ghost predicate Apart(ts: seq<Time>, gap: int) {
    forall a, b | 0 <= a < b < |ts| :: ts[b] - ts[a] >= gap
  }

  /** Every time in the list is the time of some event, and lies inside [from, till]. */
  ghost predicate TimesOfEvents(passes: seq<Pass>, log: seq<Reaction>, ts: seq<Time>, from: int, till: int)
    requires |log| <= |passes|
  {
    forall k | 0 <= k < |ts| ::
      from <= ts[k] <= till && exists j :: EventAt(passes, log, j, ts[k])
  }

  ghost predicate EventAt(passes: seq<Pass>, log: seq<Reaction>, j: int, t: Time)
    requires |log| <= |passes|
  {
    0 <= j < |log| && log[j].Emitted? && passes[j].Current() == t
  }

  lemma {:induction false} EventTimesAreEvents(passes: seq<Pass>, log: seq<Reaction>, from: int, till: int)
    requires |log| <= |passes|
    ensures TimesOfEvents(passes, log, EventTimes(passes, log, from, till), from, till)
  {
    if log == [] {
    } else {
      var n := |log| - 1;
      var before := EventTimes(passes, log[..n], from, till);
      EventTimesAreEvents(passes, log[..n], from, till);
      forall k | 0 <= k < |before|
        ensures exists j :: EventAt(passes, log, j, before[k])
      {
        var j :| EventAt(passes, log[..n], j, before[k]);
        assert EventAt(passes, log, j, before[k]);
      }
      assert log[n].Emitted? ==> EventAt(passes, log, n, passes[n].Current());
    }
  }

  /** The settings under which every event is followed by its hold and a stabilisation. */
  predicate SpacesEvents(cfg: Config) {
    cfg.Stabilization() == 0 || (cfg.OpenHold() > STREAK_GAP_GRACE && cfg.DeniedCooldown() > STREAK_GAP_GRACE)
  }

  lemma {:induction false} EventTimesAreApart(cfg: Config, passes: seq<Pass>, log: seq<Reaction>, from: int, till: int)
    requires Sane(cfg) && ClockRuns(passes) && Follows(cfg, passes, log)
    requires SpacesEvents(cfg)
    ensures Apart(EventTimes(passes, log, from, till), LeastGap(cfg))
  {
    if log == [] {
    } else {
      var n := |log| - 1;
      var before := EventTimes(passes, log[..n], from, till);
      FollowsPrefix(cfg, passes, log, n);
      EventTimesAreApart(cfg, passes, log[..n], from, till);
      EventTimesAreEvents(passes, log[..n], from, till);
      if log[n].Emitted? {
        forall a | 0 <= a < |before| ensures passes[n].Current() - before[a] >= LeastGap(cfg) {
          var j :| EventAt(passes, log[..n], j, before[a]);
          EventsKeepTheirDistance(cfg, passes, log, j, n);
        }
      }
    }
  }

  lemma {:induction false} ApartFillsTime(ts: seq<Time>, gap: int)
    requires ts != [] && Apart(ts, gap)
    ensures ts[0] + (|ts| - 1) * gap <= ts[|ts| - 1]
  {
    if |ts| == 1 {
    } else {
      ApartFillsTime(ts[..|ts| - 1], gap);
      assert (|ts| - 1) * gap == (|ts| - 2) * gap + gap;
    }
  }

  /** n events that keep this gap fit in a window of length w. */
  ghost predicate FitsIn(n: nat, gap: int, w: nat) {
    gap > 0 && n <= 1 + w / gap
  }

  lemma ApartFits(ts: seq<Time>, gap: int, w: nat)
    requires gap > 0 && Apart(ts, gap) && (ts != [] ==> ts[|ts| - 1] <= ts[0] + w)
    ensures FitsIn(|ts|, gap, w)
  {
    if ts != [] {
      ApartFillsTime(ts, gap);
      QuotientBound(|ts| - 1, gap, w);
    }
  }

  /** However long the run, a window of length w holds at most 1 + w / (hold + stabilisation) events. */
  lemma EventRateIsBounded(cfg: Config, passes: seq<Pass>, log: seq<Reaction>, from: int, w: nat)
    requires Sane(cfg) && ClockRuns(passes) && Follows(cfg, passes, log)
    requires SpacesEvents(cfg) && LeastGap(cfg) > 0
    ensures FitsIn(|EventTimes(passes, log, from, from + w)|, LeastGap(cfg), w)
  {
    var ts := EventTimes(passes, log, from, from + w);
    EventTimesAreApart(cfg, passes, log, from, from + w);
    EventTimesAreEvents(passes, log, from, from + w);
    ApartFits(ts, LeastGap(cfg), w);
  }

  lemma ProductsCompare(a: int, b: int, d: nat)
    ensures a >= b ==> a * d >= b * d
  {
  }

  lemma QuotientBound(k: nat, d: int, w: nat)
    requires d > 0 && k * d <= w
    ensures k <= w / d
  {
    ProductsCompare(k, w / d + 1, d);
  }

  // ---------------------------------------------------------------------------
  // "Same employee held in view": what the program does instead.

  /** A match that repeats the previous one is silent exactly when it comes within idle_reset of it. */
  lemma RepeatIsSilentIff(cfg: Config, passes: seq<Pass>, log: seq<Reaction>, i: nat)
    requires Follows(cfg, passes, log) && i < |log| && log[i].Processed()
    requires var p := LastProcessed(log[..i]);
             p >= 0 && passes[p].Verdict() == passes[i].Verdict() && passes[i].Verdict().status.Granted?
    ensures var p := LastProcessed(log[..i]);
            log[i].Silent? <==> passes[i].Current() - passes[p].Current() <= cfg.IdleReset()
  {
    EventsReportTheirPass(cfg, passes, log, i);
  }

  /** A pause beyond the streak grace is followed by a stabilisation. */
  function Delay(cfg: Config, pause: int): int {
    pause + (if pause > STREAK_GAP_GRACE then cfg.Stabilization() else 0)
  }

  /** How long after a grant the next match can come at the earliest. */
  function NextMatchDelay(cfg: Config): int { Delay(cfg, cfg.OpenHold()) }

  /**
   If the door holds the loop longer than idle_reset (as it does with the default settings), no
   grant is ever silent: an employee who stays in view is announced and let in again.
   */
  lemma {:induction false} EveryGrantIsAnnounced(cfg: Config, passes: seq<Pass>, log: seq<Reaction>, i: nat)
    requires Sane(cfg) && ClockRuns(passes) && Follows(cfg, passes, log)
    requires NextMatchDelay(cfg) > cfg.IdleReset()
    requires i < |log| && log[i].Processed() && passes[i].Verdict().status.Granted?
    ensures log[i].Emitted?
  {
    EventsReportTheirPass(cfg, passes, log, i);
    var p := LastProcessed(log[..i]);
    if p >= 0 && passes[p].Verdict() == passes[i].Verdict() {
      EveryGrantIsAnnounced(cfg, passes, log, p);
      EventsReportTheirPass(cfg, passes, log, p);
      EventsKeepTheirDistance(cfg, passes, log, p, i);
    }
  }
}
