/**
 When events are at least a hold and a stabilisation apart: exactly if there is nothing to
 stabilise or both holds outlast the streak grace. Otherwise a streak can survive the block
 window, and the run below has its second event right at the end of the hold.
 */
module Spacing {
  import opened Basics
  import opened Streaks
  import opened Matching
  import opened MainLoop
  import opened Runs

  /** Pass i of the run comes a hold and a stabilisation after event j. */
  ghost predicate KeepsDistance(cfg: Config, passes: seq<Pass>, log: seq<Reaction>, j: int, i: int)
    requires 0 <= j < i < |log| <= |passes| && log[j].Emitted?
  {
    passes[i].Current() - passes[j].Current() >= cfg.Hold(log[j].event.status) + cfg.Stabilization()
  }

  /** Every match after an event keeps its distance from it. */
  ghost predicate MatchesKeepDistance(cfg: Config, passes: seq<Pass>, log: seq<Reaction>)
    requires |log| <= |passes|
  {
    forall j, i | 0 <= j < i < |log| && log[j].Emitted? && log[i].Processed() :: KeepsDistance(cfg, passes, log, j, i)
  }

  /** Every event after an event keeps its distance from it. */
  ghost predicate EventsKeepDistance(cfg: Config, passes: seq<Pass>, log: seq<Reaction>)
    requires |log| <= |passes|
  {
    forall j, i | 0 <= j < i < |log| && log[j].Emitted? && log[i].Emitted? :: KeepsDistance(cfg, passes, log, j, i)
  }

  ghost predicate IsRun(cfg: Config, passes: seq<Pass>, log: seq<Reaction>) {
    ClockRuns(passes) && Follows(cfg, passes, log)
  }

  lemma SpacedRunsKeepDistance(cfg: Config, passes: seq<Pass>, log: seq<Reaction>)
    requires Sane(cfg) && SpacesEvents(cfg) && IsRun(cfg, passes, log)
    ensures MatchesKeepDistance(cfg, passes, log)
  {
    forall j, i | 0 <= j < i < |log| && log[j].Emitted? && log[i].Processed()
      ensures KeepsDistance(cfg, passes, log, j, i)
    {
      EventsKeepTheirDistance(cfg, passes, log, j, i);
    }
  }

  // ---------------------------------------------------------------------------
  // The failing run: a face is seen every 300 ms until it is stable, and once more when the
  // hold is over, as somebody else.

  function Glance(at: Time, best: Option<Match>): Pass { Pass(at, Face(at, best, at, 0, at, at)) }

  /** The times of n glances from `start` on. */
  function Glances(start: Time, n: nat): seq<Time> { seq(n, i requires 0 <= i < n => start + i * STREAK_GAP_GRACE) }

  function Approach(n: nat): seq<Time> { Glances(SECOND, n) }

  /** So many glances come before a face is stable. */
  function GlancesToSettle(cfg: Config): int {
    (cfg.Stabilization() + STREAK_GAP_GRACE - 1) / STREAK_GAP_GRACE
  }

  function FirstFace(status: AccessStatus): Option<Match> {
    if status.Granted? then Some(Match(7, 0.1)) else None
  }

  function BridgingPasses(m: nat, status: AccessStatus, hold: nat): seq<Pass> {
    seq(m + 1, i requires 0 <= i <= m => Glance(SECOND + i * STREAK_GAP_GRACE, FirstFace(status)))
    + [Glance(SECOND + m * STREAK_GAP_GRACE + hold, Some(Match(8, 0.1)))]
  }

  function Settlings(n: nat): seq<Reaction> { seq(n, i => Settling) }

  function BridgingLog(m: nat, status: AccessStatus, hold: nat): seq<Reaction> {
    var passes := BridgingPasses(m, status, hold);
    Settlings(m) + [Emitted(EventOf(passes[m]))] + [Emitted(EventOf(passes[m + 1]))]
  }

  lemma NothingSettledYet(cfg: Config, n: nat)
    requires n > 0 && (n - 1) * STREAK_GAP_GRACE < cfg.Stabilization()
    ensures !Stable(cfg.Stabilization(), Approach(n))
  {
  }

  lemma StreakLasts(span: int, ts: seq<Time>)
    requires ts != [] && ts[0] > 0 && ts[|ts| - 1] - ts[0] >= span
    requires forall m | 0 < m < |ts| :: Close(ts, m)
    ensures Stable(span, ts)
  {
    assert Unbroken(ts, 0);
  }

  /** A face that is seen outside any window, but is not stable yet, settles. */
  lemma SettlesOn(cfg: Config, passes: seq<Pass>, hist: seq<Reaction>)
    requires |hist| < |passes| && Follows(cfg, passes, hist) && passes[|hist|].SeesFace()
    requires BlockUntil(cfg, passes, hist) <= passes[|hist|].start
    requires !Stable(cfg.Stabilization(), DetectionTimes(passes, hist) + [passes[|hist|].DetectedAt()])
    ensures var longer := hist + [Settling];
            && Follows(cfg, passes, longer)
            && DetectionTimes(passes, longer) == DetectionTimes(passes, hist) + [passes[|hist|].DetectedAt()]
            && LastEmitted(longer) == LastEmitted(hist) && LastProcessed(longer) == LastProcessed(hist)
            && BlockUntil(cfg, passes, longer) == BlockUntil(cfg, passes, hist)
  {
    hide Follows, DetectionTimes, LastEmitted, LastProcessed, BlockUntil, EventIsDue, Stable;
    FollowsOn(cfg, passes, hist, Settling);
    DetectionsGrow(passes, hist, Settling);
    HistoryGrows(hist, Settling);
    WindowFollowsEvents(cfg, passes, hist, Settling);
  }

  /** As long as the glances span less than the stabilisation, nothing but settling happens. */
  lemma {:induction false} ApproachSettles(cfg: Config, passes: seq<Pass>, status: AccessStatus, n: nat)
    requires n <= |passes| && (n > 0 ==> (n - 1) * STREAK_GAP_GRACE < cfg.Stabilization())
    requires forall i | 0 <= i < n :: passes[i] == Glance(SECOND + i * STREAK_GAP_GRACE, FirstFace(status))
    ensures Follows(cfg, passes, Settlings(n)) && DetectionTimes(passes, Settlings(n)) == Approach(n)
    ensures LastEmitted(Settlings(n)) == -1 && LastProcessed(Settlings(n)) == -1
  {
    if n == 0 {
    } else {
      hide Follows, DetectionTimes, LastEmitted, LastProcessed, Stable;
      var before := Settlings(n - 1);
      ApproachSettles(cfg, passes, status, n - 1);
      NothingSettledYet(cfg, n);
      assert passes[n - 1] == Glance(SECOND + (n - 1) * STREAK_GAP_GRACE, FirstFace(status));
      assert Approach(n) == Approach(n - 1) + [passes[n - 1].DetectedAt()];
      assert Settlings(n) == before + [Settling];
      hide Glances;
      SettlesOn(cfg, passes, before);
    }
  }

  lemma ApproachIsUnbroken(n: nat, hold: nat)
    requires n > 0 && hold <= STREAK_GAP_GRACE
    ensures var ts := Approach(n); forall k | 0 < k < n :: Close(ts, k)
    ensures var ts := Approach(n) + [Approach(n)[n - 1] + hold]; forall k | 0 < k <= n :: Close(ts, k)
  {
  }

  lemma GlancesSettle(cfg: Config, m: nat)
    requires Sane(cfg) && m == GlancesToSettle(cfg)
    ensures Stable(cfg.Stabilization(), Approach(m + 1))
    ensures m > 0 ==> (m - 1) * STREAK_GAP_GRACE < cfg.Stabilization()
  {
    ApproachIsUnbroken(m + 1, 0);
    StreakLasts(cfg.Stabilization(), Approach(m + 1));
  }

  /** Whatever comes behind them: the glance that completes the stabilisation is announced. */
  lemma FirstFaceIsAnnounced(cfg: Config, passes: seq<Pass>, status: AccessStatus, m: nat)
    requires Sane(cfg) && m == GlancesToSettle(cfg) < |passes|
    requires forall i | 0 <= i <= m :: passes[i] == Glance(SECOND + i * STREAK_GAP_GRACE, FirstFace(status))
    ensures passes[m] == Glance(SECOND + m * STREAK_GAP_GRACE, FirstFace(status))
    ensures var hist := Settlings(m);
            && Follows(cfg, passes, hist) && Expected(cfg, passes, hist) == Emitted(EventOf(passes[m]))
            && DetectionTimes(passes, hist) == Approach(m)
            && LastEmitted(hist) == -1 && LastProcessed(hist) == -1
  {
    hide Stable, Follows, DetectionTimes, LastEmitted, LastProcessed, GlancesToSettle;
    GlancesSettle(cfg, m);
    ApproachSettles(cfg, passes, status, m);
    assert Approach(m + 1) == Approach(m) + [passes[m].DetectedAt()];
    hide Glances;
  }

  /** After a pause within the grace the streak still lasts. */
  lemma StreakBridgesPause(cfg: Config, m: nat, pause: nat)
    requires Sane(cfg) && m == GlancesToSettle(cfg) && pause <= STREAK_GAP_GRACE
    ensures Stable(cfg.Stabilization(), Approach(m + 1) + [SECOND + m * STREAK_GAP_GRACE + pause])
  {
    var ts := Approach(m + 1) + [SECOND + m * STREAK_GAP_GRACE + pause];
    ApproachIsUnbroken(m + 1, pause);
    StreakLasts(cfg.Stabilization(), ts);
  }

  lemma SecondFaceIsAnnounced(cfg: Config, m: nat, status: AccessStatus, hold: nat)
    requires Sane(cfg) && cfg.Stabilization() > 0 && m == GlancesToSettle(cfg)
    requires hold == cfg.Hold(status) <= STREAK_GAP_GRACE && !status.Denied?
    ensures var passes := BridgingPasses(m, status, hold);
            var hist := Settlings(m) + [Emitted(EventOf(passes[m]))];
            Follows(cfg, passes, hist) && Expected(cfg, passes, hist) == Emitted(EventOf(passes[m + 1]))
  {
    hide Stable, Follows, DetectionTimes, LastEmitted, LastProcessed, GlancesToSettle;
    var passes := BridgingPasses(m, status, hold);
    var first := Emitted(EventOf(passes[m]));
    var hist := Settlings(m) + [first];
    FirstFaceIsAnnounced(cfg, passes, status, m);
    FollowsOn(cfg, passes, Settlings(m), first);
    DetectionsGrow(passes, Settlings(m), first);
    HistoryGrows(Settlings(m), first);
    StreakBridgesPause(cfg, m, hold);
    assert first.event.status == status;
    assert DetectionTimes(passes, hist) == Approach(m + 1);
    hide Glances;
  }

  lemma BridgingClockRuns(m: nat, status: AccessStatus, hold: nat)
    ensures ClockRuns(BridgingPasses(m, status, hold))
  {
  }

  /**
   For every hold within the grace and every stabilisation to lose, whichever kind of event
   the hold belongs to: a run whose second event comes right at the end of the hold.
   */
  lemma StreakBridgesShortHold(cfg: Config, status: AccessStatus)
    requires Sane(cfg) && cfg.Stabilization() > 0 && !status.Denied? && cfg.Hold(status) <= STREAK_GAP_GRACE
    ensures var m, hold := GlancesToSettle(cfg), cfg.Hold(status);
            var passes, log := BridgingPasses(m, status, hold), BridgingLog(m, status, hold);
            && IsRun(cfg, passes, log) && |log| == m + 2
            && log[m].Emitted? && log[m].event.status == status && log[m + 1].Emitted?
            && passes[m + 1].Current() - passes[m].Current() == hold
            && !EventsKeepDistance(cfg, passes, log)
  {
    var m, hold := GlancesToSettle(cfg), cfg.Hold(status);
    var passes, log := BridgingPasses(m, status, hold), BridgingLog(m, status, hold);
    SecondFaceIsAnnounced(cfg, m, status, hold);
    BridgingClockRuns(m, status, hold);
    hide Expected, Follows, ClockRuns;
    FollowsOn(cfg, passes, Settlings(m) + [log[m]], log[m + 1]);
    assert !KeepsDistance(cfg, passes, log, m, m + 1);
  }

  ghost predicate AllMatchesKeepDistance(cfg: Config) {
    forall passes, log | IsRun(cfg, passes, log) :: MatchesKeepDistance(cfg, passes, log)
  }

  ghost predicate AllEventsKeepDistance(cfg: Config) {
    forall passes, log | IsRun(cfg, passes, log) :: EventsKeepDistance(cfg, passes, log)
  }

  /**
   In all runs all matches, and in all runs all events, come a hold and a stabilisation after
   every earlier event, exactly when the stabilisation is zero or both holds exceed the grace.
   */
  lemma DistanceIsKeptIff(cfg: Config)
    requires Sane(cfg)
    ensures AllMatchesKeepDistance(cfg) <==> SpacesEvents(cfg)
    ensures AllEventsKeepDistance(cfg) <==> SpacesEvents(cfg)
  {
    hide Sane, ClockRuns;
    if SpacesEvents(cfg) {
      forall passes, log | IsRun(cfg, passes, log) ensures MatchesKeepDistance(cfg, passes, log) {
        SpacedRunsKeepDistance(cfg, passes, log);
      }
    } else {
      var status := if cfg.OpenHold() <= STREAK_GAP_GRACE then Granted else Unknown;
      ShortHoldOf(cfg, status);
      StreakBridgesShortHold(cfg, status);
      var m, hold := GlancesToSettle(cfg), cfg.Hold(status);
      assert IsRun(cfg, BridgingPasses(m, status, hold), BridgingLog(m, status, hold));
    }
  }

  lemma ShortHoldOf(cfg: Config, status: AccessStatus)
    requires Sane(cfg) && !SpacesEvents(cfg)
    requires status == if cfg.OpenHold() <= STREAK_GAP_GRACE then Granted else Unknown
    ensures cfg.Stabilization() > 0 && 0 <= cfg.Hold(status) <= STREAK_GAP_GRACE
  {
  }
}
