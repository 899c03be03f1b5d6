/**
 When no grant stays silent: exactly if the next match after a grant cannot come within
 idle_reset of it. One family of runs shows both what happens otherwise and that an
 employee held in view is let in again.
 */
module Announcing {
  import opened Basics
  import opened Streaks
  import opened Matching
  import opened MainLoop
  import opened Runs
  import opened Spacing

  // ---------------------------------------------------------------------------
  // The run: an employee is seen every 300 ms until the face is stable and is let in. After a
  // pause the same employee is seen again, and once more has to become stable if the pause
  // exceeded the streak grace.

  /** The time of the first grant. */
  function GrantTime(cfg: Config): Time
    requires Sane(cfg)
  {
    SECOND + GlancesToSettle(cfg) * STREAK_GAP_GRACE
  }

  /** So many glances settle after the pause. */
  function SecondGlances(cfg: Config, pause: int): nat
    requires Sane(cfg)
  {
    if pause > STREAK_GAP_GRACE then GlancesToSettle(cfg) else 0
  }

  function HeldTimes(cfg: Config, pause: nat): seq<Time>
    requires Sane(cfg)
  {
    Approach(GlancesToSettle(cfg) + 1)
    + Glances(GrantTime(cfg) + pause, SecondGlances(cfg, pause))
    + [GrantTime(cfg) + Delay(cfg, pause)]
  }

  function Known(at: Time): Pass { Glance(at, FirstFace(Granted)) }

  /** The employee is seen at each of these times. */
  function Sightings(ts: seq<Time>): seq<Pass> { seq(|ts|, i requires 0 <= i < |ts| => Known(ts[i])) }

  /** The reactions up to and including the first grant. */
  function FirstGrant(cfg: Config): seq<Reaction>
    requires Sane(cfg)
  {
    Settlings(GlancesToSettle(cfg)) + [Emitted(EventOf(Known(GrantTime(cfg))))]
  }

  function SecondGrant(cfg: Config, pause: nat): Reaction
    requires Sane(cfg)
  {
    if Delay(cfg, pause) > cfg.IdleReset()
    then Emitted(EventOf(Known(GrantTime(cfg) + Delay(cfg, pause))))
    else Silent
  }

  function HeldLog(cfg: Config, pause: nat): seq<Reaction>
    requires Sane(cfg)
  {
    FirstGrant(cfg) + Settlings(SecondGlances(cfg, pause)) + [SecondGrant(cfg, pause)]
  }

  lemma GlancesCover(cfg: Config)
    requires Sane(cfg)
    ensures var m := GlancesToSettle(cfg);
            m * STREAK_GAP_GRACE >= cfg.Stabilization()
            && (m > 0 ==> (m - 1) * STREAK_GAP_GRACE < cfg.Stabilization())
  {
  }

  lemma GlancesAreBounded(start: Time, n: nat)
    ensures Ascending(Glances(start, n))
    ensures forall t | t in Glances(start, n) :: start <= t <= start + (n - 1) * STREAK_GAP_GRACE
  {
  }

  lemma AscendingAppends(a: seq<Time>, b: seq<Time>, bound: Time)
    requires Ascending(a) && Ascending(b)
    requires (forall t | t in a :: t <= bound) && (forall t | t in b :: bound <= t)
    ensures Ascending(a + b)
  {
    forall i, j | 0 <= i < j < |a + b| ensures (a + b)[i] <= (a + b)[j] {
      if i < |a| <= j {
        assert a[i] in a && b[j - |a|] in b;
      }
    }
  }

  lemma HeldTimesAscend(cfg: Config, pause: nat)
    requires Sane(cfg)
    ensures Ascending(HeldTimes(cfg, pause))
  {
    var m, n := GlancesToSettle(cfg), SecondGlances(cfg, pause);
    var resumed, last := Glances(GrantTime(cfg) + pause, n), GrantTime(cfg) + Delay(cfg, pause);
    GlancesCover(cfg);
    GlancesAreBounded(SECOND, m + 1);
    GlancesAreBounded(GrantTime(cfg) + pause, n);
    AscendingAppends(resumed, [last], last);
    AscendingAppends(Approach(m + 1), resumed + [last], GrantTime(cfg));
    assert HeldTimes(cfg, pause) == Approach(m + 1) + (resumed + [last]);
  }

  lemma SightingsClockRuns(ts: seq<Time>)
    requires Ascending(ts)
    ensures ClockRuns(Sightings(ts))
  {
  }

  lemma FirstGrantFollows(cfg: Config, pause: nat)
    requires Sane(cfg)
    ensures var passes, hist := Sightings(HeldTimes(cfg, pause)), FirstGrant(cfg);
            && |hist| <= |passes| && Follows(cfg, passes, hist)
            && DetectionTimes(passes, hist) == Approach(|hist|)
            && LastEmitted(hist) == |hist| - 1 && LastProcessed(hist) == |hist| - 1
            && BlockUntil(cfg, passes, hist) == GrantTime(cfg) + cfg.OpenHold()
  {
    var m, passes := GlancesToSettle(cfg), Sightings(HeldTimes(cfg, pause));
    var before, first := Settlings(m), Emitted(EventOf(Known(GrantTime(cfg))));
    FirstFaceIsAnnounced(cfg, passes, Granted, m);
    assert Approach(m + 1) == Approach(m) + [passes[m].DetectedAt()];
    hide Expected, Follows, DetectionTimes, LastEmitted, LastProcessed, BlockUntil;
    FollowsOn(cfg, passes, before, first);
    DetectionsGrow(passes, before, first);
    HistoryGrows(before, first);
    WindowFollowsEvents(cfg, passes, before, first);
  }

  /** After a pause beyond the grace a face is stable only when it has been seen long enough again. */
  lemma NotStableAgain(cfg: Config, n: nat, start: Time, k: nat)
    requires Sane(cfg) && n > 0 && start - (SECOND + (n - 1) * STREAK_GAP_GRACE) > STREAK_GAP_GRACE
    requires k > 0 && (k - 1) * STREAK_GAP_GRACE < cfg.Stabilization()
    ensures !Stable(cfg.Stabilization(), Approach(n) + Glances(start, k))
  {
    var ts := Approach(n) + Glances(start, k);
    GlancesAreBounded(SECOND, n);
    GlancesAreBounded(start, k);
    AscendingAppends(Approach(n), Glances(start, k), start);
    if Stable(cfg.Stabilization(), ts) {
      StableAfterSilence(cfg.Stabilization(), ts, n);
      assert false;
    }
  }

  /** The employee is seen k times in a row, from `start` on; pass n is the first of these. */
  ghost predicate SeenFrom(passes: seq<Pass>, n: nat, start: Time, k: nat) {
    n + k <= |passes| && forall i | 0 <= i < k :: passes[n + i] == Known(start + i * STREAK_GAP_GRACE)
  }

  /** Behind the first grant the glances after the pause settle, one by one. */
  lemma {:induction false} SettlesAgain(cfg: Config, passes: seq<Pass>, first: seq<Reaction>, start: Time, k: nat)
    requires Sane(cfg) && 0 < |first| <= |passes|
    requires Follows(cfg, passes, first) && DetectionTimes(passes, first) == Approach(|first|)
    requires BlockUntil(cfg, passes, first) <= start
    requires k > 0 ==> start - (SECOND + (|first| - 1) * STREAK_GAP_GRACE) > STREAK_GAP_GRACE
    requires k > 0 ==> (k - 1) * STREAK_GAP_GRACE < cfg.Stabilization()
    requires SeenFrom(passes, |first|, start, k)
    ensures var hist := first + Settlings(k);
            && Follows(cfg, passes, hist)
            && DetectionTimes(passes, hist) == Approach(|first|) + Glances(start, k)
            && LastEmitted(hist) == LastEmitted(first) && LastProcessed(hist) == LastProcessed(first)
            && BlockUntil(cfg, passes, hist) == BlockUntil(cfg, passes, first)
  {
    hide Follows, DetectionTimes, LastEmitted, LastProcessed, BlockUntil, Stable;
    if k == 0 {
      assert first + Settlings(0) == first && Approach(|first|) + Glances(start, 0) == Approach(|first|);
    } else {
      var before := first + Settlings(k - 1);
      SettlesAgain(cfg, passes, first, start, k - 1);
      NotStableAgain(cfg, |first|, start, k);
      assert passes[|before|] == passes[|first| + (k - 1)] == Known(start + (k - 1) * STREAK_GAP_GRACE);
      assert Approach(|first|) + Glances(start, k - 1) + [passes[|before|].DetectedAt()]
             == Approach(|first|) + Glances(start, k);
      assert first + Settlings(k) == before + [Settling];
      SettlesOn(cfg, passes, before);
    }
  }

  /** The last sighting is stable, in the first streak or in the second. */
  lemma StableAtLast(cfg: Config, pause: nat)
    requires Sane(cfg)
    ensures Stable(cfg.Stabilization(), HeldTimes(cfg, pause))
  {
    var m, ts := GlancesToSettle(cfg), HeldTimes(cfg, pause);
    GlancesCover(cfg);
    if pause <= STREAK_GAP_GRACE {
      StreakBridgesPause(cfg, m, pause);
      assert ts == Approach(m + 1) + [GrantTime(cfg) + pause];
    } else if cfg.Stabilization() > 0 {
      assert Unbroken(ts, m + 1);
    }
  }

  lemma SecondSightings(cfg: Config, pause: nat)
    requires Sane(cfg)
    ensures var passes, n, k := Sightings(HeldTimes(cfg, pause)), |FirstGrant(cfg)|, SecondGlances(cfg, pause);
            && |passes| == n + k + 1
            && passes[n - 1] == Known(GrantTime(cfg))
            && SeenFrom(passes, n, GrantTime(cfg) + pause, k)
            && passes[n + k] == Known(GrantTime(cfg) + Delay(cfg, pause))
  {
  }

  /** Glances settle a second time only behind a silence, and too few to be stable. */
  lemma SecondStreakIsShort(cfg: Config, pause: nat)
    requires Sane(cfg)
    ensures var n, k := |FirstGrant(cfg)|, SecondGlances(cfg, pause);
            k > 0 ==> GrantTime(cfg) + pause - (SECOND + (n - 1) * STREAK_GAP_GRACE) > STREAK_GAP_GRACE
                      && (k - 1) * STREAK_GAP_GRACE < cfg.Stabilization()
  {
    GlancesCover(cfg);
  }

  lemma SecondStreakFollows(cfg: Config, pause: nat)
    requires Sane(cfg) && cfg.OpenHold() <= pause
    ensures var passes := Sightings(HeldTimes(cfg, pause));
            var hist := FirstGrant(cfg) + Settlings(SecondGlances(cfg, pause));
            && |hist| < |passes| && Follows(cfg, passes, hist)
            && DetectionTimes(passes, hist) + [passes[|hist|].DetectedAt()] == HeldTimes(cfg, pause)
            && LastProcessed(hist) == |FirstGrant(cfg)| - 1
            && BlockUntil(cfg, passes, hist) == GrantTime(cfg) + cfg.OpenHold()
  {
    var n, first, passes := SecondGlances(cfg, pause), FirstGrant(cfg), Sightings(HeldTimes(cfg, pause));
    hide Follows, DetectionTimes, LastEmitted, LastProcessed, BlockUntil, Sightings, GrantTime, SecondGlances, SeenFrom;
    FirstGrantFollows(cfg, pause);
    SecondSightings(cfg, pause);
    SecondStreakIsShort(cfg, pause);
    assert HeldTimes(cfg, pause) == Approach(|first|) + Glances(GrantTime(cfg) + pause, n)
                                    + [passes[|first| + n].DetectedAt()];
    assert |first + Settlings(n)| == |first| + n && |first| > 0;
    hide *;
    SettlesAgain(cfg, passes, first, GrantTime(cfg) + pause, n);
  }

  lemma SecondGrantFollows(cfg: Config, pause: nat)
    requires Sane(cfg) && cfg.OpenHold() <= pause
    ensures var passes := Sightings(HeldTimes(cfg, pause));
            var hist := FirstGrant(cfg) + Settlings(SecondGlances(cfg, pause));
            && |hist| < |passes| && Follows(cfg, passes, hist)
            && Expected(cfg, passes, hist) == SecondGrant(cfg, pause)
  {
    SecondStreakFollows(cfg, pause);
    SecondSightings(cfg, pause);
    StableAtLast(cfg, pause);
    hide Follows, DetectionTimes, LastProcessed, BlockUntil, Stable, HeldTimes, GrantTime;
  }

  /**
   For every pause that outlasts the door's hold this is a run: both matches are grants of
   one employee, and the second is announced exactly if it comes later than idle_reset.
   */
  lemma HeldInView(cfg: Config, pause: nat)
    requires Sane(cfg) && cfg.OpenHold() <= pause
    ensures var passes, log, a := Sightings(HeldTimes(cfg, pause)), HeldLog(cfg, pause), |FirstGrant(cfg)| - 1;
            var b := |log| - 1;
            && IsRun(cfg, passes, log) && |log| == |passes| && a < b
            && passes[b].Verdict() == passes[a].Verdict() == Decision(Granted, Some(7))
            && passes[b].Current() - passes[a].Current() == Delay(cfg, pause)
            && log[a] == Emitted(EventOf(passes[a]))
            && log[b] == if Delay(cfg, pause) > cfg.IdleReset() then Emitted(EventOf(passes[b])) else Silent
  {
    var first, passes := FirstGrant(cfg), Sightings(HeldTimes(cfg, pause));
    var before := first + Settlings(SecondGlances(cfg, pause));
    HeldTimesAscend(cfg, pause);
    SightingsClockRuns(HeldTimes(cfg, pause));
    SecondGrantFollows(cfg, pause);
    hide Expected, Follows, ClockRuns;
    FollowsOn(cfg, passes, before, SecondGrant(cfg, pause));
    assert passes[|first| - 1] == Known(GrantTime(cfg));
    assert passes[|before|] == Known(GrantTime(cfg) + Delay(cfg, pause));
  }

  /** Passes a and b of the run both announce a grant to the same employee. */
  ghost predicate LetInTwice(log: seq<Reaction>, a: int, b: int) {
    && 0 <= a < b < |log| && log[a].Emitted? && log[b].Emitted?
    && log[a].event.status == log[b].event.status == Granted
    && log[a].event.employee == log[b].event.employee
  }

  /** Whatever the settings, an employee who stays in view long enough is let in again. */
  lemma HeldInViewIsLetInAgain(cfg: Config)
    requires Sane(cfg)
    ensures exists passes, log, a, b :: IsRun(cfg, passes, log) && LetInTwice(log, a, b)
  {
    var pause := cfg.OpenHold() + Max(cfg.IdleReset(), 0) + 1;
    HeldInView(cfg, pause);
    assert LetInTwice(HeldLog(cfg, pause), |FirstGrant(cfg)| - 1, |HeldLog(cfg, pause)| - 1);
  }

  ghost predicate GrantsAreAnnounced(passes: seq<Pass>, log: seq<Reaction>)
    requires |log| <= |passes|
  {
    forall i | 0 <= i < |log| && log[i].Processed() && passes[i].Verdict().status.Granted? :: log[i].Emitted?
  }

  ghost predicate AllGrantsAreAnnounced(cfg: Config) {
    forall passes, log | IsRun(cfg, passes, log) :: GrantsAreAnnounced(passes, log)
  }

  /** If the next match can come within idle_reset of a grant, some grant is silent. */
  lemma EarlyRepeatIsSilent(cfg: Config)
    requires Sane(cfg) && NextMatchDelay(cfg) <= cfg.IdleReset()
    ensures var passes, log := Sightings(HeldTimes(cfg, cfg.OpenHold())), HeldLog(cfg, cfg.OpenHold());
            IsRun(cfg, passes, log) && !GrantsAreAnnounced(passes, log)
  {
    var log := HeldLog(cfg, cfg.OpenHold());
    HeldInView(cfg, cfg.OpenHold());
    assert log[|log| - 1].Silent?;
  }

  /**
   In all runs every grant is announced exactly if the earliest match after a grant, held
   back by the door and by the stabilisation, comes later than idle_reset.
   */
  lemma GrantsAreAnnouncedIff(cfg: Config)
    requires Sane(cfg)
    ensures AllGrantsAreAnnounced(cfg) <==> NextMatchDelay(cfg) > cfg.IdleReset()
  {
    if NextMatchDelay(cfg) > cfg.IdleReset() {
      forall passes, log | IsRun(cfg, passes, log) ensures GrantsAreAnnounced(passes, log) {
        RunAnnouncesGrants(cfg, passes, log);
      }
    } else {
      EarlyRepeatIsSilent(cfg);
      assert !AllGrantsAreAnnounced(cfg);
    }
  }

  lemma RunAnnouncesGrants(cfg: Config, passes: seq<Pass>, log: seq<Reaction>)
    requires Sane(cfg) && NextMatchDelay(cfg) > cfg.IdleReset() && IsRun(cfg, passes, log)
    ensures GrantsAreAnnounced(passes, log)
  {
    forall i | 0 <= i < |log| && log[i].Processed() && passes[i].Verdict().status.Granted?
      ensures log[i].Emitted?
    {
      EveryGrantIsAnnounced(cfg, passes, log, i);
    }
  }
}
