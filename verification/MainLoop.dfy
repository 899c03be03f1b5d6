/**
 Pipeline::main_loop: frames in, access events out.

 One `Pass` is one turn of the while loop. It holds everything that turn may read (clock,
 camera, detector, embedder, matcher); a turn that leaves early does not look at the rest.
 A run stopped at any moment is a finite list of passes.
 */
module MainLoop {
  import opened Basics
  import opened Streaks
  import opened Matching

  datatype Config = Config(
    idleResetS: int,
    unknownThrottleS: int,
    openHoldMs: int,
    deniedCooldownMs: int,
    faceStabilizationMs: int)
  {
    function IdleReset(): int { idleResetS * SECOND }
    function UnknownThrottle(): int { unknownThrottleS * SECOND }
    function OpenHold(): int { openHoldMs * MILLISECOND }
    function DeniedCooldown(): int { deniedCooldownMs * MILLISECOND }
    function Stabilization(): int { faceStabilizationMs * MILLISECOND }

    /** How long the loop stays shut after a decision of this kind was acted on. */
    function Hold(status: AccessStatus): int {
      if status.Granted? then OpenHold() else DeniedCooldown()
    }
  }

  datatype AccessStatus = Granted | Denied | Unknown

  datatype Decision = Decision(status: AccessStatus, employee: Option<EmployeeId>)

  /** What the camera and the models yield in one pass, with the clock readings around it. */
  datatype Sight =
    | NoFrame
    | NoFace
    | NoEmbedding(detectedAt: Time)
    | Face(detectedAt: Time, best: Option<Match>, current: Time, stamp: int, grantedAt: Time, gatedAt: Time)

  datatype Pass = Pass(start: Time, sight: Sight)
  {
    predicate SeesFace() { sight.NoEmbedding? || sight.Face? }

    function DetectedAt(): Time { if SeesFace() then sight.detectedAt else start }

    function Current(): Time { if sight.Face? then sight.current else start }

    /** The reading inside Turnstile::grant_access, if this pass grants. */
    function GrantedAt(): Time { if sight.Face? then sight.grantedAt else start }

    /** The reading from which block_until is computed, if this pass emits. */
    function GatedAt(): Time { if sight.Face? then sight.gatedAt else start }

    function Verdict(): Decision {
      if sight.Face? && sight.best.Some?
      then Decision(Granted, Some(sight.best.value.employee))
      else Decision(Unknown, None)
    }

    predicate Ordered() {
      && start <= DetectedAt() <= End()
      && (sight.Face? ==> sight.detectedAt <= sight.current <= sight.grantedAt <= sight.gatedAt)
    }

    function End(): Time { if sight.Face? then sight.gatedAt else DetectedAt() }
  }

  datatype AccessEvent = AccessEvent(
    stamp: int, status: AccessStatus, employee: Option<EmployeeId>, distance: Option<real>)

  /** What the loop did with one pass. */
  datatype Reaction =
    | Gated
    | NothingSeen
    | Settling
    | FaultReported
    | Silent
    | Emitted(event: AccessEvent)
  {
    /** The pass got as far as the matcher. */
    predicate Processed() { Silent? || Emitted? }
  }

  /** std::chrono::steady_clock never goes back. */
  ghost predicate ClockRuns(passes: seq<Pass>) {
    && (forall i | 0 <= i < |passes| :: passes[i].Ordered())
    && (forall i, j | 0 <= i < j < |passes| :: passes[i].End() <= passes[j].start)
  }

  // ---------------------------------------------------------------------------
  // The specification speaks of the passes and the reactions so far. It has none of the
  // variables the loop carries from one turn to the next.

  /** Index of the latest emitted event, or -1. */
  function LastEmitted(hist: seq<Reaction>): (e: int)
    ensures -1 <= e < |hist|
    ensures e >= 0 ==> hist[e].Emitted?
  {
    if hist == [] then -1
    else if hist[|hist| - 1].Emitted? then |hist| - 1
    else LastEmitted(hist[..|hist| - 1])
  }

  /** Index of the latest pass that reached the matcher, or -1. */
  function LastProcessed(hist: seq<Reaction>): (p: int)
    ensures -1 <= p < |hist|
    ensures p >= 0 ==> hist[p].Processed()
  {
    if hist == [] then -1
    else if hist[|hist| - 1].Processed() then |hist| - 1
    else LastProcessed(hist[..|hist| - 1])
  }

  /** The times at which a face was detected. */
  function DetectionTimes(passes: seq<Pass>, hist: seq<Reaction>): seq<Time>
    requires |hist| <= |passes|
  {
    if hist == [] then [] else
    var n := |hist| - 1;
    DetectionTimes(passes, hist[..n]) +
    (if !hist[n].Gated? && passes[n].SeesFace() then [passes[n].DetectedAt()] else [])
  }

  /** The end of the window opened by the latest emitted event. */
  function BlockUntil(cfg: Config, passes: seq<Pass>, hist: seq<Reaction>): int
    requires |hist| <= |passes|
  {
    var e := LastEmitted(hist);
    if e < 0 then 0 else passes[e].GatedAt() + cfg.Hold(hist[e].event.status)
  }

  /**
   An event is due on the first match ever, after an absence longer than idle_reset, when
   the decision differs from the previous match's, and again for an unknown face once the
   throttle has run since the last event.
   */
  predicate EventIsDue(cfg: Config, passes: seq<Pass>, hist: seq<Reaction>)
    requires |hist| < |passes|
  {
    var pass, prev, latest := passes[|hist|], LastProcessed(hist), LastEmitted(hist);
    || prev < 0
    || pass.Current() - passes[prev].Current() > cfg.IdleReset()
    || pass.Verdict() != passes[prev].Verdict()
    || (pass.Verdict().status.Unknown? && latest >= 0
        && pass.Current() - passes[latest].Current() >= cfg.UnknownThrottle())
  }

  function EventOf(pass: Pass): AccessEvent
    requires pass.sight.Face?
  {
    AccessEvent(pass.sight.stamp, pass.Verdict().status, pass.Verdict().employee,
                if pass.sight.best.Some? then Some(pass.sight.best.value.distance) else None)
  }

  /** The reaction to the pass that comes after the history. */
  ghost function Expected(cfg: Config, passes: seq<Pass>, hist: seq<Reaction>): Reaction
    requires |hist| < |passes|
  {
    var pass := passes[|hist|];
    if pass.start < BlockUntil(cfg, passes, hist) then Gated
    else if !pass.SeesFace() then NothingSeen
    else if !Stable(cfg.Stabilization(), DetectionTimes(passes, hist) + [pass.DetectedAt()]) then Settling
    else if pass.sight.NoEmbedding? then FaultReported
    else if EventIsDue(cfg, passes, hist) then Emitted(EventOf(pass))
    else Silent
  }

  ghost predicate ReactsAsExpected(cfg: Config, passes: seq<Pass>, log: seq<Reaction>, i: int)
    requires 0 <= i < |log| <= |passes|
  {
    log[i] == Expected(cfg, passes, log[..i])
  }

  /** Every reaction is the expected one; the log may cover only the first passes. */
  ghost predicate Follows(cfg: Config, passes: seq<Pass>, log: seq<Reaction>) {
    && |log| <= |passes|
    && forall i | 0 <= i < |log| :: ReactsAsExpected(cfg, passes, log, i)
  }

  lemma DetectionsAreAscending(passes: seq<Pass>, hist: seq<Reaction>)
    requires |hist| <= |passes| && ClockRuns(passes)
    ensures Ascending(DetectionTimes(passes, hist))
    ensures forall t, j | t in DetectionTimes(passes, hist) && |hist| <= j < |passes| :: t <= passes[j].start
  {
    if hist != [] {
      var n := |hist| - 1;
      var before := DetectionTimes(passes, hist[..n]);
      DetectionsAreAscending(passes, hist[..n]);
      assert passes[n].Ordered();
      assert forall i | 0 <= i < |before| :: before[i] in before;
    }
  }

  /** Before the loop acts, the newest event names the decision of the newest match. */
  ghost predicate LatestEventIsCurrent(passes: seq<Pass>, hist: seq<Reaction>)
    requires |hist| <= |passes|
  {
    var p, e := LastProcessed(hist), LastEmitted(hist);
    && (p >= 0 <==> e >= 0)
    && (e >= 0 ==> e <= p
                   && passes[e].sight.Face? && hist[e].event == EventOf(passes[e])
                   && passes[e].Verdict() == passes[p].Verdict())
  }

  lemma FollowsOn(cfg: Config, passes: seq<Pass>, log: seq<Reaction>, r: Reaction)
    requires |log| < |passes| && Follows(cfg, passes, log) && r == Expected(cfg, passes, log)
    ensures Follows(cfg, passes, log + [r])
  {
    forall i | 0 <= i <= |log| ensures ReactsAsExpected(cfg, passes, log + [r], i) {
      assert (log + [r])[..i] == log[..i];
      if i < |log| {
        assert ReactsAsExpected(cfg, passes, log, i);
      } else {
        assert log[..i] == log;
      }
    }
  }

  lemma HistoryGrows(hist: seq<Reaction>, r: Reaction)
    ensures LastEmitted(hist + [r]) == if r.Emitted? then |hist| else LastEmitted(hist)
    ensures LastProcessed(hist + [r]) == if r.Processed() then |hist| else LastProcessed(hist)
  {
    assert (hist + [r])[..|hist|] == hist;
  }

  lemma DetectionsGrow(passes: seq<Pass>, hist: seq<Reaction>, r: Reaction)
    requires |hist| < |passes|
    ensures DetectionTimes(passes, hist + [r]) ==
            if !r.Gated? && passes[|hist|].SeesFace()
            then DetectionTimes(passes, hist) + [passes[|hist|].DetectedAt()]
            else DetectionTimes(passes, hist)
  {
    assert (hist + [r])[..|hist|] == hist;
  }

  lemma WindowFollowsEvents(cfg: Config, passes: seq<Pass>, hist: seq<Reaction>, r: Reaction)
    requires |hist| < |passes|
    ensures BlockUntil(cfg, passes, hist + [r]) ==
            if r.Emitted?
            then passes[|hist|].GatedAt() + cfg.Hold(r.event.status)
            else BlockUntil(cfg, passes, hist)
  {
    HistoryGrows(hist, r);
  }

  lemma AscendingWithNext(passes: seq<Pass>, hist: seq<Reaction>)
    requires |hist| < |passes| && ClockRuns(passes)
    ensures Ascending(DetectionTimes(passes, hist) + [passes[|hist|].DetectedAt()])
  {
    var ts := DetectionTimes(passes, hist);
    DetectionsAreAscending(passes, hist);
    assert passes[|hist|].Ordered();
    assert forall k | 0 <= k < |ts| :: ts[k] in ts;
  }

  /** The loop's test on streak_start agrees with the streaks in the list of detections. */
  lemma GateAgrees(span: int, passes: seq<Pass>, hist: seq<Reaction>)
    requires |hist| < |passes| && ClockRuns(passes)
    ensures var ts := DetectionTimes(passes, hist) + [passes[|hist|].DetectedAt()];
            Stable(span, ts) <==> !(span > 0 && Latest(ts) - StreakStart(ts) < span)
  {
    AscendingWithNext(passes, hist);
    GateDecidesStability(span, DetectionTimes(passes, hist) + [passes[|hist|].DetectedAt()]);
  }

  /** The stabilisation gate: the streak variables after this detection, and whether it settled. */
  method Stabilize(cfg: Config, ghost passes: seq<Pass>, ghost hist: seq<Reaction>, pass: Pass,
                   streakStart: Time, lastDetectAt: Time)
    returns (settled: bool, streakStart': Time, lastDetectAt': Time)
    requires |hist| < |passes| && ClockRuns(passes) && pass == passes[|hist|] && pass.SeesFace()
    requires streakStart == StreakStart(DetectionTimes(passes, hist))
    requires lastDetectAt == Latest(DetectionTimes(passes, hist))
    ensures var ts := DetectionTimes(passes, hist) + [pass.DetectedAt()];
            && (settled <==> Stable(cfg.Stabilization(), ts))
            && streakStart' == StreakStart(ts)
            && lastDetectAt' == Latest(ts)
  {
    GateAgrees(cfg.Stabilization(), passes, hist);
    StreakAppends(DetectionTimes(passes, hist), pass.DetectedAt());
    var detectTime := pass.sight.detectedAt;
    streakStart' := streakStart;
    if streakStart == 0 || detectTime - lastDetectAt > STREAK_GAP_GRACE {
      streakStart' := detectTime;
    }
    lastDetectAt' := detectTime;
    settled := !(cfg.Stabilization() > 0 && detectTime - streakStart' < cfg.Stabilization());
  }

  /** What the loop remembers about earlier matches. */
  datatype Memory = Memory(
    lastStatus: Option<AccessStatus>,
    lastEmployee: Option<EmployeeId>,
    lastFaceSeenAt: Time,
    lastUnknownEmittedAt: Time,
    everSeenFace: bool)

  ghost predicate Remembers(passes: seq<Pass>, hist: seq<Reaction>, m: Memory)
    requires |hist| <= |passes|
  {
    var p, e := LastProcessed(hist), LastEmitted(hist);
    && LatestEventIsCurrent(passes, hist)
    && m.everSeenFace == (p >= 0)
    && (p < 0 ==> m.lastStatus.None? && m.lastEmployee.None?)
    && (p >= 0 ==>
          && m.lastFaceSeenAt == passes[p].Current()
          && m.lastStatus == Some(passes[p].Verdict().status)
          && m.lastEmployee == passes[p].Verdict().employee
          && (passes[p].Verdict().status.Unknown? ==> m.lastUnknownEmittedAt == passes[e].Current()))
  }

  lemma QuietPassKeepsMemory(passes: seq<Pass>, hist: seq<Reaction>, r: Reaction, m: Memory)
    requires |hist| < |passes| && Remembers(passes, hist, m) && !r.Processed()
    ensures Remembers(passes, hist + [r], m)
  {
    HistoryGrows(hist, r);
  }

  lemma MatchIsRemembered(passes: seq<Pass>, hist: seq<Reaction>, r: Reaction, m: Memory, m': Memory)
    requires |hist| < |passes| && Remembers(passes, hist, m) && passes[|hist|].sight.Face?
    requires var pass := passes[|hist|];
             && m'.everSeenFace && m'.lastFaceSeenAt == pass.Current()
             && m'.lastStatus == Some(pass.Verdict().status)
             && m'.lastEmployee == pass.Verdict().employee
             && (r.Emitted? ==>
                   && r.event == EventOf(pass)
                   && (pass.Verdict().status.Unknown? ==> m'.lastUnknownEmittedAt == pass.Current()))
             && (r.Silent? ==>
                   && LastProcessed(hist) >= 0
                   && passes[LastProcessed(hist)].Verdict() == pass.Verdict()
                   && m'.lastUnknownEmittedAt == m.lastUnknownEmittedAt)
    requires r.Processed()
    ensures Remembers(passes, hist + [r], m')
  {
    HistoryGrows(hist, r);
  }

  /** From the match to the decision whether to emit. */
  method Decide(cfg: Config, ghost passes: seq<Pass>, ghost hist: seq<Reaction>, pass: Pass, m: Memory)
    returns (reaction: Reaction, m': Memory)
    requires |hist| < |passes| && pass == passes[|hist|] && pass.sight.Face?
    requires Remembers(passes, hist, m)
    ensures reaction == if EventIsDue(cfg, passes, hist) then Emitted(EventOf(pass)) else Silent
    ensures Remembers(passes, hist + [reaction], m')
  {
    var lastStatus, lastEmployee := m.lastStatus, m.lastEmployee;
    var lastUnknownEmittedAt := m.lastUnknownEmittedAt;
    var current := pass.sight.current;
    if m.everSeenFace && current - m.lastFaceSeenAt > cfg.IdleReset() {
      lastStatus, lastEmployee := None, None;
    }
    reaction := Silent;
    match pass.sight.best {
      case Some(found) =>
        var firstTime := lastStatus.None?;
        var differentEmployee := lastStatus == Some(Granted) && lastEmployee != Some(found.employee);
        var wasUnknownBefore := lastStatus == Some(Unknown);
        if firstTime || differentEmployee || wasUnknownBefore {
          reaction := Emitted(AccessEvent(pass.sight.stamp, Granted, Some(found.employee), Some(found.distance)));
          lastStatus, lastEmployee := Some(Granted), Some(found.employee);
        }
      case None =>
        var wasNotUnknown := lastStatus.None? || lastStatus != Some(Unknown);
        var throttleExpired := lastStatus == Some(Unknown)
          && current - lastUnknownEmittedAt >= cfg.UnknownThrottle();
        if wasNotUnknown || throttleExpired {
          reaction := Emitted(AccessEvent(pass.sight.stamp, Unknown, None, None));
          lastStatus, lastEmployee := Some(Unknown), None;
          lastUnknownEmittedAt := current;
        }
    }
    m' := Memory(lastStatus, lastEmployee, current, lastUnknownEmittedAt, true);
    MatchIsRemembered(passes, hist, reaction, m, m');
  }

  /** The variables the loop carries from one turn to the next. */
  datatype Carried = Carried(blockUntil: int, streakStart: Time, lastDetectAt: Time, memory: Memory)

  ghost predicate Accurate(cfg: Config, passes: seq<Pass>, hist: seq<Reaction>, v: Carried)
    requires |hist| <= |passes|
  {
    && v.blockUntil == BlockUntil(cfg, passes, hist)
    && v.streakStart == StreakStart(DetectionTimes(passes, hist))
    && v.lastDetectAt == Latest(DetectionTimes(passes, hist))
    && Remembers(passes, hist, v.memory)
  }

  lemma StaysAccurate(cfg: Config, passes: seq<Pass>, hist: seq<Reaction>, r: Reaction, v: Carried, v': Carried)
    requires |hist| < |passes| && Accurate(cfg, passes, hist, v)
    requires v'.blockUntil ==
             if r.Emitted? then passes[|hist|].GatedAt() + cfg.Hold(r.event.status) else v.blockUntil
    requires if !r.Gated? && passes[|hist|].SeesFace()
             then var ts := DetectionTimes(passes, hist) + [passes[|hist|].DetectedAt()];
                  v'.streakStart == StreakStart(ts) && v'.lastDetectAt == Latest(ts)
             else v'.streakStart == v.streakStart && v'.lastDetectAt == v.lastDetectAt
    requires if r.Processed() then Remembers(passes, hist + [r], v'.memory) else v'.memory == v.memory
    ensures Accurate(cfg, passes, hist + [r], v')
  {
    DetectionsGrow(passes, hist, r);
    WindowFollowsEvents(cfg, passes, hist, r);
    if !r.Processed() {
      QuietPassKeepsMemory(passes, hist, r, v.memory);
    }
  }

  /** One turn of the loop. */
  method Turn(cfg: Config, ghost passes: seq<Pass>, ghost hist: seq<Reaction>, pass: Pass, v: Carried)
    returns (r: Reaction, v': Carried)
    requires |hist| < |passes| && pass == passes[|hist|] && ClockRuns(passes)
    requires Accurate(cfg, passes, hist, v)
    ensures r == Expected(cfg, passes, hist)
    ensures Accurate(cfg, passes, hist + [r], v')
  {
    v' := v;
    if pass.start < v.blockUntil {
      r := Gated;
    } else if !pass.SeesFace() {
      r := NothingSeen;
    } else {
      var settled, streakStart, lastDetectAt := Stabilize(cfg, passes, hist, pass, v.streakStart, v.lastDetectAt);
      v' := v'.(streakStart := streakStart, lastDetectAt := lastDetectAt);
      if !settled {
        r := Settling;
      } else if pass.sight.NoEmbedding? {
        r := FaultReported;
      } else {
        var memory;
        r, memory := Decide(cfg, passes, hist, pass, v.memory);
        v' := v'.(memory := memory);
        if r.Emitted? {
          var hold := if r.event.status.Granted? then cfg.OpenHold() else cfg.DeniedCooldown();
          v' := v'.(blockUntil := pass.sight.gatedAt + hold);
        }
      }
    }
    StaysAccurate(cfg, passes, hist, r, v, v');
  }

  /** The whole run. */
  method MainLoop(cfg: Config, passes: seq<Pass>) returns (log: seq<Reaction>)
    requires ClockRuns(passes)
    ensures |log| == |passes| && Follows(cfg, passes, log)
  {
    log := [];
    var carried := Carried(0, 0, 0, Memory(None, None, 0, 0, false));
    for n := 0 to |passes|
      invariant |log| == n && Follows(cfg, passes, log)
      invariant Accurate(cfg, passes, log, carried)
    {
      var reaction;
      reaction, carried := Turn(cfg, passes, log, passes[n], carried);
      FollowsOn(cfg, passes, log, reaction);
      log := log + [reaction];
    }
  }
}
