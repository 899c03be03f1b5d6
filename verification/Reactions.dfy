/**
 When a pass is gated, when a match is silent and what an event says, told by the log and
 the passes alone.
 */
module Reactions {
  import opened Basics
  import opened Streaks
  import opened Matching
  import opened MainLoop
  import opened Runs

  // ---------------------------------------------------------------------------
  // The block window.

  /** Event j came before pass i, and its window lasts beyond the head of pass i. */
  ghost predicate Blocks(cfg: Config, passes: seq<Pass>, log: seq<Reaction>, j: int, i: int)
    requires |log| <= |passes|
  {
    && 0 <= j < i < |log| && log[j].Emitted?
    && passes[i].start < passes[j].GatedAt() +
         (if log[j].event.status.Granted? then cfg.openHoldMs else cfg.deniedCooldownMs) * MILLISECOND
  }

  /** A pass is gated exactly inside the window of some earlier event. */
  lemma GatedIff(cfg: Config, passes: seq<Pass>, log: seq<Reaction>, i: nat)
    requires Sane(cfg) && ClockRuns(passes) && Follows(cfg, passes, log) && i < |log|
    ensures log[i].Gated? <==> exists j :: Blocks(cfg, passes, log, j, i)
  {
    assert ReactsAsExpected(cfg, passes, log, i);
    if log[i].Gated? {
      assert Blocks(cfg, passes, log, LastEmitted(log[..i]), i);
    } else {
      forall j | 0 <= j < i && log[j].Emitted? ensures !Blocks(cfg, passes, log, j, i) {
        NothingInsideAnyWindow(cfg, passes, log, j, i);
      }
    }
  }

  // ---------------------------------------------------------------------------
  // Matches.

  /** Pass p is the last one before pass i that reached the matcher. */
  ghost predicate IsPreviousMatch(log: seq<Reaction>, p: int, i: int) {
    0 <= p < i <= |log| && log[p].Processed() && forall k | p < k < i :: !log[k].Processed()
  }

  /** Pass e announced the last event before pass i. */
  ghost predicate IsLatestEvent(log: seq<Reaction>, e: int, i: int) {
    0 <= e < i <= |log| && log[e].Emitted? && forall k | e < k < i :: !log[k].Emitted?
  }

  /** The two passes saw the same employee, or an unknown face both times. */
  ghost predicate SameFace(p: Pass, q: Pass) {
    && p.sight.Face? && q.sight.Face?
    && match (p.sight.best, q.sight.best) {
         case (Some(m), Some(n)) => m.employee == n.employee
         case (None, None) => true
         case _ => false
       }
  }

  lemma {:induction false} LastProcessedIs(log: seq<Reaction>, p: int)
    requires IsPreviousMatch(log, p, |log|)
    ensures LastProcessed(log) == p
  {
    if p == |log| - 1 {
    } else {
      LastProcessedIs(log[..|log| - 1], p);
    }
  }

  lemma {:induction false} LastEmittedIs(log: seq<Reaction>, e: int)
    requires IsLatestEvent(log, e, |log|)
    ensures LastEmitted(log) == e
  {
    if e == |log| - 1 {
    } else {
      LastEmittedIs(log[..|log| - 1], e);
    }
  }

  lemma LatestBefore(log: seq<Reaction>, p: int, e: int, i: int)
    requires IsPreviousMatch(log, p, i) && IsLatestEvent(log, e, i)
    ensures LastProcessed(log[..i]) == p && LastEmitted(log[..i]) == e
  {
    LastProcessedIs(log[..i], p);
    LastEmittedIs(log[..i], e);
  }

  /**
   A match is silent exactly if the previous match saw the same face, no longer than
   idle_reset ago, and, if the face is unknown, the latest event is younger than the throttle.
   */
  lemma MatchIsSilentIff(cfg: Config, passes: seq<Pass>, log: seq<Reaction>, p: int, e: int, i: nat)
    requires Follows(cfg, passes, log) && i < |log| && log[i].Processed()
    requires IsPreviousMatch(log, p, i) && IsLatestEvent(log, e, i)
    ensures log[i].Silent? <==>
            && SameFace(passes[p], passes[i])
            && passes[i].Current() - passes[p].Current() <= cfg.idleResetS * SECOND
            && (passes[i].sight.best.None? ==>
                  passes[i].Current() - passes[e].Current() < cfg.unknownThrottleS * SECOND)
  {
    LatestBefore(log, p, e, i);
    EventsReportTheirPass(cfg, passes, log, i);
    EventsReportTheirPass(cfg, passes, log, p);
  }

  /** An unknown face that stays in view is announced again when the throttle has run. */
  lemma UnknownIsAnnouncedAgain(cfg: Config, passes: seq<Pass>, log: seq<Reaction>, e: int, i: nat)
    requires Follows(cfg, passes, log) && i < |log| && log[i].Processed()
    requires passes[i].sight.Face? && passes[i].sight.best.None?
    requires IsLatestEvent(log, e, i)
    requires passes[i].Current() - passes[e].Current() >= cfg.unknownThrottleS * SECOND
    ensures log[i].Emitted?
  {
    LastEmittedIs(log[..i], e);
    EventsReportTheirPass(cfg, passes, log, i);
  }

  /** A face seen for the first time is announced. */
  lemma FirstMatchIsAnnounced(cfg: Config, passes: seq<Pass>, log: seq<Reaction>, i: nat)
    requires Follows(cfg, passes, log) && i < |log| && log[i].Processed()
    requires forall k | 0 <= k < i :: !log[k].Processed()
    ensures log[i].Emitted?
  {
    EventsReportTheirPass(cfg, passes, log, i);
  }

  /** Event e is the newest up to pass i, and reports an unknown face less than the throttle ago. */
  ghost predicate ReportedUnknown(cfg: Config, passes: seq<Pass>, log: seq<Reaction>, e: int, i: int)
    requires |log| <= |passes|
  {
    && 0 <= e <= i < |log| && log[e].Emitted? && log[e].event.status.Unknown?
    && passes[i].Current() - passes[e].Current() < cfg.unknownThrottleS * SECOND
    && forall k | e < k <= i :: !log[k].Emitted?
  }

  /** Whenever an unknown face is matched, the newest event says so and is younger than the throttle. */
  lemma UnknownIsReportedInTime(cfg: Config, passes: seq<Pass>, log: seq<Reaction>, i: nat)
    requires Follows(cfg, passes, log) && i < |log| && log[i].Processed() && cfg.unknownThrottleS > 0
    requires passes[i].sight.Face? && passes[i].sight.best.None?
    ensures exists e :: ReportedUnknown(cfg, passes, log, e, i)
  {
    EventsReportTheirPass(cfg, passes, log, i);
    if log[i].Emitted? {
      assert ReportedUnknown(cfg, passes, log, i, i);
    } else {
      FollowsPrefix(cfg, passes, log, i);
      NewestEventNamesTheDecision(cfg, passes, log[..i]);
      var e := LastEmitted(log[..i]);
      forall k | e < k < i ensures !log[k].Emitted? {
        if log[k].Emitted? {
          LastEmittedIsLatest(log[..i], k);
          assert false;
        }
      }
      assert ReportedUnknown(cfg, passes, log, e, i);
    }
  }

  /** What an event says: the stamp of its pass, and the match with its distance or an unknown face. */
  lemma EventTells(cfg: Config, passes: seq<Pass>, log: seq<Reaction>, i: nat)
    requires Follows(cfg, passes, log) && i < |log| && log[i].Emitted?
    ensures passes[i].sight.Face? && log[i].event.stamp == passes[i].sight.stamp
    ensures match passes[i].sight.best {
              case Some(m) => log[i].event.status == Granted && log[i].event.employee == Some(m.employee)
                              && log[i].event.distance == Some(m.distance)
              case None => log[i].event.status == Unknown && log[i].event.employee == None
                           && log[i].event.distance == None
            }
  {
    EventsReportTheirPass(cfg, passes, log, i);
  }

  // ---------------------------------------------------------------------------
  // Settling.

  /** Pass k detected a face. */
  ghost predicate Detects(passes: seq<Pass>, log: seq<Reaction>, k: int)
    requires |log| <= |passes|
  {
    0 <= k < |log| && !log[k].Gated? && (passes[k].sight.Face? || passes[k].sight.NoEmbedding?)
  }

  /** A face was detected at most the grace before pass m, by pass a or a later one. */
  ghost predicate Joined(passes: seq<Pass>, log: seq<Reaction>, a: int, m: int)
    requires |log| <= |passes| && 0 <= m < |log|
  {
    exists k :: a <= k < m && Detects(passes, log, k)
                && passes[m].DetectedAt() - passes[k].DetectedAt() <= STREAK_GAP_GRACE
  }

  /** From pass a to pass i no detection came more than the grace after the one before. */
  ghost predicate SeenSince(passes: seq<Pass>, log: seq<Reaction>, a: int, i: int)
    requires |log| <= |passes|
  {
    && Detects(passes, log, a) && Detects(passes, log, i) && a <= i && passes[a].DetectedAt() > 0
    && forall m | a < m <= i && Detects(passes, log, m) :: Joined(passes, log, a, m)
  }

  /** Pass m is behind this detection time. */
  ghost predicate Behind(passes: seq<Pass>, log: seq<Reaction>, m: nat, t: Time)
    requires |log| <= |passes|
  {
    Detects(passes, log, m) && passes[m].DetectedAt() == t
  }

  /** idx are the passes behind the detection times ts among the first n passes, in order. */
  ghost predicate Indexes(idx: seq<nat>, passes: seq<Pass>, log: seq<Reaction>, n: nat, ts: seq<Time>)
    requires n <= |log| <= |passes|
  {
    && |idx| == |ts|
    && (forall k | 0 <= k < |idx| :: idx[k] < n && Behind(passes, log, idx[k], ts[k]))
    && (forall j, k | 0 <= j < k < |idx| :: idx[j] < idx[k])
    && (forall m | 0 <= m < n && Detects(passes, log, m) :: m in idx)
  }

  lemma IndexesGrow(idx: seq<nat>, passes: seq<Pass>, log: seq<Reaction>, n: nat, ts: seq<Time>)
    requires n < |log| <= |passes| && Indexes(idx, passes, log, n, ts)
    ensures !Detects(passes, log, n) ==> Indexes(idx, passes, log, n + 1, ts)
    ensures Detects(passes, log, n) ==> Indexes(idx + [n], passes, log, n + 1, ts + [passes[n].DetectedAt()])
  {
    hide Detects;
  }

  lemma OneMoreDetected(passes: seq<Pass>, log: seq<Reaction>, n: nat)
    requires n < |log| <= |passes|
    ensures DetectionTimes(passes, log[..n + 1]) ==
            if Detects(passes, log, n) then DetectionTimes(passes, log[..n]) + [passes[n].DetectedAt()]
            else DetectionTimes(passes, log[..n])
  {
    hide DetectionTimes;
    DetectionsGrow(passes, log[..n], log[n]);
    assert log[..n + 1] == log[..n] + [log[n]];
  }

  lemma {:induction false} IndexesExist(passes: seq<Pass>, log: seq<Reaction>, n: nat) returns (idx: seq<nat>)
    requires n <= |log| <= |passes|
    ensures Indexes(idx, passes, log, n, DetectionTimes(passes, log[..n]))
  {
    if n == 0 {
      idx := [];
    } else {
      hide *;
      idx := IndexesExist(passes, log, n - 1);
      OneMoreDetected(passes, log, n - 1);
      IndexesGrow(idx, passes, log, n - 1, DetectionTimes(passes, log[..n - 1]));
      if Detects(passes, log, n - 1) {
        idx := idx + [n - 1];
      }
    }
  }

  lemma {:induction false} UnbrokenIsSeen(passes: seq<Pass>, log: seq<Reaction>, i: nat, idx: seq<nat>, ts: seq<Time>,
                                          k: nat)
    requires i < |log| <= |passes| && Detects(passes, log, i)
    requires Indexes(idx, passes, log, i + 1, ts) && k < |idx| && Unbroken(ts, k)
    ensures SeenSince(passes, log, idx[k], i)
  {
    assert Behind(passes, log, idx[k], ts[k]) && idx[k] <= i;
    forall m | idx[k] < m <= i && Detects(passes, log, m) ensures Joined(passes, log, idx[k], m) {
      var j :| 0 <= j < |idx| && idx[j] == m;
      assert j > k && Close(ts, j);
      assert Behind(passes, log, idx[j], ts[j]) && Behind(passes, log, idx[j - 1], ts[j - 1]);
      assert idx[k] <= idx[j - 1] < m;
    }
  }

  lemma JoinedIsClose(passes: seq<Pass>, log: seq<Reaction>, i: nat, idx: seq<nat>, ts: seq<Time>, k: nat, j: nat)
    requires i < |log| <= |passes| && Indexes(idx, passes, log, i + 1, ts) && Ascending(ts)
    requires k < j < |idx| && Joined(passes, log, idx[k], idx[j])
    ensures Close(ts, j)
  {
    var l :| idx[k] <= l < idx[j] && Detects(passes, log, l)
             && passes[idx[j]].DetectedAt() - passes[l].DetectedAt() <= STREAK_GAP_GRACE;
    var j' :| 0 <= j' < |idx| && idx[j'] == l;
    assert Behind(passes, log, idx[j], ts[j]) && Behind(passes, log, idx[j'], ts[j']);
    assert j' <= j - 1 && ts[j'] <= ts[j - 1];
  }

  lemma {:induction false} SeenIsUnbroken(passes: seq<Pass>, log: seq<Reaction>, i: nat, idx: seq<nat>, ts: seq<Time>,
                                          k: nat)
    requires i < |log| <= |passes| && Indexes(idx, passes, log, i + 1, ts) && Ascending(ts)
    requires k < |idx| && SeenSince(passes, log, idx[k], i)
    ensures Unbroken(ts, k)
  {
    assert Behind(passes, log, idx[k], ts[k]);
    forall j | k < j < |ts| ensures Close(ts, j) {
      assert Behind(passes, log, idx[j], ts[j]) && idx[k] < idx[j] <= i;
      assert Joined(passes, log, idx[k], idx[j]);
      hide Joined, Indexes, Close;
      JoinedIsClose(passes, log, i, idx, ts, k, j);
    }
  }

  /** A face was seen from pass a to pass i without a break, for as long as it takes to be stable. */
  ghost predicate StableSince(cfg: Config, passes: seq<Pass>, log: seq<Reaction>, a: int, i: int)
    requires 0 <= i < |log| <= |passes|
  {
    && SeenSince(passes, log, a, i)
    && passes[i].DetectedAt() - passes[a].DetectedAt() >= cfg.faceStabilizationMs * MILLISECOND
  }

  /** The streaks in the list of detections are those among the passes. */
  lemma {:induction false} StreaksAreSeen(cfg: Config, passes: seq<Pass>, log: seq<Reaction>, i: nat)
    requires i < |log| <= |passes| && ClockRuns(passes) && Detects(passes, log, i) && cfg.faceStabilizationMs > 0
    ensures DetectionTimes(passes, log[..i + 1]) != []
    ensures Stable(cfg.Stabilization(), DetectionTimes(passes, log[..i + 1]))
            <==> exists a :: StableSince(cfg, passes, log, a, i)
  {
    var ts := DetectionTimes(passes, log[..i + 1]);
    var idx := IndexesExist(passes, log, i + 1);
    DetectionsAreAscending(passes, log[..i + 1]);
    hide DetectionTimes, ClockRuns, SeenSince;
    LastIsLatest(passes, log, i, idx, ts);
    if Stable(cfg.Stabilization(), ts) {
      var k :| Unbroken(ts, k) && ts[|ts| - 1] - ts[k] >= cfg.Stabilization();
      hide Unbroken;
      UnbrokenIsSeen(passes, log, i, idx, ts, k);
      assert Behind(passes, log, idx[k], ts[k]);
      assert StableSince(cfg, passes, log, idx[k], i);
    }
    if a :| StableSince(cfg, passes, log, a, i) {
      SeesAtStart(passes, log, a, i);
      var k :| 0 <= k < |idx| && idx[k] == a;
      assert Behind(passes, log, idx[k], ts[k]);
      SeenIsUnbroken(passes, log, i, idx, ts, k);
    }
  }

  lemma SeesAtStart(passes: seq<Pass>, log: seq<Reaction>, a: int, i: int)
    requires |log| <= |passes| && SeenSince(passes, log, a, i)
    ensures Detects(passes, log, a) && a <= i
  {
  }

  lemma {:induction false} LastIsLatest(passes: seq<Pass>, log: seq<Reaction>, i: nat, idx: seq<nat>, ts: seq<Time>)
    requires i < |log| <= |passes| && Detects(passes, log, i) && Indexes(idx, passes, log, i + 1, ts)
    ensures idx != [] && idx[|idx| - 1] == i && Behind(passes, log, i, ts[|ts| - 1])
  {
    var k :| 0 <= k < |idx| && idx[k] == i;
    assert Behind(passes, log, idx[|idx| - 1], ts[|ts| - 1]);
  }

  /** A detected face only settles exactly if it has not been seen without a break for long enough. */
  lemma {:induction false} SettlesIff(cfg: Config, passes: seq<Pass>, log: seq<Reaction>, i: nat)
    requires ClockRuns(passes) && Follows(cfg, passes, log) && i < |log| && Detects(passes, log, i)
    ensures log[i].Settling? <==>
            cfg.faceStabilizationMs > 0 && forall a :: !StableSince(cfg, passes, log, a, i)
  {
    assert ReactsAsExpected(cfg, passes, log, i);
    DetectionsGrow(passes, log[..i], log[i]);
    assert log[..i + 1] == log[..i] + [log[i]];
    hide DetectionTimes, StableSince, ClockRuns, EventIsDue, Follows;
    if cfg.faceStabilizationMs > 0 {
      StreaksAreSeen(cfg, passes, log, i);
      hide Stable;
    }
  }

  /** A pass that gets by the gate: without a face nothing is seen; a failed embedding is reported once settled. */
  lemma ReactionTellsSight(cfg: Config, passes: seq<Pass>, log: seq<Reaction>, i: nat)
    requires Follows(cfg, passes, log) && i < |log| && !log[i].Gated?
    ensures log[i].NothingSeen? <==> passes[i].sight.NoFrame? || passes[i].sight.NoFace?
    ensures log[i].FaultReported? <==> passes[i].sight.NoEmbedding? && !log[i].Settling?
    ensures log[i].Processed() <==> passes[i].sight.Face? && !log[i].Settling?
  {
    assert ReactsAsExpected(cfg, passes, log, i);
  }
}
