/**
 The main loop's block window against the turnstile's open window. Both get the same hold
 from the configuration, and the loop calls grant_access before it sets block_until.
 */
module Gate {
  import opened Basics
  import opened MainLoop
  import opened Runs
  import opened Turnstiles

  /** The clock readings of the grants issued so far, in the order issued. */
  function GrantTimes(passes: seq<Pass>, hist: seq<Reaction>): seq<Time>
    requires |hist| <= |passes|
  {
    if hist == [] then [] else
    var n := |hist| - 1;
    GrantTimes(passes, hist[..n]) +
    (if hist[n].Emitted? && hist[n].event.status.Granted? then [passes[n].GrantedAt()] else [])
  }

  lemma GrantsGrow(passes: seq<Pass>, hist: seq<Reaction>, r: Reaction)
    requires |hist| < |passes|
    ensures GrantTimes(passes, hist + [r]) ==
            if r.Emitted? && r.event.status.Granted?
            then GrantTimes(passes, hist) + [passes[|hist|].GrantedAt()]
            else GrantTimes(passes, hist)
  {
    assert (hist + [r])[..|hist|] == hist;
  }

  /** At every loop head the turnstile's window ends no later than the block window. */
  lemma {:induction false} BlockCoversBarrier(cfg: Config, passes: seq<Pass>, log: seq<Reaction>)
    requires Sane(cfg) && ClockRuns(passes) && Follows(cfg, passes, log)
    ensures OpenUntil(GrantTimes(passes, log), cfg.OpenHold()) <= BlockUntil(cfg, passes, log)
  {
    if log == [] {
    } else {
      var n := |log| - 1;
      FollowsPrefix(cfg, passes, log, n);
      BlockCoversBarrier(cfg, passes, log[..n]);
      assert ReactsAsExpected(cfg, passes, log, n);
      assert log == log[..n] + [log[n]];
      WindowFollowsEvents(cfg, passes, log[..n], log[n]);
      GrantsGrow(passes, log[..n], log[n]);
      if log[n].Emitted? {
        EventsReportTheirPass(cfg, passes, log, n);
        assert passes[n].Ordered();
        OneMoreGrant(GrantTimes(passes, log[..n]), passes[n].GrantedAt(), cfg.OpenHold());
      }
    }
  }

  /**
   So no frame is captured while any granted window is open: from the moment a pass gets by
   the gate, every window granted before it is over.
   */
  lemma NoCaptureWhileOpen(cfg: Config, passes: seq<Pass>, log: seq<Reaction>, i: nat, t: Time)
    requires Sane(cfg) && ClockRuns(passes) && Follows(cfg, passes, log)
    requires i < |log| && !log[i].Gated? && t >= passes[i].start
    ensures !InSomeWindow(GrantTimes(passes, log[..i]), cfg.OpenHold(), t)
  {
    var grants := GrantTimes(passes, log[..i]);
    FollowsPrefix(cfg, passes, log, i);
    BlockCoversBarrier(cfg, passes, log[..i]);
    assert ReactsAsExpected(cfg, passes, log, i);
    OpenUntilIsMaximum(grants, cfg.OpenHold());
    forall k ensures !Covers(grants, cfg.OpenHold(), k, t) {
    }
  }

  /** The windows the loop grants never overlap, so the turnstile never has one to extend. */
  lemma {:induction false} GrantedWindowsAreDisjoint(cfg: Config, passes: seq<Pass>, log: seq<Reaction>)
    requires Sane(cfg) && ClockRuns(passes) && Follows(cfg, passes, log)
    ensures var gs := GrantTimes(passes, log);
            forall a, b | 0 <= a < b < |gs| :: gs[a] + cfg.OpenHold() <= gs[b]
  {
    if log == [] {
    } else {
      var n := |log| - 1;
      FollowsPrefix(cfg, passes, log, n);
      GrantedWindowsAreDisjoint(cfg, passes, log[..n]);
      if log[n].Emitted? {
        FollowsPrefix(cfg, passes, log, n);
        BlockCoversBarrier(cfg, passes, log[..n]);
        OpenUntilIsMaximum(GrantTimes(passes, log[..n]), cfg.OpenHold());
        assert ReactsAsExpected(cfg, passes, log, n);
        EventsReportTheirPass(cfg, passes, log, n);
        assert passes[n].Ordered();
      }
    }
  }
}
