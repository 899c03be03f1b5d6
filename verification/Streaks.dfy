/**
 The stabilisation gate of Pipeline::main_loop, seen as a question about the list of
 times at which a face was detected.
 */
module Streaks {
  import opened Basics

  /** kStreakGapGrace: a missed frame or two does not restart a streak. */
  const STREAK_GAP_GRACE: int := 300 * MILLISECOND

  ghost predicate Ascending(ts: seq<Time>) {
    forall i, j | 0 <= i < j < |ts| :: ts[i] <= ts[j]
  }

  function Latest(ts: seq<Time>): Time { if ts == [] then 0 else ts[|ts| - 1] }

  /** At most the grace passed between detection m - 1 and detection m. */
  ghost predicate Close(ts: seq<Time>, m: int)
    requires 0 < m < |ts|
  {
    ts[m] - ts[m - 1] <= STREAK_GAP_GRACE
  }

  /**
   From detection k on, no two consecutive detections are more than the grace apart.
   Detection k must not sit on the clock's epoch, because the program uses the epoch as
   its mark for "no streak yet".
   */
  ghost predicate Unbroken(ts: seq<Time>, k: int) {
    && 0 <= k < |ts|
    && ts[k] > 0
    && forall m | k < m < |ts| :: Close(ts, m)
  }

  /** The latest detection ends an unbroken streak that lasted at least `span`. */
  ghost predicate Stable(span: int, ts: seq<Time>)
    requires ts != []
  {
    span <= 0 || exists k :: Unbroken(ts, k) && ts[|ts| - 1] - ts[k] >= span
  }

  /** What the variable streak_start holds after the detections ts. */
  function StreakStart(ts: seq<Time>): Time {
    if ts == [] then 0 else
    var n := |ts| - 1;
    var before := StreakStart(ts[..n]);
    if before == 0 || ts[n] - ts[n - 1] > STREAK_GAP_GRACE then ts[n] else before
  }

  lemma StreakAppends(ts: seq<Time>, t: Time)
    ensures StreakStart(ts + [t]) ==
            if StreakStart(ts) == 0 || t - Latest(ts) > STREAK_GAP_GRACE then t else StreakStart(ts)
  {
    assert (ts + [t])[..|ts|] == ts;
  }

  lemma StreakGrows(ts: seq<Time>, k: nat)
    requires k < |ts| - 1
    ensures var n := |ts| - 1; Unbroken(ts, k) <==> Unbroken(ts[..n], k) && Close(ts, n)
  {
    var n := |ts| - 1;
    var front := ts[..n];
    assert forall m | 0 < m < n :: Close(front, m) == Close(ts, m);
  }

  lemma {:induction false} StreakStartIsReached(ts: seq<Time>)
    requires ts != [] && Ascending(ts)
    ensures StreakStart(ts) <= Latest(ts)
    ensures StreakStart(ts) == 0 ==> Latest(ts) == 0
    ensures StreakStart(ts) > 0 ==> exists k :: Unbroken(ts, k) && ts[k] == StreakStart(ts)
  {
    var n := |ts| - 1;
    var front := ts[..n];
    if n == 0 {
    } else {
      StreakStartIsReached(front);
    }
    if n == 0 || StreakStart(front) == 0 || !Close(ts, n) {
      assert ts[n] > 0 ==> Unbroken(ts, n);
    } else {
      var k :| Unbroken(front, k) && front[k] == StreakStart(front);
      StreakGrows(ts, k);
      assert Unbroken(ts, k);
    }
  }

  /** streak_start is the time of the earliest detection of the running streak. */
  lemma {:induction false} StreakStartIsEarliest(ts: seq<Time>, k: int)
    requires Ascending(ts) && Unbroken(ts, k)
    ensures StreakStart(ts) <= ts[k]
  {
    var n := |ts| - 1;
    var front := ts[..n];
    if k < n {
      StreakGrows(ts, k);
      StreakStartIsEarliest(front, k);
      StreakStartIsReached(front);
      assert front[k] <= Latest(front);
    } else {
      StreakStartIsReached(ts);
    }
  }

  /** The program's test on streak_start decides stability. */
  lemma GateDecidesStability(span: int, ts: seq<Time>)
    requires ts != [] && Ascending(ts)
    ensures Stable(span, ts) <==> !(span > 0 && ts[|ts| - 1] - StreakStart(ts) < span)
  {
    StreakStartIsReached(ts);
    forall k | Unbroken(ts, k) ensures StreakStart(ts) <= ts[k] {
      StreakStartIsEarliest(ts, k);
    }
  }

  /** A silence longer than the grace cuts every streak: stability must be earned after it. */
  lemma StableAfterSilence(span: int, ts: seq<Time>, cut: nat)
    requires 0 < cut < |ts| && Ascending(ts)
    requires ts[cut] - ts[cut - 1] > STREAK_GAP_GRACE
    requires span >= 0 && Stable(span, ts)
    ensures ts[|ts| - 1] - ts[cut] >= span
  {
    if span > 0 {
      var k :| Unbroken(ts, k) && ts[|ts| - 1] - ts[k] >= span;
      assert !Close(ts, cut);
    }
  }
}
