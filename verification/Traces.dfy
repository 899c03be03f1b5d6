/** Runs of a transition relation. */
module Traces {

  /** Step n of the trace obeys the relation. */
  ghost predicate Goes<S, E>(next: (S, E, S) -> bool, trace: seq<S>, events: seq<E>, n: int)
    requires 0 <= n < |events| < |trace|
  {
    next(trace[n], events[n], trace[n + 1])
  }

  ghost predicate IsRun<S, E>(next: (S, E, S) -> bool, trace: seq<S>, events: seq<E>) {
    |trace| == |events| + 1 && forall n | 0 <= n < |events| :: Goes(next, trace, events, n)
  }

  lemma RunGoesOn<S, E>(next: (S, E, S) -> bool, trace: seq<S>, events: seq<E>, n: nat, s: S)
    requires n < |events| && |trace| == n + 1 && IsRun(next, trace, events[..n]) && next(trace[n], events[n], s)
    ensures IsRun(next, trace + [s], events[..n + 1])
  {
    var longer, sofar := trace + [s], events[..n + 1];
    forall i | 0 <= i < n + 1 ensures Goes(next, longer, sofar, i) {
      if i < n {
        assert Goes(next, trace, events[..n], i);
      }
    }
  }
}
