/**
 When normalising a query changes what the matcher answers: exactly if an entry that the
 guard hides from one form of the query, and not from the other, gets to be the nearest.
 */
module Normalization {
  import opened Basics
  import opened Vectors
  import opened Matching

  // ---------------------------------------------------------------------------
  // Lists of distances, one for each form of the query.

  type Distances = seq<Option<real>>

  /** What best_distance makes of a list of distances. */
  ghost predicate IsLeast(ds: Distances, best: Option<Option<real>>) {
    match best
    case None => ds == []
    case Some(d) =>
      && ds != []
      && (forall i | 0 <= i < |ds| :: !Less(ds[i], d))
      && (d.Some? ==> exists k :: Holds(ds, k, d))
  }

  ghost predicate Holds(ds: Distances, k: int, d: Option<real>) {
    0 <= k < |ds| && ds[k] == d
  }

  /** Entry k has the least distance, and no earlier entry has the same. */
  ghost predicate IsFirstLeast(ds: Distances, k: int) {
    && 0 <= k < |ds| && ds[k].Some?
    && (forall i | 0 <= i < k :: Less(ds[k], ds[i]))
    && (forall i | k <= i < |ds| :: !Less(ds[i], ds[k]))
  }

  /** The guard hides entries in the first list only. */
  ghost predicate Hides(ds: Distances, es: Distances) {
    |ds| == |es| && forall i | 0 <= i < |ds| :: ds[i] == es[i] || (ds[i].None? && es[i].Some?)
  }

  /** Entry j is in both lists at distance x or nearer. */
  ghost predicate Covers(ds: Distances, es: Distances, j: int, x: Option<real>) {
    0 <= j < |ds| == |es| && ds[j] == es[j] && ds[j].Some? && !Less(x, ds[j])
  }

  function Either(d: Option<real>, e: Option<real>): Option<real> { if d.Some? then d else e }

  /** No entry in only one list is nearer than every entry in both. */
  ghost predicate OthersAreAsNear(ds: Distances, es: Distances) {
    forall i | 0 <= i < |ds| && i < |es| && ds[i] != es[i] :: exists j :: Covers(ds, es, j, Either(ds[i], es[i]))
  }

  lemma LeastIsKept(ds: Distances, es: Distances, best: Option<Option<real>>, best': Option<Option<real>>)
    requires Hides(ds, es) && IsLeast(ds, best) && IsLeast(es, best')
    ensures best == best' <==> OthersAreAsNear(ds, es)
  {
    if best == best' {
      forall i | 0 <= i < |ds| && ds[i] != es[i] ensures exists j :: Covers(ds, es, j, Either(ds[i], es[i])) {
        assert Either(ds[i], es[i]) == es[i] && !Less(es[i], best.value);
        var j :| Holds(ds, j, best.value);
        assert ds[j] == es[j];
        assert Covers(ds, es, j, es[i]);
      }
    }
    if OthersAreAsNear(ds, es) && ds != [] {
      if best'.value.Some? {
        var k :| Holds(es, k, best'.value);
        if ds[k] != es[k] {
          var j :| Covers(ds, es, j, Either(ds[k], es[k]));
        }
      }
      if best.value.Some? {
        var k :| Holds(ds, k, best.value);
      }
    }
  }

  lemma FirstLeastExists(ds: Distances, x: int) returns (k: int)
    requires 0 <= x < |ds| && ds[x].Some?
    ensures IsFirstLeast(ds, k)
  {
    k := FirstLeastUpTo(ds, |ds|, x);
  }

  lemma {:induction false} FirstLeastUpTo(ds: Distances, n: nat, x: int) returns (k: int)
    requires 0 <= x < n <= |ds| && ds[x].Some?
    ensures 0 <= k < n && ds[k].Some?
    ensures forall i | 0 <= i < k :: Less(ds[k], ds[i])
    ensures forall i | k <= i < n :: !Less(ds[i], ds[k])
  {
    if y :| 0 <= y < n - 1 && ds[y].Some? {
      k := FirstLeastUpTo(ds, n - 1, y);
      if Less(ds[n - 1], ds[k]) {
        k := n - 1;
      }
    } else {
      k := n - 1;
    }
  }

  // ---------------------------------------------------------------------------
  // The matcher.

  function DistancesOf(cache: seq<Embedding>, query: Vector): Distances
    requires Comparable(cache, query)
  {
    seq(|cache|, i requires 0 <= i < |cache| && Comparable(cache, query) => DistanceAt(cache, query, i))
  }

  lemma ListsTellAll(cache: seq<Embedding>, query: Vector, best: Option<Option<real>>)
    requires Comparable(cache, query)
    ensures IsBest(cache, query, best) <==> IsLeast(DistancesOf(cache, query), best)
    ensures forall k :: IsNearest(cache, query, k) <==> IsFirstLeast(DistancesOf(cache, query), k)
  {
    hide DistanceAt;
    var ds := DistancesOf(cache, query);
    assert forall i | 0 <= i < |cache| :: ds[i] == DistanceAt(cache, query, i);
    if best.Some? && best.value.Some? {
      if k :| 0 <= k < |cache| && DistanceAt(cache, query, k) == best.value {
        assert Holds(ds, k, best.value);
      }
    }
  }

  lemma NormalizedDenominator(query: Vector, v: Vector)
    requires query.norm > 0.0 && v.norm >= 0.0
    ensures Denominator(Normalized(query), v) == v.norm
    ensures query.norm <= 1.0 ==> Denominator(query, v) <= v.norm
    ensures query.norm >= 1.0 ==> Denominator(query, v) >= v.norm
  {
    InverseTimes(query.norm);
    ProductsCompare(query.norm, v.norm);
  }

  lemma ProductsCompare(n: real, x: real)
    requires x >= 0.0
    ensures n <= 1.0 ==> n * x <= x
    ensures n >= 1.0 ==> n * x >= x
  {
  }

  /** All entries that cross the guard cross it the same way. */
  lemma FormsHide(cache: seq<Embedding>, query: Vector)
    requires Usable(cache) && Comparable(cache, query) && query.norm > 0.0
    ensures var ds, es := DistancesOf(cache, query), DistancesOf(cache, Normalized(query));
            && (query.norm <= 1.0 ==> Hides(ds, es)) && (query.norm >= 1.0 ==> Hides(es, ds))
            && forall i | 0 <= i < |cache| :: ds[i] == es[i] <==> StaysOnItsSide(query, cache[i].vector)
  {
    var ds, es := DistancesOf(cache, query), DistancesOf(cache, Normalized(query));
    forall i | 0 <= i < |cache|
      ensures ds[i] == es[i] <==> StaysOnItsSide(query, cache[i].vector)
      ensures ds[i] == es[i] || (if query.norm <= 1.0 then ds[i].None? && es[i].Some? else es[i].None? && ds[i].Some?)
      ensures query.norm == 1.0 ==> ds[i] == es[i]
    {
      EntryCrosses(query, cache[i].vector);
    }
  }

  lemma EntryCrosses(query: Vector, v: Vector)
    requires v.Valid() && |query.xs| == |v.xs| && query.norm > 0.0
    ensures var d, e := Distance(query, v), Distance(Normalized(query), v);
            && (d == e <==> StaysOnItsSide(query, v))
            && (d == e || (if query.norm <= 1.0 then d.None? && e.Some? else e.None? && d.Some?))
            && (query.norm == 1.0 ==> d == e)
  {
    NormalizationKeepsDistance(query, v);
    NormalizedDenominator(query, v);
    hide Normalized;
  }

  /** The distance of entry i to the form of the query that has one. */
  function NearestForm(cache: seq<Embedding>, query: Vector, i: int): Option<real>
    requires Comparable(cache, query) && query.norm > 0.0 && 0 <= i < |cache|
  {
    Either(DistanceAt(cache, query, i), DistanceAt(cache, Normalized(query), i))
  }

  /** Entry j stays on its side of the guard and is at distance x or nearer. */
  ghost predicate StaysWithin(cache: seq<Embedding>, query: Vector, j: int, x: Option<real>)
    requires Comparable(cache, query) && query.norm > 0.0
  {
    && 0 <= j < |cache| && StaysOnItsSide(query, cache[j].vector)
    && DistanceAt(cache, query, j).Some? && !Less(x, DistanceAt(cache, query, j))
  }

  /** No entry that crosses the guard is nearer than all that stay. */
  ghost predicate CrossersAreNotNearer(cache: seq<Embedding>, query: Vector)
    requires Comparable(cache, query) && query.norm > 0.0
  {
    forall i | 0 <= i < |cache| && !StaysOnItsSide(query, cache[i].vector) ::
      exists j :: StaysWithin(cache, query, j, NearestForm(cache, query, i))
  }

  lemma ConditionsAgree(cache: seq<Embedding>, query: Vector)
    requires Usable(cache) && Comparable(cache, query) && query.norm > 0.0
    ensures var ds, es := DistancesOf(cache, query), DistancesOf(cache, Normalized(query));
            && (CrossersAreNotNearer(cache, query) <==> OthersAreAsNear(ds, es))
            && (OthersAreAsNear(ds, es) <==> OthersAreAsNear(es, ds))
  {
    FormsHide(cache, query);
    var ds, es := DistancesOf(cache, query), DistancesOf(cache, Normalized(query));
    assert forall i | 0 <= i < |cache| ::
      ds[i] == DistanceAt(cache, query, i) && es[i] == DistanceAt(cache, Normalized(query), i);
    hide Normalized, DistanceAt, StaysOnItsSide, DistancesOf;
    forall i, j | 0 <= i < |cache| && ds[i] != es[i]
      ensures StaysWithin(cache, query, j, NearestForm(cache, query, i)) <==> Covers(ds, es, j, Either(ds[i], es[i]))
      ensures Covers(ds, es, j, Either(ds[i], es[i])) <==> Covers(es, ds, j, Either(es[i], ds[i]))
    {
    }
  }

  // ---------------------------------------------------------------------------
  // The exact conditions.

  /**
   Normalising the query keeps the best distance exactly when no entry that crosses the guard
   is nearer than all that stay.
   */
  lemma BestIsKeptIff(cache: seq<Embedding>, query: Vector, best: Option<Option<real>>, best': Option<Option<real>>)
    requires Usable(cache) && Comparable(cache, query) && query.norm > 0.0
    requires IsBest(cache, query, best) && IsBest(cache, Normalized(query), best')
    ensures best == best' <==> CrossersAreNotNearer(cache, query)
  {
    hide Usable, DistancesOf, CrossersAreNotNearer, OthersAreAsNear, Hides, IsLeast, IsBest, Normalized;
    var ds, es := DistancesOf(cache, query), DistancesOf(cache, Normalized(query));
    FormsHide(cache, query);
    ConditionsAgree(cache, query);
    ListsTellAll(cache, query, best);
    ListsTellAll(cache, Normalized(query), best');
    if query.norm <= 1.0 {
      LeastIsKept(ds, es, best, best');
    } else {
      LeastIsKept(es, ds, best', best);
    }
  }

  // ---------------------------------------------------------------------------
  // Answers.

  lemma AnswerExists(cache: seq<Embedding>, query: Vector, threshold: real) returns (r: Option<Match>)
    requires Comparable(cache, query)
    ensures Answers(cache, query, threshold, r)
  {
    var ds := DistancesOf(cache, query);
    ListsTellAll(cache, query, None);
    hide Distance;
    if x :| 0 <= x < |ds| && ds[x].Some? && ds[x].value < threshold {
      var k := FirstLeastExists(ds, x);
      assert IsNearest(cache, query, k) && !Less(ds[x], ds[k]);
      r := Some(Match(cache[k].owner, DistanceAt(cache, query, k).value));
    } else {
      r := None;
      forall i | 0 <= i < |cache| ensures ds[i] == DistanceAt(cache, query, i) {
      }
    }
  }

  lemma BestExists(cache: seq<Embedding>, query: Vector) returns (best: Option<Option<real>>)
    requires Comparable(cache, query)
    ensures IsBest(cache, query, best)
  {
    var ds := DistancesOf(cache, query);
    best := if cache == [] then None else Some(None);
    if x :| 0 <= x < |ds| && ds[x].Some? {
      var k := FirstLeastExists(ds, x);
      best := Some(ds[k]);
      assert Holds(ds, k, ds[k]);
    }
    ListsTellAll(cache, query, best);
  }

  /** Two answers accept alike, at the same distance. */
  predicate Alike(r: Option<Match>, r': Option<Match>) {
    (r.Some? <==> r'.Some?) && (r.Some? ==> r.value.distance == r'.value.distance)
  }

  /** With this threshold both forms of the query are accepted alike. */
  ghost predicate SameVerdict(cache: seq<Embedding>, query: Vector, threshold: real)
    requires Comparable(cache, query) && query.norm > 0.0
  {
    forall r, r' | Answers(cache, query, threshold, r) && Answers(cache, Normalized(query), threshold, r') ::
      Alike(r, r')
  }

  /** A threshold that tells two best distances apart. */
  function Telling(best: Option<Option<real>>, best': Option<Option<real>>): real {
    var d := if best.Some? && best.value.Some? then best.value.value else 0.0;
    var e := if best'.Some? && best'.value.Some? then best'.value.value else 0.0;
    (if d > e then d else e) + 1.0
  }

  /**
   For every threshold the query is accepted alike before and after normalisation, at the same
   distance, exactly when no entry that crosses the guard is nearer than all that stay.
   */
  lemma VerdictsAreKeptIff(cache: seq<Embedding>, query: Vector)
    requires Usable(cache) && Comparable(cache, query) && query.norm > 0.0
    ensures (forall threshold :: SameVerdict(cache, query, threshold)) <==> CrossersAreNotNearer(cache, query)
  {
    hide Usable, CrossersAreNotNearer, Answers, IsBest, Normalized;
    var best := BestExists(cache, query);
    var best' := BestExists(cache, Normalized(query));
    BestIsKeptIff(cache, query, best, best');
    if best == best' {
      forall threshold ensures SameVerdict(cache, query, threshold) {
        forall r, r' | Answers(cache, query, threshold, r) && Answers(cache, Normalized(query), threshold, r')
          ensures Alike(r, r')
        {
          AnswerAgreesWithBest(cache, query, threshold, r, best);
          AnswerAgreesWithBest(cache, Normalized(query), threshold, r', best');
        }
      }
    } else {
      var threshold := Telling(best, best');
      var r := AnswerExists(cache, query, threshold);
      var r' := AnswerExists(cache, Normalized(query), threshold);
      AnswerAgreesWithBest(cache, query, threshold, r, best);
      AnswerAgreesWithBest(cache, Normalized(query), threshold, r', best');
      BothEmptyOrNot(cache, query, best, best');
      assert !Alike(r, r');
      assert !SameVerdict(cache, query, threshold);
    }
  }

  lemma BothEmptyOrNot(cache: seq<Embedding>, query: Vector, best: Option<Option<real>>, best': Option<Option<real>>)
    requires Comparable(cache, query) && query.norm > 0.0
    requires IsBest(cache, query, best) && IsBest(cache, Normalized(query), best')
    ensures best.None? <==> best'.None?
  {
  }

  /** Whichever entries are nearest to the two forms of the query, they belong to one employee. */
  ghost predicate NearestShareOwner(cache: seq<Embedding>, query: Vector)
    requires Comparable(cache, query) && query.norm > 0.0
  {
    forall k, k' | IsNearest(cache, query, k) && IsNearest(cache, Normalized(query), k') ::
      cache[k].owner == cache[k'].owner
  }

  /** The two forms of the query get the same answers. */
  ghost predicate SameAnswer(cache: seq<Embedding>, query: Vector, threshold: real)
    requires Comparable(cache, query) && query.norm > 0.0
  {
    forall r, r' | Answers(cache, query, threshold, r) && Answers(cache, Normalized(query), threshold, r') :: r == r'
  }

  /**
   For every threshold the answer, the employee included, is the same before and after
   normalisation exactly when no entry that crosses the guard is nearer than all that stay,
   and a tie between them is within one employee.
   */
  lemma AnswersAreKeptIff(cache: seq<Embedding>, query: Vector)
    requires Usable(cache) && Comparable(cache, query) && query.norm > 0.0
    ensures (forall threshold :: SameAnswer(cache, query, threshold))
            <==> CrossersAreNotNearer(cache, query) && NearestShareOwner(cache, query)
  {
    VerdictsAreKeptIff(cache, query);
    hide Usable, CrossersAreNotNearer, SameAnswer, SameVerdict, IsNearest, Normalized;
    if forall threshold :: SameAnswer(cache, query, threshold) {
      forall threshold ensures SameVerdict(cache, query, threshold) {
        VerdictAndOwnerMakeAnswer(cache, query, threshold);
      }
      forall k, k' | IsNearest(cache, query, k) && IsNearest(cache, Normalized(query), k')
        ensures 0 <= k < |cache| && 0 <= k' < |cache| && cache[k].owner == cache[k'].owner
      {
        NearestTellOwners(cache, query, k, k');
      }
    }
    if CrossersAreNotNearer(cache, query) && NearestShareOwner(cache, query) {
      forall threshold ensures SameAnswer(cache, query, threshold) {
        VerdictAndOwnerMakeAnswer(cache, query, threshold);
      }
    }
  }

  lemma VerdictAndOwnerMakeAnswer(cache: seq<Embedding>, query: Vector, threshold: real)
    requires Comparable(cache, query) && query.norm > 0.0
    ensures SameAnswer(cache, query, threshold) ==> SameVerdict(cache, query, threshold)
    ensures SameVerdict(cache, query, threshold) && NearestShareOwner(cache, query)
            ==> SameAnswer(cache, query, threshold)
  {
    if SameVerdict(cache, query, threshold) && NearestShareOwner(cache, query) {
      forall r, r' | Answers(cache, query, threshold, r) && Answers(cache, Normalized(query), threshold, r')
        ensures r == r'
      {
        assert Alike(r, r');
        AnswersShareOwner(cache, query, threshold, r, r');
      }
    }
  }

  lemma AnswersShareOwner(cache: seq<Embedding>, query: Vector, threshold: real, r: Option<Match>, r': Option<Match>)
    requires Comparable(cache, query) && query.norm > 0.0 && NearestShareOwner(cache, query) && Alike(r, r')
    requires Answers(cache, query, threshold, r) && Answers(cache, Normalized(query), threshold, r')
    ensures r == r'
  {
    hide Distance, Normalized;
  }

  lemma NearestTellOwners(cache: seq<Embedding>, query: Vector, k: int, k': int)
    requires Comparable(cache, query) && query.norm > 0.0
    requires IsNearest(cache, query, k) && IsNearest(cache, Normalized(query), k')
    requires forall threshold :: SameAnswer(cache, query, threshold)
    ensures 0 <= k < |cache| && 0 <= k' < |cache| && cache[k].owner == cache[k'].owner
  {
    hide Distance, Normalized;
    var d, d' := DistanceAt(cache, query, k).value, DistanceAt(cache, Normalized(query), k').value;
    var threshold := Telling(Some(Some(d)), Some(Some(d')));
    var r, r' := Some(Match(cache[k].owner, d)), Some(Match(cache[k'].owner, d'));
    assert Answers(cache, query, threshold, r) && Answers(cache, Normalized(query), threshold, r');
    assert SameAnswer(cache, query, threshold);
  }
}
