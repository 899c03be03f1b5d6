/** What the cosine distance measures: the law of cosines fixes its value. */
module Cosines {
  import opened Basics
  import opened Vectors
  import opened Matching

  /** The squared length of the difference of two vectors. */
  function SquaredGap(a: seq<real>, b: seq<real>): real
    requires |a| == |b|
  {
    if a == [] then 0.0 else
    var n := |a| - 1;
    SquaredGap(a[..n], b[..n]) + (a[n] - b[n]) * (a[n] - b[n])
  }

  lemma SquareOfDifference(x: real, y: real)
    ensures (x - y) * (x - y) == x * x + y * y - 2.0 * (x * y)
  {
  }

  lemma DotUnfolds(a: seq<real>, b: seq<real>)
    requires |a| == |b| > 0
    ensures var n := |a| - 1; Dot(a, b) == Dot(a[..n], b[..n]) + a[n] * b[n]
  {
  }

  lemma {:induction false} GapFromDots(a: seq<real>, b: seq<real>)
    requires |a| == |b|
    ensures SquaredGap(a, b) == Dot(a, a) + Dot(b, b) - 2.0 * Dot(a, b)
  {
    if a == [] {
    } else {
      var n := |a| - 1;
      GapFromDots(a[..n], b[..n]);
      DotUnfolds(a, a);
      DotUnfolds(b, b);
      DotUnfolds(a, b);
      SquareOfDifference(a[n], b[n]);
    }
  }

  /** A distance is finite exactly from the guard on, and then it is this number. */
  lemma DistanceIs(a: Vector, b: Vector, d: real)
    requires |a.xs| == |b.xs|
    ensures Distance(a, b).None? <==> a.norm * b.norm < 0.000000001
    ensures Distance(a, b).Some? ==>
              (Distance(a, b) == Some(d) <==> (a.norm * b.norm) * (1.0 - d) == Dot(a.xs, b.xs))
  {
    var dot, n := Dot(a.xs, b.xs), a.norm * b.norm;
    if n >= 0.000000001 {
      QuotientTimes(dot, n);
      if n * (1.0 - d) == dot {
        QuotientIs(1.0 - d, dot, n);
      }
    }
  }

  lemma QuotientTimes(x: real, y: real)
    requires y != 0.0
    ensures y * (x / y) == x
  {
  }

  /** The law of cosines, with 1 - d for the cosine. */
  lemma LawOfCosines(a: Vector, b: Vector, d: real)
    requires a.Valid() && b.Valid() && |a.xs| == |b.xs| && Distance(a, b) == Some(d)
    ensures SquaredGap(a.xs, b.xs) ==
            a.norm * a.norm + b.norm * b.norm - 2.0 * ((a.norm * b.norm) * (1.0 - d))
  {
    GapFromDots(a.xs, b.xs);
    DistanceIs(a, b, d);
  }

  /** For unit vectors, which is what the embedder yields, the distance is half the squared gap. */
  lemma UnitGap(a: Vector, b: Vector, d: real)
    requires a.Valid() && b.Valid() && |a.xs| == |b.xs| && a.norm == b.norm == 1.0
    ensures Distance(a, b) == Some(d) <==> SquaredGap(a.xs, b.xs) == 2.0 * d
  {
    GapFromDots(a.xs, b.xs);
    DistanceIs(a, b, d);
    assert a.norm * b.norm == 1.0;
  }

  /** Above the guard, exactly orthogonal vectors are at distance 1. */
  lemma OrthogonalAreAtOne(a: Vector, b: Vector)
    requires |a.xs| == |b.xs| && Distance(a, b).Some?
    ensures Distance(a, b) == Some(1.0) <==> Dot(a.xs, b.xs) == 0.0
  {
    DistanceIs(a, b, 1.0);
  }

  /** The vector that points the other way, c times as long. */
  function Opposite(c: real, v: Vector): Vector { Vector(Scale(-c, v.xs), c * v.norm) }

  /** Above the guard, a vector is at distance 2 from its negative multiples. */
  lemma OppositesAreAtTwo(c: real, v: Vector)
    requires c > 0.0 && v.Valid() && Denominator(Opposite(c, v), v) >= DENOMINATOR_GUARD
    ensures |Opposite(c, v).xs| == |v.xs| && Distance(Opposite(c, v), v) == Some(2.0)
  {
    DotScales(-c, v.xs, v.xs);
    DistanceIs(Opposite(c, v), v, 2.0);
    Associate(c, v.norm, v.norm);
    NegativeTimes(c, v.norm * v.norm);
  }

  lemma NegativeTimes(x: real, y: real)
    ensures (x * y) * (1.0 - 2.0) == -x * y
  {
  }

  // ---------------------------------------------------------------------------
  // What a match means.

  /** Embeddings of unit length, as embedder and panel make them. */
  ghost predicate IsUnit(v: Vector) {
    IsEmbeddingVector(v) && v.norm == 1.0
  }

  ghost predicate AllUnits(cache: seq<Embedding>) {
    forall i | 0 <= i < |cache| :: IsUnit(cache[i].vector)
  }

  function GapAt(cache: seq<Embedding>, query: Vector, i: int): real
    requires 0 <= i < |cache| && |query.xs| == |cache[i].vector.xs|
  {
    SquaredGap(query.xs, cache[i].vector.xs)
  }

  /** Entry k is nearest in space, and the first of those. */
  ghost predicate IsClosest(cache: seq<Embedding>, query: Vector, k: int)
    requires AllUnits(cache) && IsUnit(query)
  {
    && 0 <= k < |cache|
    && (forall i | 0 <= i < |cache| :: GapAt(cache, query, k) <= GapAt(cache, query, i))
    && (forall i | 0 <= i < k :: GapAt(cache, query, k) < GapAt(cache, query, i))
  }

  /**
   Among unit vectors a face is recognised exactly if some enrolled point lies closer in space
   than the threshold allows, as the owner of the closest one.
   */
  lemma MatchIsClosest(cache: seq<Embedding>, query: Vector, threshold: real, r: Option<Match>)
    requires AllUnits(cache) && IsUnit(query)
    requires Comparable(cache, query) && Answers(cache, query, threshold, r)
    ensures r.Some? <==> exists i :: 0 <= i < |cache| && GapAt(cache, query, i) < 2.0 * threshold
    ensures r.Some? ==> exists k :: IsClosest(cache, query, k)
                          && r.value.employee == cache[k].owner && 2.0 * r.value.distance == GapAt(cache, query, k)
  {
    forall i | 0 <= i < |cache|
      ensures DistanceAt(cache, query, i) == Some(GapAt(cache, query, i) / 2.0)
    {
      UnitGap(query, cache[i].vector, GapAt(cache, query, i) / 2.0);
    }
    hide Distance, SquaredGap, IsUnit;
    if r.Some? {
      var k :| IsNearest(cache, query, k) && r.value == Match(cache[k].owner, DistanceAt(cache, query, k).value);
      assert GapAt(cache, query, k) < 2.0 * threshold;
      assert IsClosest(cache, query, k);
    }
  }
}
