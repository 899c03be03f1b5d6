/** The matcher: nearest enrolled embedding by cosine distance, over an in-memory cache. */
module Matching {
  import opened Basics
  import opened Vectors

  /** EMBEDDING_DIM */
  const EMBEDDING_DIM: nat := 512

  /** Below this product of lengths the distance is infinite. */
  const DENOMINATOR_GUARD: real := 0.000000001

  type EmbeddingId = int

  datatype Embedding = Embedding(id: EmbeddingId, owner: EmployeeId, vector: Vector)

  datatype Match = Match(employee: EmployeeId, distance: real)

  ghost predicate IsEmbeddingVector(v: Vector) {
    v.Valid() && |v.xs| == EMBEDDING_DIM
  }

  ghost predicate Usable(cache: seq<Embedding>) {
    forall i | 0 <= i < |cache| :: IsEmbeddingVector(cache[i].vector)
  }

  // ---------------------------------------------------------------------------
  // Cosine distance. None is the float infinity.

  /** From the dot product and the product of the lengths. */
  function FromCosine(dot: real, denom: real): Option<real> {
    if denom < DENOMINATOR_GUARD then None else Some(1.0 - dot / denom)
  }

  /** The product of the two lengths. */
  function Denominator(a: Vector, b: Vector): real { a.norm * b.norm }

  function Distance(a: Vector, b: Vector): Option<real>
    requires |a.xs| == |b.xs|
  {
    FromCosine(Dot(a.xs, b.xs), Denominator(a, b))
  }

  /** < on floats with infinity. */
  predicate Less(x: Option<real>, y: Option<real>) {
    x.Some? && (y.None? || x.value < y.value)
  }

  function AddProduct(sum: real, x: real, y: real): real { sum + x * y }

  method CosineDistance(a: Vector, b: Vector) returns (d: Option<real>)
    requires IsEmbeddingVector(a) && IsEmbeddingVector(b)
    ensures d == Distance(a, b)
  {
    var dot, normA, normB := 0.0, 0.0, 0.0;
    for i := 0 to EMBEDDING_DIM
      invariant dot == Dot(a.xs[..i], b.xs[..i])
      invariant normA == Dot(a.xs[..i], a.xs[..i]) && normB == Dot(b.xs[..i], b.xs[..i])
    {
      DotGrows(a.xs, b.xs, i, dot);
      DotGrows(a.xs, a.xs, i, normA);
      DotGrows(b.xs, b.xs, i, normB);
      dot := AddProduct(dot, a.xs[i], b.xs[i]);
      normA := AddProduct(normA, a.xs[i], a.xs[i]);
      normB := AddProduct(normB, b.xs[i], b.xs[i]);
    }
    assert a.xs[..EMBEDDING_DIM] == a.xs && b.xs[..EMBEDDING_DIM] == b.xs;
    // The lengths carried by the vectors are the square roots of the two sums.
    assert normA == a.norm * a.norm && normB == b.norm * b.norm;
    assert dot == Dot(a.xs, b.xs);
    d := FromCosine(dot, Denominator(a, b));
  }

  lemma DotGrows(a: seq<real>, b: seq<real>, i: nat, sum: real)
    requires i < |a| == |b| && sum == Dot(a[..i], b[..i])
    ensures AddProduct(sum, a[i], b[i]) == Dot(a[..i + 1], b[..i + 1])
  {
    assert a[..i + 1][..i] == a[..i] && b[..i + 1][..i] == b[..i];
  }

  lemma CosineRange(d: real, n: real)
    requires -n <= d <= n
    ensures FromCosine(d, n).Some? ==> 0.0 <= FromCosine(d, n).value <= 2.0
  {
    if n >= DENOMINATOR_GUARD {
      var q := d / n;
      assert q * n == d;
      if q > 1.0 {
        ProductOfPositives(q - 1.0, n);
      } else if q < -1.0 {
        ProductOfPositives(-1.0 - q, n);
      }
    }
  }

  lemma QuotientIs(q: real, x: real, y: real)
    requires y != 0.0 && q * y == x
    ensures x / y == q
  {
  }

  lemma CosineScales(c: real, d: real, n: real, d': real, n': real)
    requires c > 0.0 && n >= DENOMINATOR_GUARD && n' >= DENOMINATOR_GUARD
    requires d' == c * d && n' == c * n
    ensures FromCosine(d', n') == FromCosine(d, n)
  {
    var q := d / n;
    assert q * n == d;
    Associate(q, c, n);
    Associate(c, q, n);
    QuotientIs(q, c * d, c * n);
  }

  /** Distances lie in the range the configuration accepts for thresholds. */
  lemma DistanceRange(a: Vector, b: Vector)
    requires a.Valid() && b.Valid() && |a.xs| == |b.xs|
    ensures var d := Distance(a, b); d.Some? ==> 0.0 <= d.value <= 2.0
  {
    DotIsBounded(a, b);
    CosineRange(Dot(a.xs, b.xs), Denominator(a, b));
  }

  /** The vector scaled by c, with its length. */
  function Scaled(c: real, v: Vector): (r: Vector)
    ensures |r.xs| == |v.xs|
  {
    Vector(Scale(c, v.xs), c * v.norm)
  }

  lemma Associate(x: real, y: real, z: real)
    ensures (x * y) * z == x * (y * z)
  {
  }

  /** Scaling one vector by a positive factor does not move it, as long as both stay above the guard. */
  lemma DistanceIgnoresLength(c: real, a: Vector, b: Vector)
    requires c > 0.0 && |a.xs| == |b.xs|
    requires Denominator(a, b) >= DENOMINATOR_GUARD && Denominator(Scaled(c, a), b) >= DENOMINATOR_GUARD
    ensures Distance(Scaled(c, a), b) == Distance(a, b)
  {
    Associate(c, a.norm, b.norm);
    DotScales(c, a.xs, b.xs);
    CosineScales(c, Dot(a.xs, b.xs), Denominator(a, b), Dot(Scale(c, a.xs), b.xs), Denominator(Scaled(c, a), b));
  }

  /** A vector is at distance 0 from its positive multiples. */
  lemma MultiplesAreAtZero(c: real, a: Vector)
    requires c > 0.0 && a.Valid()
    requires Denominator(a, a) >= DENOMINATOR_GUARD && Denominator(Scaled(c, a), a) >= DENOMINATOR_GUARD
    ensures Distance(Scaled(c, a), a) == Some(0.0)
  {
    DistanceIgnoresLength(c, a, a);
    var n := a.norm * a.norm;
    assert n / n == 1.0;
  }

  // ---------------------------------------------------------------------------
  // Nearest neighbour.

  function DistanceAt(cache: seq<Embedding>, query: Vector, i: int): Option<real>
    requires 0 <= i < |cache| && |cache[i].vector.xs| == |query.xs|
  {
    Distance(query, cache[i].vector)
  }

  ghost predicate Comparable(cache: seq<Embedding>, query: Vector) {
    forall i | 0 <= i < |cache| :: |cache[i].vector.xs| == |query.xs|
  }

  /** Entry k has the least distance, and no earlier entry has the same. */
  ghost predicate IsNearest(cache: seq<Embedding>, query: Vector, k: int)
    requires Comparable(cache, query)
  {
    && 0 <= k < |cache|
    && DistanceAt(cache, query, k).Some?
    && (forall i | 0 <= i < k :: Less(DistanceAt(cache, query, k), DistanceAt(cache, query, i)))
    && (forall i | k <= i < |cache| :: !Less(DistanceAt(cache, query, i), DistanceAt(cache, query, k)))
  }

  /** What find_match answers: the earliest nearest entry if it is below the threshold. */
  ghost predicate Answers(cache: seq<Embedding>, query: Vector, threshold: real, result: Option<Match>)
    requires Comparable(cache, query)
  {
    match result
    case None => forall i | 0 <= i < |cache| ::
      var d := DistanceAt(cache, query, i); d.Some? ==> d.value >= threshold
    case Some(m) =>
      && m.distance < threshold
      && exists k :: IsNearest(cache, query, k) && m == Match(cache[k].owner, DistanceAt(cache, query, k).value)
  }

  /** What best_distance answers. */
  ghost predicate IsBest(cache: seq<Embedding>, query: Vector, best: Option<Option<real>>)
    requires Comparable(cache, query)
  {
    match best
    case None => cache == []
    case Some(d) =>
      && cache != []
      && (forall i | 0 <= i < |cache| :: !Less(DistanceAt(cache, query, i), d))
      && (d.Some? ==> exists k | 0 <= k < |cache| :: DistanceAt(cache, query, k) == d)
  }

  /** The answer is determined by the cache and the query. */
  lemma AnswerIsUnique(cache: seq<Embedding>, query: Vector, threshold: real, r: Option<Match>, r': Option<Match>)
    requires Comparable(cache, query)
    requires Answers(cache, query, threshold, r) && Answers(cache, query, threshold, r')
    ensures r == r'
  {
    if r.Some? && r'.Some? {
      var k :| IsNearest(cache, query, k) && r.value == Match(cache[k].owner, DistanceAt(cache, query, k).value);
      var k' :| IsNearest(cache, query, k') && r'.value == Match(cache[k'].owner, DistanceAt(cache, query, k').value);
      assert k == k';
    }
  }

  /** find_match accepts exactly when best_distance is finite and below the threshold, at that distance. */
  lemma AnswerAgreesWithBest(cache: seq<Embedding>, query: Vector, threshold: real, r: Option<Match>, best: Option<Option<real>>)
    requires Comparable(cache, query)
    requires Answers(cache, query, threshold, r) && IsBest(cache, query, best)
    ensures r.Some? <==> best.Some? && best.value.Some? && best.value.value < threshold
    ensures r.Some? ==> Some(r.value.distance) == best.value
  {
    if r.Some? {
      var k :| IsNearest(cache, query, k) && r.value == Match(cache[k].owner, DistanceAt(cache, query, k).value);
      assert !Less(DistanceAt(cache, query, k), best.value);
      if best.value.Some? {
        var j :| 0 <= j < |cache| && DistanceAt(cache, query, j) == best.value;
      }
    }
  }

  /** Acceptance and distance do not depend on the order of the cache. */
  lemma AnswerIgnoresOrder(cache: seq<Embedding>, cache': seq<Embedding>, query: Vector, threshold: real,
                           r: Option<Match>, r': Option<Match>)
    requires multiset(cache) == multiset(cache') && Comparable(cache, query)
    requires Answers(cache, query, threshold, r)
    requires Comparable(cache', query) && Answers(cache', query, threshold, r')
    ensures r.Some? <==> r'.Some?
    ensures r.Some? ==> r.value.distance == r'.value.distance
  {
    SameEntries(cache, cache');
    SameEntries(cache', cache);
    AnswerReachesOrder(cache, cache', query, threshold, r, r');
    AnswerReachesOrder(cache', cache, query, threshold, r', r);
  }

  ghost predicate AllIn(cache: seq<Embedding>, cache': seq<Embedding>) {
    forall i | 0 <= i < |cache| :: EntryIn(cache[i], cache')
  }

  ghost predicate EntryIn(e: Embedding, cache: seq<Embedding>) {
    exists j :: 0 <= j < |cache| && cache[j] == e
  }

  lemma SameEntries(cache: seq<Embedding>, cache': seq<Embedding>)
    requires multiset(cache) == multiset(cache')
    ensures AllIn(cache, cache')
  {
    forall i | 0 <= i < |cache| ensures EntryIn(cache[i], cache') {
      assert cache[i] in multiset(cache');
    }
  }

  lemma AnswerReachesOrder(cache: seq<Embedding>, cache': seq<Embedding>, query: Vector, threshold: real,
                           r: Option<Match>, r': Option<Match>)
    requires AllIn(cache, cache') && Comparable(cache, query) && Comparable(cache', query)
    requires Answers(cache, query, threshold, r) && Answers(cache', query, threshold, r')
    ensures r.Some? ==> r'.Some? && r'.value.distance <= r.value.distance
  {
    if r.Some? {
      var k :| IsNearest(cache, query, k) && r.value == Match(cache[k].owner, DistanceAt(cache, query, k).value);
      assert EntryIn(cache[k], cache');
      var j :| 0 <= j < |cache'| && cache'[j] == cache[k];
      assert DistanceAt(cache', query, j) == DistanceAt(cache, query, k);
    }
  }

  /** The sentinel of the evaluation tool: accept all, record the distance, apply the threshold later. */
  const ACCEPT_ALL: real := 999.0

  lemma ThresholdAfterwards(cache: seq<Embedding>, query: Vector, threshold: real, r: Option<Match>, all: Option<Match>)
    requires Comparable(cache, query) && threshold <= ACCEPT_ALL
    requires Answers(cache, query, threshold, r) && Answers(cache, query, ACCEPT_ALL, all)
    ensures r == if all.Some? && all.value.distance < threshold then all else None
  {
    if all.Some? {
      var k :| IsNearest(cache, query, k) && all.value == Match(cache[k].owner, DistanceAt(cache, query, k).value);
      if all.value.distance < threshold {
        AnswerIsUnique(cache, query, threshold, r, all);
      } else {
        assert Answers(cache, query, threshold, None);
        AnswerIsUnique(cache, query, threshold, r, None);
      }
    }
  }

  /** With any valid threshold the sentinel rejects nothing that has a distance at all. */
  lemma SentinelAcceptsAll(cache: seq<Embedding>, query: Vector, all: Option<Match>)
    requires Usable(cache) && IsEmbeddingVector(query) && Comparable(cache, query)
    requires Answers(cache, query, ACCEPT_ALL, all)
    ensures all.None? <==> forall i | 0 <= i < |cache| :: DistanceAt(cache, query, i).None?
  {
    forall i | 0 <= i < |cache|
      ensures DistanceAt(cache, query, i).Some? ==> DistanceAt(cache, query, i).value <= 2.0
    {
      DistanceRange(query, cache[i].vector);
    }
  }

  lemma SameDistancesSameAnswers(cache: seq<Embedding>, q: Vector, q': Vector, threshold: real, r: Option<Match>)
    requires Comparable(cache, q) && Comparable(cache, q')
    requires forall i | 0 <= i < |cache| :: DistanceAt(cache, q, i) == DistanceAt(cache, q', i)
    requires Answers(cache, q, threshold, r)
    ensures Answers(cache, q', threshold, r)
  {
    if r.Some? {
      var k :| IsNearest(cache, q, k) && r.value == Match(cache[k].owner, DistanceAt(cache, q, k).value);
      assert IsNearest(cache, q', k);
    }
  }

  function Normalized(v: Vector): (unit: Vector)
    requires v.norm > 0.0
    ensures |unit.xs| == |v.xs|
  {
    Scaled(1.0 / v.norm, v)
  }

  lemma InverseTimes(n: real)
    requires n > 0.0
    ensures 1.0 / n > 0.0 && (1.0 / n) * n == 1.0
  {
  }

  /** Normalising the query does not move its product of lengths with v across the guard. */
  predicate StaysOnItsSide(query: Vector, v: Vector)
    requires query.norm > 0.0
  {
    Denominator(query, v) >= DENOMINATOR_GUARD <==> Denominator(Normalized(query), v) >= DENOMINATOR_GUARD
  }

  /** Normalising the query keeps a distance exactly when no guard comes between. */
  lemma NormalizationKeepsDistance(query: Vector, v: Vector)
    requires |query.xs| == |v.xs| && query.norm > 0.0
    ensures Distance(Normalized(query), v) == Distance(query, v) <==> StaysOnItsSide(query, v)
  {
    if Denominator(query, v) >= DENOMINATOR_GUARD && Denominator(Normalized(query), v) >= DENOMINATOR_GUARD {
      InverseTimes(query.norm);
      DistanceIgnoresLength(1.0 / query.norm, query, v);
    }
  }

  /** So it changes no answer when that holds for every entry; Normalization has the exact condition. */
  lemma NormalizationKeepsAnswers(cache: seq<Embedding>, query: Vector, threshold: real, r: Option<Match>)
    requires Comparable(cache, query) && query.norm > 0.0
    requires forall i | 0 <= i < |cache| :: StaysOnItsSide(query, cache[i].vector)
    ensures Answers(cache, Normalized(query), threshold, r) <==> Answers(cache, query, threshold, r)
  {
    var unit := Normalized(query);
    forall i | 0 <= i < |cache| ensures DistanceAt(cache, unit, i) == DistanceAt(cache, query, i) {
      NormalizationKeepsDistance(query, cache[i].vector);
    }
    if Answers(cache, unit, threshold, r) {
      SameDistancesSameAnswers(cache, unit, query, threshold, r);
    }
    if Answers(cache, query, threshold, r) {
      SameDistancesSameAnswers(cache, query, unit, threshold, r);
    }
  }

  /** It always holds where embedder and panel leave a vector: the query not refused, the entry of unit length. */
  lemma UnitEntriesStay(query: Vector, v: Vector)
    requires query.norm >= DENOMINATOR_GUARD && v.norm == 1.0
    ensures StaysOnItsSide(query, v)
  {
    InverseTimes(query.norm);
  }

  // A one-entry gallery on which normalising the query does change the answer.

  /** A vector along the last axis. */
  function AlongAxis(x: real): Vector
    requires x >= 0.0
  {
    Vector(seq(EMBEDDING_DIM - 1, i => 0.0) + [x], x)
  }

  lemma {:induction false} ZerosAddNothing(a: seq<real>, b: seq<real>)
    requires |a| == |b| && forall i | 0 <= i < |a| :: a[i] == 0.0
    ensures Dot(a, b) == 0.0
  {
    if a == [] {
    } else {
      ZerosAddNothing(a[..|a| - 1], b[..|b| - 1]);
    }
  }

  lemma AxisIsValid(x: real)
    requires x >= 0.0
    ensures IsEmbeddingVector(AlongAxis(x))
  {
    var n := EMBEDDING_DIM - 1;
    var xs := AlongAxis(x).xs;
    ZerosAddNothing(xs[..n], xs[..n]);
    assert xs[n] == x;
  }

  /** A faint face against itself: as it is, its distance is infinite; normalised, it is a perfect match. */
  lemma NormalizationCanAdmit(id: EmbeddingId, owner: EmployeeId, threshold: real)
    requires threshold > 0.0
    ensures var faint := AlongAxis(0.00001);
            var cache := [Embedding(id, owner, faint)];
            && Usable(cache) && IsEmbeddingVector(faint) && faint.norm >= DENOMINATOR_GUARD
            && Answers(cache, faint, threshold, None)
            && Answers(cache, Normalized(faint), threshold, Some(Match(owner, 0.0)))
  {
    var faint := AlongAxis(0.00001);
    AxisIsValid(0.00001);
    FaintIsAdmitted(faint);
    hide AlongAxis, Normalized, Distance, Answers;
    OneEntryAnswers([Embedding(id, owner, faint)], faint, None, threshold);
    OneEntryAnswers([Embedding(id, owner, faint)], Normalized(faint), Some(0.0), threshold);
  }

  lemma OneEntryAnswers(cache: seq<Embedding>, query: Vector, d: Option<real>, threshold: real)
    requires |cache| == 1 && Comparable(cache, query) && DistanceAt(cache, query, 0) == d
    ensures d.None? ==> Answers(cache, query, threshold, None)
    ensures d.Some? && d.value < threshold ==> Answers(cache, query, threshold, Some(Match(cache[0].owner, d.value)))
  {
    hide Distance;
    if d.Some? {
      assert IsNearest(cache, query, 0);
    }
  }

  lemma FaintIsAdmitted(faint: Vector)
    requires faint.Valid() && faint.norm == 0.00001
    ensures Distance(faint, faint) == None && Distance(Normalized(faint), faint) == Some(0.0)
  {
    var n := faint.norm;
    InverseTimes(n);
    Associate(1.0 / n, n, n);
    DotScales(1.0 / n, faint.xs, faint.xs);
    assert Dot(Scale(1.0 / n, faint.xs), faint.xs) == 1.0 / n * (n * n) == n;
    assert n / n == 1.0;
  }

  /** The normalised query is a unit vector. */
  lemma NormalizedIsUnit(v: Vector)
    requires v.Valid() && v.norm > 0.0
    ensures Normalized(v).Valid() && Normalized(v).norm == 1.0
  {
    InverseTimes(v.norm);
    ScaledIsValid(1.0 / v.norm, v);
  }

  // ---------------------------------------------------------------------------
  // The cache as a table.

  type Table = map<EmbeddingId, Embedding>

  /** The tables agree on one id. */
  ghost predicate SameAt(t: Table, t': Table, id: EmbeddingId) {
    (id in t <==> id in t') && (id in t ==> t[id] == t'[id])
  }

  ghost predicate UniqueIds(cache: seq<Embedding>) {
    forall i, j | 0 <= i < j < |cache| :: cache[i].id != cache[j].id
  }

  /** The cache read as a table; on a repeated id the later entry wins. */
  function AsTable(cache: seq<Embedding>): Table {
    if cache == [] then map[] else
    AsTable(cache[..|cache| - 1])[cache[|cache| - 1].id := cache[|cache| - 1]]
  }

  /** With unique ids the table holds exactly the entries of the cache. */
  lemma {:induction false} TableHoldsEntries(cache: seq<Embedding>)
    requires UniqueIds(cache)
    ensures forall i | 0 <= i < |cache| :: cache[i].id in AsTable(cache) && AsTable(cache)[cache[i].id] == cache[i]
    ensures forall id | id in AsTable(cache) :: exists i :: 0 <= i < |cache| && cache[i].id == id
  {
    if cache == [] {
    } else {
      var n := |cache| - 1;
      TableHoldsEntries(cache[..n]);
      forall id | id in AsTable(cache) ensures exists i :: 0 <= i < |cache| && cache[i].id == id {
        if id != cache[n].id {
          assert id in AsTable(cache[..n]);
          var i :| 0 <= i < |cache[..n]| && cache[..n][i].id == id;
          assert cache[i].id == id;
        }
      }
    }
  }

  /** Caches with the same table give the same verdict, so a restart does not change one. */
  lemma SameTableSameVerdict(cache: seq<Embedding>, cache': seq<Embedding>, query: Vector, threshold: real,
                             r: Option<Match>, r': Option<Match>)
    requires UniqueIds(cache) && UniqueIds(cache') && AsTable(cache) == AsTable(cache')
    requires Comparable(cache, query) && Answers(cache, query, threshold, r)
    requires Comparable(cache', query) && Answers(cache', query, threshold, r')
    ensures r.Some? <==> r'.Some?
    ensures r.Some? ==> r.value.distance == r'.value.distance
  {
    SameTableSameEntries(cache, cache');
    SameTableSameEntries(cache', cache);
    AnswerReachesOrder(cache, cache', query, threshold, r, r');
    AnswerReachesOrder(cache', cache, query, threshold, r', r);
  }

  lemma SameTableSameEntries(cache: seq<Embedding>, cache': seq<Embedding>)
    requires UniqueIds(cache) && UniqueIds(cache') && AsTable(cache) == AsTable(cache')
    ensures AllIn(cache, cache')
  {
    TableHoldsEntries(cache);
    TableHoldsEntries(cache');
    forall i | 0 <= i < |cache| ensures EntryIn(cache[i], cache') {
      var j :| 0 <= j < |cache'| && cache'[j].id == cache[i].id;
    }
  }

  lemma {:induction false} TableKnowsIds(cache: seq<Embedding>, id: EmbeddingId)
    ensures id in AsTable(cache) <==> exists i :: 0 <= i < |cache| && cache[i].id == id
  {
    if cache == [] {
    } else {
      var n := |cache| - 1;
      TableKnowsIds(cache[..n], id);
      if i :| 0 <= i < n && cache[..n][i].id == id {
        assert cache[i].id == id;
      }
      if i :| 0 <= i < n && cache[i].id == id {
        assert cache[..n][i].id == id;
      }
    }
  }

  /** Replacing an entry in place is an update of the table. */
  lemma {:induction false} ReplaceUpdatesTable(cache: seq<Embedding>, k: nat, e: Embedding)
    requires UniqueIds(cache) && k < |cache| && cache[k].id == e.id
    ensures AsTable(cache[k := e]) == AsTable(cache)[e.id := e] && UniqueIds(cache[k := e])
  {
    var n := |cache| - 1;
    if k == n {
      assert cache[k := e][..n] == cache[..n];
    } else {
      ReplaceUpdatesTable(cache[..n], k, e);
      assert cache[k := e][..n] == cache[..n][k := e];
    }
  }

  lemma AppendUpdatesTable(cache: seq<Embedding>, e: Embedding)
    ensures AsTable(cache + [e]) == AsTable(cache)[e.id := e]
  {
    assert (cache + [e])[..|cache|] == cache;
  }

  /** The entries whose id is not `id`, in their order. */
  function Without(cache: seq<Embedding>, id: EmbeddingId): seq<Embedding> {
    if cache == [] then [] else
    var front, last := Without(cache[..|cache| - 1], id), cache[|cache| - 1];
    if last.id == id then front else front + [last]
  }

  lemma RemovalCommutes(t: Table, e: Embedding, id: EmbeddingId)
    ensures e.id == id ==> t[e.id := e] - {id} == t - {id}
    ensures e.id != id ==> t[e.id := e] - {id} == (t - {id})[e.id := e]
  {
  }

  lemma {:induction false} WithoutRemovesFromTable(cache: seq<Embedding>, id: EmbeddingId)
    ensures AsTable(Without(cache, id)) == AsTable(cache) - {id}
  {
    if cache == [] {
    } else {
      var n := |cache| - 1;
      WithoutRemovesFromTable(cache[..n], id);
      RemovalCommutes(AsTable(cache[..n]), cache[n], id);
      AppendUpdatesTable(Without(cache[..n], id), cache[n]);
    }
  }

  lemma {:induction false} WithoutKeepsShape(cache: seq<Embedding>, id: EmbeddingId)
    ensures forall i | 0 <= i < |Without(cache, id)| :: Without(cache, id)[i] in cache && Without(cache, id)[i].id != id
    ensures UniqueIds(cache) ==> UniqueIds(Without(cache, id))
  {
    if cache == [] {
    } else {
      var n := |cache| - 1;
      WithoutKeepsShape(cache[..n], id);
      if UniqueIds(cache) {
        forall i | 0 <= i < |Without(cache[..n], id)|
          ensures Without(cache[..n], id)[i].id != cache[n].id
        {
          var j :| 0 <= j < n && cache[..n][j] == Without(cache[..n], id)[i];
          assert cache[j].id != cache[n].id;
        }
      }
    }
  }

  class Matcher {
    var cache: seq<Embedding>
    const threshold: real

    ghost predicate Valid()
      reads this
    {
      Usable(cache) && UniqueIds(cache)
    }

    constructor (cache: seq<Embedding>, threshold: real)
      requires Usable(cache) && UniqueIds(cache)
      ensures Valid() && this.cache == cache && this.threshold == threshold
    {
      this.cache, this.threshold := cache, threshold;
    }

    method FindMatch(query: Vector) returns (result: Option<Match>)
      requires Valid() && IsEmbeddingVector(query)
      ensures Comparable(cache, query) && Answers(cache, query, threshold, result)
    {
      var best: Option<real>, owner, foundAny := None, 0, false;
      ghost var k := -1;
      for i := 0 to |cache|
        invariant foundAny <==> best.Some?
        invariant foundAny ==> 0 <= k < i && best == DistanceAt(cache, query, k) && owner == cache[k].owner
        invariant foundAny ==> forall j | 0 <= j < k :: Less(best, DistanceAt(cache, query, j))
        invariant forall j | 0 <= j < i :: !Less(DistanceAt(cache, query, j), best)
      {
        var d := CosineDistance(query, cache[i].vector);
        if Less(d, best) {
          best, owner, foundAny := d, cache[i].owner, true;
          k := i;
        }
      }
      if !foundAny || best.value >= threshold {
        return None;
      }
      assert IsNearest(cache, query, k);
      return Some(Match(owner, best.value));
    }

    method BestDistance(query: Vector) returns (best: Option<Option<real>>)
      requires Valid() && IsEmbeddingVector(query)
      ensures Comparable(cache, query) && IsBest(cache, query, best)
    {
      if cache == [] {
        return None;
      }
      var d: Option<real> := None;
      for i := 0 to |cache|
        invariant forall j | 0 <= j < i :: !Less(DistanceAt(cache, query, j), d)
        invariant d.Some? ==> exists k | 0 <= k < i :: DistanceAt(cache, query, k) == d
      {
        var dist := CosineDistance(query, cache[i].vector);
        if Less(dist, d) {
          d := dist;
          assert DistanceAt(cache, query, i) == d;
        }
      }
      return Some(d);
    }

    /** Replace the entry with this id where it stands, or append. */
    method Upsert(e: Embedding)
      requires Valid() && IsEmbeddingVector(e.vector)
      modifies this`cache
      ensures Valid()
      ensures AsTable(cache) == AsTable(old(cache))[e.id := e]
      ensures |cache| == |old(cache)| + (if e.id in AsTable(old(cache)) then 0 else 1)
      ensures forall i | 0 <= i < |old(cache)| :: cache[i] == if old(cache)[i].id == e.id then e else old(cache)[i]
    {
      var k := 0;
      while k < |cache| && cache[k].id != e.id
        invariant 0 <= k <= |cache|
        invariant forall i | 0 <= i < k :: cache[i].id != e.id
      {
        k := k + 1;
      }
      TableKnowsIds(cache, e.id);
      if k == |cache| {
        AppendUpdatesTable(cache, e);
        cache := cache + [e];
      } else {
        ReplaceUpdatesTable(cache, k, e);
        cache := cache[k := e];
      }
    }

    method Remove(id: EmbeddingId)
      requires Valid()
      modifies this`cache
      ensures Valid() && cache == Without(old(cache), id)
      ensures AsTable(cache) == AsTable(old(cache)) - {id}
    {
      var kept := [];
      for i := 0 to |cache|
        invariant kept == Without(cache[..i], id)
      {
        assert cache[..i + 1][..i] == cache[..i];
        if cache[i].id != id {
          kept := kept + [cache[i]];
        }
      }
      assert cache[..|cache|] == cache;
      WithoutRemovesFromTable(cache, id);
      WithoutKeepsShape(cache, id);
      cache := kept;
    }
  }

  // ---------------------------------------------------------------------------
  // L2 normalisation in place.

  lemma {:induction false} ScaleAt(c: real, a: seq<real>, i: nat)
    requires i < |a|
    ensures Scale(c, a)[i] == Scaler(c)(a[i])
  {
  }

  /** The sum of squares; the length that comes with the vector is its square root. */
  method SumOfSquares(a: seq<real>) returns (sum: real)
    ensures sum == Dot(a, a)
  {
    sum := 0.0;
    for i := 0 to |a|
      invariant sum == Dot(a[..i], a[..i])
    {
      DotGrows(a, a, i, sum);
      sum := AddProduct(sum, a[i], a[i]);
    }
    assert a[..|a|] == a;
  }

  /** The end of FaceEmbedder::extract: scale the buffer to unit length, or give up. */
  method Normalize(embedding: array<real>, norm: real) returns (ok: bool)
    requires Vector(embedding[..], norm).Valid()
    modifies embedding
    ensures ok <==> norm >= DENOMINATOR_GUARD
    ensures !ok ==> embedding[..] == old(embedding[..])
    ensures ok ==> embedding[..] == Normalized(Vector(old(embedding[..]), norm)).xs
    ensures ok ==> Vector(embedding[..], 1.0).Valid()
  {
    var normSq := SumOfSquares(embedding[..]);
    assert norm >= 0.0 && norm * norm == normSq;
    if norm < DENOMINATOR_GUARD {
      return false;
    }
    var inv := 1.0 / norm;
    ghost var was := embedding[..];
    for i := 0 to embedding.Length
      invariant forall j | 0 <= j < i :: embedding[j] == Scale(inv, was)[j]
      invariant forall j | i <= j < embedding.Length :: embedding[j] == was[j]
    {
      ScaleAt(inv, was, i);
      embedding[i] := Scaler(inv)(embedding[i]);
    }
    NormalizedIsUnit(Vector(was, norm));
    assert embedding[..] == Scale(inv, was);
    return true;
  }

  /** The end of the panel's embed: the same into a new array; null when there is none. */
  method Embed(raw: seq<real>, norm: real) returns (out: Option<seq<real>>)
    requires Vector(raw, norm).Valid()
    ensures out.Some? <==> |raw| == EMBEDDING_DIM && norm >= DENOMINATOR_GUARD
    ensures out.Some? ==> out.value == Normalized(Vector(raw, norm)).xs && IsEmbeddingVector(Vector(out.value, 1.0))
  {
    if |raw| != EMBEDDING_DIM {
      return None;
    }
    var normSq := SumOfSquares(raw);
    assert norm >= 0.0 && norm * norm == normSq;
    if norm < DENOMINATOR_GUARD {
      return None;
    }
    var result, inv := new real[EMBEDDING_DIM], 1.0 / norm;
    for i := 0 to EMBEDDING_DIM
      invariant forall j | 0 <= j < i :: result[j] == Scale(inv, raw)[j]
    {
      ScaleAt(inv, raw, i);
      result[i] := Scaler(inv)(raw[i]);
    }
    NormalizedIsUnit(Vector(raw, norm));
    assert result[..] == Scale(inv, raw);
    return Some(result[..]);
  }
}
