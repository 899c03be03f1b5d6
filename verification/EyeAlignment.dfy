/**
 Face alignment: the similarity that carries the two detected eyes onto the canonical ones,
 on the edge as a 2x3 matrix and in the panel as a canvas transform.
 */
module EyeAlignment {
  import opened Basics

  datatype Point = Point(x: real, y: real)

  const CANONICAL_RIGHT_EYE := Point(38.2946, 51.6963)
  const CANONICAL_LEFT_EYE := Point(73.5318, 51.5014)

  /** Eyes closer than this (squared) have no transform. */
  const LEAST_SQUARE: real := 0.000001

  datatype Similarity = Similarity(a: real, b: real, tx: real, ty: real)

  function Minus(p: Point, q: Point): Point { Point(p.x - q.x, p.y - q.y) }

  function Along(d: Point, c: Point): real { d.x * c.x + d.y * c.y }

  function Across(d: Point, c: Point): real { d.x * c.y - d.y * c.x }

  function Square(d: Point): real { d.x * d.x + d.y * d.y }

  function Ratio(x: real, n: real): real
    requires n != 0.0
  {
    x / n
  }

  /** The similarity with this turn that takes p to c. */
  function Placing(a: real, b: real, p: Point, c: Point): Similarity {
    Similarity(a, b, c.x - (a * p.x - b * p.y), c.y - (b * p.x + a * p.y))
  }

  /** The closed form, written the same way in C++ and TypeScript. */
  function SimilarityFromEyes(right: Point, left: Point): Option<Similarity> {
    var d := Minus(left, right);
    var normSq := Square(d);
    if normSq < LEAST_SQUARE then None else
    var c := Minus(CANONICAL_LEFT_EYE, CANONICAL_RIGHT_EYE);
    Some(Placing(Ratio(Along(d, c), normSq), Ratio(Across(d, c), normSq), right, CANONICAL_RIGHT_EYE))
  }

  // ---------------------------------------------------------------------------
  // Two ways to draw with it.

  /** The rows of a 2x3 matrix, as OpenCV's warpAffine reads them. */
  datatype Matrix = Matrix(m00: real, m01: real, m02: real, m10: real, m11: real, m12: real)

  function EdgeMatrix(s: Similarity): Matrix { Matrix(s.a, -s.b, s.tx, s.b, s.a, s.ty) }

  function Warp(m: Matrix, p: Point): Point {
    Point(m.m00 * p.x + m.m01 * p.y + m.m02, m.m10 * p.x + m.m11 * p.y + m.m12)
  }

  /** The six arguments of a canvas's setTransform, in their order: columns, not rows. */
  datatype Canvas = Canvas(a: real, b: real, c: real, d: real, e: real, f: real)

  function PanelCanvas(s: Similarity): Canvas { Canvas(s.a, s.b, -s.b, s.a, s.tx, s.ty) }

  function Draw(t: Canvas, p: Point): Point {
    Point(t.a * p.x + t.c * p.y + t.e, t.b * p.x + t.d * p.y + t.f)
  }

  // ---------------------------------------------------------------------------
  // Algebra.

  /** What the similarity makes of a difference of points. */
  function Turned(a: real, b: real, d: Point): Point { Point(a * d.x - b * d.y, b * d.x + a * d.y) }

  lemma Cancel(x: real, y: real, n: real)
    requires n > 0.0 && x * n == y * n
    ensures x == y
  {
  }

  lemma RatioTimes(x: real, n: real)
    requires n > 0.0
    ensures Ratio(x, n) * n == x
  {
  }

  lemma NumeratorsSolve(d: Point, c: Point)
    ensures Turned(Along(d, c), Across(d, c), d) == Point(c.x * Square(d), c.y * Square(d))
  {
  }

  lemma TurnedTimes(a: real, b: real, d: Point, n: real, an: real, bn: real)
    requires an == a * n && bn == b * n
    ensures Turned(an, bn, d) == Point(Turned(a, b, d).x * n, Turned(a, b, d).y * n)
  {
  }

  /** The two ratios turn d into c. */
  lemma RatiosTurn(d: Point, c: Point)
    requires Square(d) > 0.0
    ensures Turned(Ratio(Along(d, c), Square(d)), Ratio(Across(d, c), Square(d)), d) == c
  {
    hide *;
    var n, a, b := Square(d), Ratio(Along(d, c), Square(d)), Ratio(Across(d, c), Square(d));
    RatioTimes(Along(d, c), n);
    RatioTimes(Across(d, c), n);
    NumeratorsSolve(d, c);
    TurnedTimes(a, b, d, n, Along(d, c), Across(d, c));
    Cancel(Turned(a, b, d).x, c.x, n);
    Cancel(Turned(a, b, d).y, c.y, n);
  }

  lemma TurnedSolves(a: real, b: real, d: Point)
    ensures Along(d, Turned(a, b, d)) == a * Square(d) && Across(d, Turned(a, b, d)) == b * Square(d)
  {
  }

  /** No other pair does. */
  lemma TurnIsUnique(a: real, b: real, d: Point)
    requires Square(d) > 0.0
    ensures a == Ratio(Along(d, Turned(a, b, d)), Square(d)) && b == Ratio(Across(d, Turned(a, b, d)), Square(d))
  {
    hide *;
    var c := Turned(a, b, d);
    TurnedSolves(a, b, d);
    RatioTimes(Along(d, c), Square(d));
    RatioTimes(Across(d, c), Square(d));
    Cancel(a, Ratio(Along(d, c), Square(d)), Square(d));
    Cancel(b, Ratio(Across(d, c), Square(d)), Square(d));
  }

  lemma TurnedSquare(a: real, b: real, d: Point)
    ensures Square(Turned(a, b, d)) == (a * a + b * b) * Square(d)
  {
  }

  lemma WarpTurns(s: Similarity, p: Point, q: Point)
    ensures Minus(Warp(EdgeMatrix(s), q), Warp(EdgeMatrix(s), p)) == Turned(s.a, s.b, Minus(q, p))
  {
  }

  lemma PlacingPlaces(s: Similarity, p: Point, c: Point)
    ensures Warp(EdgeMatrix(s), p) == c <==> s == Placing(s.a, s.b, p, c)
    ensures Placing(s.a, s.b, p, c).a == s.a && Placing(s.a, s.b, p, c).b == s.b
  {
  }

  lemma MinusDetermines(q: Point, q': Point, p: Point)
    requires Minus(q, p) == Minus(q', p)
    ensures q == q'
  {
  }

  // ---------------------------------------------------------------------------
  // The closed form.

  ghost predicate Aligns(s: Similarity, right: Point, left: Point) {
    Warp(EdgeMatrix(s), right) == CANONICAL_RIGHT_EYE && Warp(EdgeMatrix(s), left) == CANONICAL_LEFT_EYE
  }

  /**
   The closed form answers exactly when the eyes are far enough apart, and its answer is the
   one similarity that sends both where they belong.
   */
  lemma ClosedFormAligns(right: Point, left: Point, s: Similarity)
    ensures SimilarityFromEyes(right, left) == Some(s) <==>
            Square(Minus(left, right)) >= LEAST_SQUARE && Aligns(s, right, left)
  {
    if Square(Minus(left, right)) >= LEAST_SQUARE {
      hide Warp, Placing, Turned, Square, Along, Across, Ratio, Minus;
      var d, c := Minus(left, right), Minus(CANONICAL_LEFT_EYE, CANONICAL_RIGHT_EYE);
      var r := SimilarityFromEyes(right, left).value;
      var a, b := Ratio(Along(d, c), Square(d)), Ratio(Across(d, c), Square(d));
      RatiosTurn(d, c);
      PlacingPlaces(Similarity(a, b, 0.0, 0.0), right, CANONICAL_RIGHT_EYE);
      PlacingPlaces(r, right, CANONICAL_RIGHT_EYE);
      PlacingPlaces(s, right, CANONICAL_RIGHT_EYE);
      WarpTurns(r, right, left);
      WarpTurns(s, right, left);
      MinusDetermines(Warp(EdgeMatrix(r), left), CANONICAL_LEFT_EYE, CANONICAL_RIGHT_EYE);
      TurnIsUnique(s.a, s.b, d);
    }
  }

  /** Every similarity stretches all distances alike. */
  lemma DistancesScale(s: Similarity, p: Point, q: Point)
    ensures Square(Minus(Warp(EdgeMatrix(s), q), Warp(EdgeMatrix(s), p))) ==
            (s.a * s.a + s.b * s.b) * Square(Minus(q, p))
  {
    WarpTurns(s, p, q);
    TurnedSquare(s.a, s.b, Minus(q, p));
  }

  /** The aligning similarity stretches squared distances by the ratio of the two eye distances. */
  lemma ScaleIsEyeRatio(right: Point, left: Point, s: Similarity)
    requires SimilarityFromEyes(right, left) == Some(s)
    ensures (s.a * s.a + s.b * s.b) * Square(Minus(left, right)) ==
            Square(Minus(CANONICAL_LEFT_EYE, CANONICAL_RIGHT_EYE))
  {
    ClosedFormAligns(right, left, s);
    hide Warp, Square, Minus;
    DistancesScale(s, right, left);
  }

  /** Edge and panel move every pixel alike. */
  lemma EdgeAndPanelAgree(s: Similarity, p: Point)
    ensures Warp(EdgeMatrix(s), p) == Draw(PanelCanvas(s), p)
  {
  }
}
