/**
 Vectors over the reals. A square root is represented by its witness: a vector carries its
 Euclidean length as the non-negative number whose square is the sum of squares.

 The inductive proofs run over an arbitrary product `m` of which only the laws they need
 are known; the arithmetic is in lemmas about four or five numbers.
 */
module Vectors {
  type BinaryOp = (real, real) -> real

  /** The sum of m(a[i], b[i]). */
  function Fold(m: BinaryOp, a: seq<real>, b: seq<real>): real
    requires |a| == |b|
  {
    if a == [] then 0.0 else
    var n := |a| - 1;
    Fold(m, a[..n], b[..n]) + m(a[n], b[n])
  }

  function Map(f: real -> real, a: seq<real>): (r: seq<real>)
    ensures |r| == |a|
    ensures forall i | 0 <= i < |a| :: r[i] == f(a[i])
  {
    if a == [] then [] else Map(f, a[..|a| - 1]) + [f(a[|a| - 1])]
  }

  function Product(): BinaryOp { (x, y) => x * y }

  function Scaler(c: real): real -> real { x => c * x }

  function Dot(a: seq<real>, b: seq<real>): real
    requires |a| == |b|
  {
    Fold(Product(), a, b)
  }

  function Scale(c: real, a: seq<real>): (r: seq<real>)
    ensures |r| == |a|
  {
    Map(Scaler(c), a)
  }

  datatype Vector = Vector(xs: seq<real>, norm: real)
  {
    ghost predicate Valid() { norm >= 0.0 && norm * norm == Dot(xs, xs) }
  }

  // ---------------------------------------------------------------------------
  // Arithmetic.

  lemma ProductOfPositives(x: real, y: real)
    requires x > 0.0 && y > 0.0
    ensures x * y > 0.0
  {
  }

  lemma ProductOfNonNegatives(x: real, y: real)
    requires x >= 0.0 && y >= 0.0
    ensures x * y >= 0.0
  {
  }

  lemma SquareIsNonNegative(x: real)
    ensures x * x >= 0.0
  {
  }

  lemma RootsCompare(x: real, y: real)
    requires y >= 0.0 && x > y
    ensures x * x > y * y
  {
    ProductOfPositives(x - y, x + y);
    assert x * x - y * y == (x - y) * (x + y);
  }

  lemma SquaresCompare(x: real, y: real)
    requires y >= 0.0
    ensures x * x <= y * y ==> -y <= x <= y
  {
    if x > y {
      RootsCompare(x, y);
    } else if -x > y {
      RootsCompare(-x, y);
      assert (-x) * (-x) == x * x;
    }
  }

  lemma MeanBound(u: real, v: real, w: real)
    requires u >= 0.0 && v >= 0.0 && w * w <= u * v
    ensures 2.0 * w <= u + v
  {
    var d := u - v;
    assert d * d >= 0.0;
    assert (u + v) * (u + v) == d * d + 4.0 * (u * v);
    SquaresCompare(2.0 * w, u + v);
  }

  lemma ProductIsMonotone(x: real, y: real, c: real)
    requires x <= y && c >= 0.0
    ensures x * c <= y * c
  {
  }

  // ---------------------------------------------------------------------------
  // Cauchy-Schwarz, for vectors of any length.

  lemma SquareOfProduct(x: real, y: real)
    ensures (x * y) * (x * y) == (x * x) * (y * y)
  {
  }

  lemma CrossProducts(a: real, b: real, p: real, q: real)
    ensures (a * q) * (b * p) == (a * b) * (p * q)
  {
  }

  lemma SquareOfSum(d: real, m: real)
    ensures (d + m) * (d + m) == d * d + 2.0 * (d * m) + m * m
  {
  }

  lemma ProductOfSums(a: real, b: real, p: real, q: real)
    ensures (a + p) * (b + q) == a * b + a * q + b * p + p * q
  {
  }

  /** The mixed terms of the induction step. */
  lemma MixedTerms(d: real, a: real, b: real, m: real, p: real, q: real)
    requires a >= 0.0 && b >= 0.0 && p >= 0.0 && q >= 0.0
    requires d * d <= a * b && m * m == p * q
    ensures 2.0 * (d * m) <= a * q + b * p
  {
    ProductOfNonNegatives(p, q);
    ProductOfNonNegatives(a, q);
    ProductOfNonNegatives(b, p);
    SquareOfProduct(d, m);
    CrossProducts(a, b, p, q);
    ProductIsMonotone(d * d, a * b, p * q);
    MeanBound(a * q, b * p, d * m);
  }

  lemma CauchySchwarzStep(d: real, a: real, b: real, x: real, y: real)
    requires a >= 0.0 && b >= 0.0 && d * d <= a * b
    ensures (d + x * y) * (d + x * y) <= (a + x * x) * (b + y * y)
  {
    var m, p, q := x * y, x * x, y * y;
    SquareIsNonNegative(x);
    SquareIsNonNegative(y);
    SquareOfProduct(x, y);
    MixedTerms(d, a, b, m, p, q);
    SquareOfSum(d, m);
    ProductOfSums(a, b, p, q);
  }

  /** What the induction needs to know about a product. */
  ghost predicate Extends(m: BinaryOp, d: real, a: real, b: real, x: real, y: real) {
    a >= 0.0 && b >= 0.0 && m(d, d) <= m(a, b) ==>
      && m(d + m(x, y), d + m(x, y)) <= m(a + m(x, x), b + m(y, y))
      && m(x, x) >= 0.0 && m(y, y) >= 0.0
  }

  ghost predicate LikeProduct(m: BinaryOp) {
    m(0.0, 0.0) == 0.0 && forall d, a, b, x, y :: Extends(m, d, a, b, x, y)
  }

  lemma ProductIsLikeProduct()
    ensures LikeProduct(Product())
  {
    var m := Product();
    forall d, a, b, x, y ensures Extends(m, d, a, b, x, y) {
      if a >= 0.0 && b >= 0.0 && m(d, d) <= m(a, b) {
        SquareIsNonNegative(x);
        SquareIsNonNegative(y);
        CauchySchwarzStep(d, a, b, x, y);
      }
    }
  }

  lemma {:induction false} FoldCauchySchwarz(m: BinaryOp, a: seq<real>, b: seq<real>)
    requires |a| == |b| && LikeProduct(m)
    ensures Fold(m, a, a) >= 0.0 && Fold(m, b, b) >= 0.0
    ensures m(Fold(m, a, b), Fold(m, a, b)) <= m(Fold(m, a, a), Fold(m, b, b))
  {
    if a == [] {
    } else {
      var n := |a| - 1;
      FoldCauchySchwarz(m, a[..n], b[..n]);
      assert Extends(m, Fold(m, a[..n], b[..n]), Fold(m, a[..n], a[..n]), Fold(m, b[..n], b[..n]), a[n], b[n]);
    }
  }

  lemma CauchySchwarz(a: seq<real>, b: seq<real>)
    requires |a| == |b|
    ensures Dot(a, b) * Dot(a, b) <= Dot(a, a) * Dot(b, b)
  {
    ProductIsLikeProduct();
    FoldCauchySchwarz(Product(), a, b);
  }

  lemma BoundFromSquares(d: real, x: real, y: real)
    requires x >= 0.0 && y >= 0.0 && d * d <= (x * x) * (y * y)
    ensures -(x * y) <= d <= x * y
  {
    ProductOfNonNegatives(x, y);
    assert (x * y) * (x * y) == (x * x) * (y * y);
    SquaresCompare(d, x * y);
  }

  /** The form used for angles: the dot product never exceeds the product of the lengths. */
  lemma DotIsBounded(a: Vector, b: Vector)
    requires a.Valid() && b.Valid() && |a.xs| == |b.xs|
    ensures -(a.norm * b.norm) <= Dot(a.xs, b.xs) <= a.norm * b.norm
  {
    CauchySchwarz(a.xs, b.xs);
    BoundFromSquares(Dot(a.xs, b.xs), a.norm, b.norm);
  }

  // ---------------------------------------------------------------------------
  // Scaling.

  ghost predicate SumsAgree(f: real -> real, x: real, y: real) {
    f(x + y) == f(x) + f(y)
  }

  ghost predicate ProductsAgree(m: BinaryOp, f: real -> real, x: real, y: real) {
    m(f(x), y) == f(m(x, y))
  }

  ghost predicate Linear(m: BinaryOp, f: real -> real) {
    && f(0.0) == 0.0
    && (forall x, y :: SumsAgree(f, x, y))
    && (forall x, y :: ProductsAgree(m, f, x, y))
  }

  lemma {:induction false} FoldMaps(m: BinaryOp, f: real -> real, a: seq<real>, b: seq<real>)
    requires |a| == |b| && Linear(m, f)
    ensures Fold(m, Map(f, a), b) == f(Fold(m, a, b))
  {
    if a == [] {
    } else {
      var n := |a| - 1;
      var fold, last := Fold(m, a[..n], b[..n]), m(a[n], b[n]);
      FoldMaps(m, f, a[..n], b[..n]);
      assert Map(f, a)[..n] == Map(f, a[..n]);
      assert ProductsAgree(m, f, a[n], b[n]);
      assert SumsAgree(f, fold, last);
      assert Fold(m, a, b) == fold + last;
    }
  }

  lemma ScalerIsLinear(c: real)
    ensures Linear(Product(), Scaler(c))
  {
  }

  lemma DotScales(c: real, a: seq<real>, b: seq<real>)
    requires |a| == |b|
    ensures Dot(Scale(c, a), b) == c * Dot(a, b)
  {
    ScalerIsLinear(c);
    FoldMaps(Product(), Scaler(c), a, b);
  }

  lemma {:induction false} FoldCommutes(m: BinaryOp, a: seq<real>, b: seq<real>)
    requires |a| == |b| && forall x, y :: m(x, y) == m(y, x)
    ensures Fold(m, a, b) == Fold(m, b, a)
  {
    if a == [] {
    } else {
      FoldCommutes(m, a[..|a| - 1], b[..|a| - 1]);
    }
  }

  lemma DotCommutes(a: seq<real>, b: seq<real>)
    requires |a| == |b|
    ensures Dot(a, b) == Dot(b, a)
  {
    FoldCommutes(Product(), a, b);
  }

  lemma ScaledSquare(c: real, n: real)
    ensures (c * n) * (c * n) == c * (c * (n * n))
  {
  }

  /** Scaling by a positive factor scales the length. */
  lemma ScaledIsValid(c: real, v: Vector)
    requires c > 0.0 && v.Valid()
    ensures Vector(Scale(c, v.xs), c * v.norm).Valid()
  {
    DotScales(c, v.xs, Scale(c, v.xs));
    DotCommutes(v.xs, Scale(c, v.xs));
    DotScales(c, v.xs, v.xs);
    ProductOfNonNegatives(c, v.norm);
    ScaledSquare(c, v.norm);
  }

  /** The length is determined by the components. */
  lemma NormIsUnique(v: Vector, w: Vector)
    requires v.Valid() && w.Valid() && v.xs == w.xs
    ensures v == w
  {
    SquaresCompare(v.norm, w.norm);
    SquaresCompare(w.norm, v.norm);
  }
}
