/** Similarity scores over the reals: the accumulator loops and their bounds. */
module Vector {
  type Vec = seq<real>

  /** The sum of the first `n` products. */
  function DotTo(a: Vec, b: Vec, n: nat): real
    requires n <= |a| && n <= |b|
  {
    if n == 0 then 0.0 else DotTo(a, b, n - 1) + a[n - 1] * b[n - 1]
  }

  function Dot(a: Vec, b: Vec): real
    requires |a| == |b|
  {
    DotTo(a, b, |a|)
  }

  /** `math.Sqrt` without rounding: the non-negative root. */
  ghost predicate IsSqrt(sqrt: real -> real) {
    forall x :: x >= 0.0 ==> sqrt(x) >= 0.0 && sqrt(x) * sqrt(x) == x
  }

  function Normalized(sqrt: real -> real, d: real, m: real, n: real): real {
    var norm := sqrt(m) * sqrt(n);
    if norm == 0.0 then 0.0 else d / norm
  }

  function CosineOf(sqrt: real -> real, a: Vec, b: Vec): real {
    if |a| != |b| || a == [] || Dot(a, a) == 0.0 || Dot(b, b) == 0.0 then 0.0
    else Normalized(sqrt, Dot(a, b), Dot(a, a), Dot(b, b))
  }

  /** The cosine of two vectors, in [-1, 1]. */
  method Cosine(sqrt: real -> real, a: Vec, b: Vec) returns (r: real)
    requires IsSqrt(sqrt)
    ensures r == CosineOf(sqrt, a, b)
    ensures -1.0 <= r <= 1.0
    ensures a == b && a != [] && Dot(a, a) != 0.0 ==> r == 1.0
    ensures |a| != |b| || a == [] ==> r == 0.0
    ensures |a| == |b| && (Dot(a, a) == 0.0 || Dot(b, b) == 0.0) ==> r == 0.0
  {
    if |a| != |b| || |a| == 0 {
      return 0.0;
    }
    var dot, magA, magB := 0.0, 0.0, 0.0;
    for i := 0 to |a|
      invariant dot == DotTo(a, b, i)
      invariant magA == DotTo(a, a, i)
      invariant magB == DotTo(b, b, i)
    {
      dot := dot + a[i] * b[i];
      magA := magA + a[i] * a[i];
      magB := magB + b[i] * b[i];
    }
    CosineInRange(sqrt, a, b);
    if a == b && Dot(a, a) != 0.0 {
      CosineOfSelf(sqrt, a);
    }
    if magA == 0.0 || magB == 0.0 {
      return 0.0;
    }
    NormPositive(sqrt, magA, magB);
    r := dot / (sqrt(magA) * sqrt(magB));
  }

  lemma {:induction false} DotSelfNonNegative(a: Vec, n: nat)
    requires n <= |a|
    ensures DotTo(a, a, n) >= 0.0
  {
    if n > 0 {
      DotSelfNonNegative(a, n - 1);
      assert a[n - 1] * a[n - 1] >= 0.0;
    }
  }

  lemma SquaresBound(q: real, p: real)
    requires p >= 0.0 && q * q <= p * p
    ensures q <= p
  {
    var less, more := q - p, q + p;
    assert less * more == q * q - p * p;
    PositiveProduct(less, more);
  }

  lemma PositiveProduct(x: real, y: real)
    ensures x > 0.0 && y > 0.0 ==> x * y > 0.0
  {
  }

  /** The mixed term of the inequality's induction step. */
  lemma MixedTerm(m: real, d: real, n: real, xx: real, yy: real, xy: real)
    requires m >= 0.0 && n >= 0.0 && d * d <= m * n && xx >= 0.0 && yy >= 0.0 && xy * xy == xx * yy
    ensures 2.0 * d * xy <= m * yy + n * xx
  {
    var p, q, u, v := m * yy + n * xx, 2.0 * d * xy, m * yy, n * xx;
    assert u >= 0.0 && v >= 0.0;
    assert q * q == 4.0 * (d * d) * (xy * xy);
    assert (d * d) * (xy * xy) <= (m * n) * (xy * xy) by {
      assert (m * n - d * d) * (xy * xy) >= 0.0;
    }
    assert (m * n) * (xx * yy) == u * v;
    assert p * p - 4.0 * (u * v) == (u - v) * (u - v);
    assert (u - v) * (u - v) >= 0.0;
    SquaresBound(q, p);
  }

  lemma ProductStep(m: real, d: real, n: real, x: real, y: real)
    requires m >= 0.0 && n >= 0.0 && d * d <= m * n
    ensures (d + x * y) * (d + x * y) <= (m + x * x) * (n + y * y)
  {
    var xx, yy, xy := x * x, y * y, x * y;
    assert xy * xy == xx * yy;
    MixedTerm(m, d, n, xx, yy, xy);
    assert (d + xy) * (d + xy) == d * d + 2.0 * d * xy + xy * xy;
    assert (m + xx) * (n + yy) == m * n + m * yy + n * xx + xx * yy;
  }

  /** The Cauchy-Schwarz inequality, for the sums the loop accumulates. */
  lemma {:induction false} CauchySchwarz(a: Vec, b: Vec, n: nat)
    requires n <= |a| && n <= |b|
    ensures DotTo(a, b, n) * DotTo(a, b, n) <= DotTo(a, a, n) * DotTo(b, b, n)
  {
    if n > 0 {
      CauchySchwarz(a, b, n - 1);
      DotSelfNonNegative(a, n - 1);
      DotSelfNonNegative(b, n - 1);
      ProductStep(DotTo(a, a, n - 1), DotTo(a, b, n - 1), DotTo(b, b, n - 1), a[n - 1], b[n - 1]);
    }
  }

  lemma NormPositive(sqrt: real -> real, x: real, y: real)
    requires IsSqrt(sqrt) && x > 0.0 && y > 0.0
    ensures sqrt(x) * sqrt(y) > 0.0
    ensures (sqrt(x) * sqrt(y)) * (sqrt(x) * sqrt(y)) == x * y
  {
    var s, u := sqrt(x), sqrt(y);
    assert s * s == x && u * u == y;
    assert s != 0.0 && u != 0.0;
    assert (s * u) * (s * u) == (s * s) * (u * u);
  }

  lemma RatioInRange(d: real, norm: real)
    requires norm > 0.0 && d * d <= norm * norm
    ensures -1.0 <= d / norm <= 1.0
  {
    assert (-d) * (-d) == d * d;
    SquaresBound(d, norm);
    SquaresBound(-d, norm);
    QuotientInRange(d, norm);
  }

  lemma QuotientInRange(d: real, norm: real)
    requires norm > 0.0 && -norm <= d <= norm
    ensures -1.0 <= d / norm <= 1.0
  {
  }

  /** Every score of two vectors lies in [-1, 1]. */
  lemma CosineInRange(sqrt: real -> real, a: Vec, b: Vec)
    requires IsSqrt(sqrt)
    ensures -1.0 <= CosineOf(sqrt, a, b) <= 1.0
    ensures |a| == |b| ==> Dot(a, a) >= 0.0 && Dot(b, b) >= 0.0
  {
    DotSelfNonNegative(a, |a|);
    DotSelfNonNegative(b, |b|);
    if |a| == |b| && a != [] && Dot(a, a) != 0.0 && Dot(b, b) != 0.0 {
      ScoreInRange(sqrt, a, b);
    }
  }

  lemma ScoreInRange(sqrt: real -> real, a: Vec, b: Vec)
    requires IsSqrt(sqrt) && |a| == |b| && Dot(a, a) > 0.0 && Dot(b, b) > 0.0
    ensures -1.0 <= Normalized(sqrt, Dot(a, b), Dot(a, a), Dot(b, b)) <= 1.0
  {
    CauchySchwarz(a, b, |a|);
    NormalizedInRange(sqrt, Dot(a, b), Dot(a, a), Dot(b, b));
  }

  lemma NormalizedInRange(sqrt: real -> real, d: real, m: real, n: real)
    requires IsSqrt(sqrt) && m > 0.0 && n > 0.0 && d * d <= m * n
    ensures -1.0 <= Normalized(sqrt, d, m, n) <= 1.0
  {
    NormPositive(sqrt, m, n);
    RatioInRange(d, sqrt(m) * sqrt(n));
  }

  // ---------------------------------------------------------------- what a score means

  /** The score times the norms is the product of the vectors: nothing but a normalization. */
  lemma ScoreTimesNormsIsDot(sqrt: real -> real, a: Vec, b: Vec, s: real, u: real, v: real)
    requires IsSqrt(sqrt) && |a| == |b| && a != [] && Dot(a, a) != 0.0 && Dot(b, b) != 0.0
    requires s == CosineOf(sqrt, a, b) && u == sqrt(Dot(a, a)) && v == sqrt(Dot(b, b))
    ensures u > 0.0 && v > 0.0 && s * (u * v) == Dot(a, b)
  {
    DotSelfNonNegative(a, |a|);
    DotSelfNonNegative(b, |b|);
    DenormalizedIs(sqrt, Dot(a, b), Dot(a, a), Dot(b, b), s);
  }

  lemma DenormalizedIs(sqrt: real -> real, d: real, m: real, n: real, s: real)
    requires IsSqrt(sqrt) && m > 0.0 && n > 0.0 && s == Normalized(sqrt, d, m, n)
    ensures sqrt(m) > 0.0 && sqrt(n) > 0.0 && s * (sqrt(m) * sqrt(n)) == d
  {
    NormPositive(sqrt, m, n);
    var x, y := sqrt(m), sqrt(n);
    assert x != 0.0 && y != 0.0 by {
      assert x * x == m && y * y == n;
    }
    DivideBack(d, x * y);
  }

  lemma DivideBack(d: real, norm: real)
    requires norm != 0.0
    ensures (d / norm) * norm == d
  {
  }

  /** A vector is as similar to itself as can be. */
  lemma CosineOfSelf(sqrt: real -> real, a: Vec)
    requires IsSqrt(sqrt) && a != [] && Dot(a, a) != 0.0
    ensures CosineOf(sqrt, a, a) == 1.0
  {
    DotSelfNonNegative(a, |a|);
    NormalizedSelf(sqrt, Dot(a, a));
  }

  lemma NormalizedSelf(sqrt: real -> real, m: real)
    requires IsSqrt(sqrt) && m > 0.0
    ensures Normalized(sqrt, m, m, m) == 1.0
  {
    var norm := sqrt(m) * sqrt(m);
    assert norm == m;
    SelfQuotient(m, norm);
  }

  lemma SelfQuotient(m: real, norm: real)
    requires m == norm && m > 0.0
    ensures m / norm == 1.0
  {
  }

  /** The vector with a one at `k` and zeros elsewhere. */
  function Unit(n: nat, k: nat): (r: Vec)
    ensures |r| == n && forall i :: 0 <= i < n ==> r[i] == if i == k then 1.0 else 0.0
  {
    seq(n, i => if i == k then 1.0 else 0.0)
  }

  /** The product with a unit vector reads one component, so the product weighs every component alike. */
  lemma {:induction false} DotWithUnit(a: Vec, k: nat, n: nat)
    requires k < |a| && n <= |a|
    ensures DotTo(a, Unit(|a|, k), n) == if k < n then a[k] else 0.0
  {
    if n > 0 {
      DotWithUnit(a, k, n - 1);
    }
  }

  /** The vector t*a. */
  function Multiple(t: real, a: Vec): (r: Vec)
    ensures |r| == |a|
  {
    seq(|a|, i requires 0 <= i < |a| => t * a[i])
  }

  lemma {:induction false} DotOfMultiple(t: real, a: Vec, b: Vec, n: nat)
    requires n <= |a| && n <= |b|
    ensures DotTo(Multiple(t, a), b, n) == t * DotTo(a, b, n)
  {
    if n > 0 {
      DotOfMultiple(t, a, b, n - 1);
      assert Multiple(t, a)[n - 1] == t * a[n - 1];
      MultiplyOut(t, DotTo(a, b, n - 1), a[n - 1], b[n - 1]);
    }
  }

  lemma MultiplyOut(t: real, d: real, x: real, y: real)
    ensures t * d + (t * x) * y == t * (d + x * y)
  {
  }

  lemma {:induction false} DotCommutes(a: Vec, b: Vec, n: nat)
    requires n <= |a| && n <= |b|
    ensures DotTo(a, b, n) == DotTo(b, a, n)
  {
    if n > 0 {
      DotCommutes(a, b, n - 1);
    }
  }

  /** Length does not matter, only direction: a positive multiple scores the same. */
  lemma MultipleScoresTheSame(sqrt: real -> real, t: real, a: Vec, b: Vec)
    requires IsSqrt(sqrt) && t > 0.0 && |a| == |b|
    ensures CosineOf(sqrt, Multiple(t, a), b) == CosineOf(sqrt, a, b)
  {
    var c := Multiple(t, a);
    NormOfMultiple(t, a);
    DotOfMultiple(t, a, b, |a|);
    DotSelfNonNegative(a, |a|);
    DotSelfNonNegative(b, |b|);
    NormalizedMultiple(sqrt, t, Dot(a, b), Dot(a, a), Dot(b, b), Dot(c, b), Dot(c, c));
  }

  lemma NormOfMultiple(t: real, a: Vec)
    ensures Dot(Multiple(t, a), Multiple(t, a)) == t * (t * Dot(a, a))
  {
    var c := Multiple(t, a);
    DotOfMultiple(t, a, c, |a|);
    DotCommutes(a, c, |a|);
    DotOfMultiple(t, a, a, |a|);
  }

  lemma RootOfMultiple(sqrt: real -> real, t: real, m: real)
    requires IsSqrt(sqrt) && t > 0.0 && m > 0.0
    ensures sqrt(t * (t * m)) == t * sqrt(m)
  {
    var x, y := sqrt(t * (t * m)), t * sqrt(m);
    PositiveProduct(t, m);
    PositiveProduct(t, t * m);
    assert x * x == t * (t * m);
    assert y * y == t * (t * m) by {
      SquareOfProduct(t, sqrt(m));
      assert sqrt(m) * sqrt(m) == m;
    }
    assert y >= 0.0;
    SquaresBound(x, y);
    SquaresBound(y, x);
  }

  lemma SquareOfProduct(t: real, x: real)
    ensures (t * x) * (t * x) == t * (t * (x * x))
  {
  }

  lemma NormalizedMultiple(sqrt: real -> real, t: real, d: real, m: real, n: real, d': real, m': real)
    requires IsSqrt(sqrt) && t > 0.0 && m >= 0.0 && n >= 0.0 && d' == t * d && m' == t * (t * m)
    ensures m' == 0.0 <==> m == 0.0
    ensures m > 0.0 && n > 0.0 ==> Normalized(sqrt, d', m', n) == Normalized(sqrt, d, m, n)
  {
    PositiveProduct(t, m);
    PositiveProduct(t, t * m);
    if m > 0.0 && n > 0.0 {
      RootOfMultiple(sqrt, t, m);
      NormPositive(sqrt, m, n);
      CancelFactor(t, d, sqrt(m), sqrt(n));
    }
  }

  lemma CancelFactor(t: real, d: real, x: real, y: real)
    requires t > 0.0 && x * y > 0.0
    ensures (t * x) * y > 0.0 && (t * d) / ((t * x) * y) == d / (x * y)
  {
    var p := x * y;
    assert (t * x) * y == t * p;
    PositiveProduct(t, p);
    var q := d / p;
    assert q * p == d;
    assert q * (t * p) == t * d;
  }

  // ---------------------------------------------------------------- centroid

  /** Element-wise sum; a shorter vector counts as padded with zeros. */
  function Plus(u: Vec, v: Vec): (r: Vec)
    requires |v| <= |u|
    ensures |r| == |u|
  {
    seq(|u|, i requires 0 <= i < |u| => u[i] + (if i < |v| then v[i] else 0.0))
  }

  function Sum(dim: nat, vectors: seq<Vec>): (r: Vec)
    requires forall k :: 0 <= k < |vectors| ==> |vectors[k]| <= dim
    ensures |r| == dim
  {
    if vectors == [] then seq(dim, _ => 0.0)
    else Plus(Sum(dim, vectors[..|vectors| - 1]), vectors[|vectors| - 1])
  }

  function Scaled(u: Vec, n: real): (r: Vec)
    requires n != 0.0
    ensures |r| == |u|
  {
    seq(|u|, i requires 0 <= i < |u| => u[i] / n)
  }

  function CentroidOf(vectors: seq<Vec>): Vec
    requires forall k :: 0 <= k < |vectors| ==> |vectors[k]| <= |vectors[0]|
  {
    if vectors == [] then [] else Scaled(Sum(|vectors[0]|, vectors), |vectors| as real)
  }

  /** The element-wise average, accumulated in place. */
  method Centroid(vectors: seq<Vec>) returns (result: array<real>)
    requires forall k :: 0 <= k < |vectors| ==> |vectors[k]| <= |vectors[0]|
    ensures fresh(result) && result[..] == CentroidOf(vectors)
  {
    if |vectors| == 0 {
      result := new real[0];
      return;
    }
    var dim := |vectors[0]|;
    result := new real[dim](_ => 0.0);
    for k := 0 to |vectors|
      invariant result.Length == dim
      invariant result[..] == Sum(dim, vectors[..k])
    {
      var v := vectors[k];
      ghost var before := result[..];
      for i := 0 to |v|
        invariant result.Length == dim
        invariant forall j :: 0 <= j < dim ==> result[j] == before[j] + if j < i then v[j] else 0.0
      {
        result[i] := result[i] + v[i];
      }
      assert vectors[..k + 1][..k] == vectors[..k];
      assert result[..] == Plus(before, v);
    }
    assert vectors[..|vectors|] == vectors;
    ghost var sum := result[..];
    var n := |vectors| as real;
    for i := 0 to dim
      invariant forall j :: 0 <= j < dim ==> result[j] == if j < i then sum[j] / n else sum[j]
    {
      result[i] := result[i] / n;
    }
    assert result[..] == Scaled(sum, n);
  }

  lemma {:induction false} DotPlus(x: Vec, u: Vec, v: Vec, n: nat)
    requires |x| == |u| == |v| && n <= |x|
    ensures DotTo(x, Plus(u, v), n) == DotTo(x, u, n) + DotTo(x, v, n)
  {
    if n > 0 {
      DotPlus(x, u, v, n - 1);
      assert Plus(u, v)[n - 1] == u[n - 1] + v[n - 1];
    }
  }

  lemma {:induction false} DotScaled(x: Vec, u: Vec, n: real, k: nat)
    requires |x| == |u| && n != 0.0 && k <= |x|
    ensures DotTo(x, Scaled(u, n), k) * n == DotTo(x, u, k)
  {
    if k > 0 {
      DotScaled(x, u, n, k - 1);
      assert Scaled(u, n)[k - 1] == u[k - 1] / n;
      ScaleOne(DotTo(x, Scaled(u, n), k - 1), x[k - 1], u[k - 1], n);
    }
  }

  lemma DotOfScaled(x: Vec, u: Vec, n: real)
    requires |x| == |u| && n != 0.0
    ensures Dot(x, Scaled(u, n)) == Quotient(Dot(x, u), n)
  {
    DotScaled(x, u, n, |x|);
    QuotientIs(Dot(x, Scaled(u, n)), Dot(x, u), n);
  }

  lemma QuotientIs(q: real, d: real, n: real)
    requires n != 0.0 && q * n == d
    ensures q == Quotient(d, n)
  {
  }

  function Quotient(d: real, n: real): real
    requires n != 0.0
  {
    d / n
  }

  lemma ScaleOne(d: real, x: real, u: real, n: real)
    requires n != 0.0
    ensures (d + x * (u / n)) * n == d * n + x * u
  {
    var q := u / n;
    assert q * n == u;
    assert (x * q) * n == x * (q * n);
  }

  lemma {:induction false} ZerosDot(x: Vec, zeros: Vec, n: nat)
    requires |zeros| == |x| && n <= |x| && forall i :: 0 <= i < |x| ==> zeros[i] == 0.0
    ensures DotTo(x, zeros, n) == 0.0
  {
    if n > 0 {
      ZerosDot(x, zeros, n - 1);
    }
  }

  function DotSum(x: Vec, vectors: seq<Vec>): real
    requires forall k :: 0 <= k < |vectors| ==> |vectors[k]| == |x|
  {
    if vectors == [] then 0.0 else DotSum(x, vectors[..|vectors| - 1]) + Dot(x, vectors[|vectors| - 1])
  }

  lemma {:induction false} DotOfSum(x: Vec, vectors: seq<Vec>)
    requires forall k :: 0 <= k < |vectors| ==> |vectors[k]| == |x|
    ensures Dot(x, Sum(|x|, vectors)) == DotSum(x, vectors)
  {
    if vectors == [] {
      ZerosDot(x, Sum(|x|, vectors), |x|);
    } else {
      var init := vectors[..|vectors| - 1];
      DotOfSum(x, init);
      DotPlus(x, Sum(|x|, init), vectors[|vectors| - 1], |x|);
    }
  }

  /** The centroid stands for its vectors: its product with any vector is their average product. */
  lemma CentroidAverages(x: Vec, vectors: seq<Vec>, n: real)
    requires vectors != [] && n == |vectors| as real
    requires forall k :: 0 <= k < |vectors| ==> |vectors[k]| == |x|
    ensures |CentroidOf(vectors)| == |x| && Dot(x, CentroidOf(vectors)) == Quotient(DotSum(x, vectors), n)
  {
    CentroidIsScaledSum(|x|, vectors);
    DotOfSum(x, vectors);
    DotOfScaled(x, Sum(|x|, vectors), n);
  }

  lemma CentroidIsScaledSum(dim: nat, vectors: seq<Vec>)
    requires vectors != [] && forall k :: 0 <= k < |vectors| ==> |vectors[k]| == dim
    ensures CentroidOf(vectors) == Scaled(Sum(dim, vectors), |vectors| as real)
  {
    assert |vectors[0]| == dim;
  }
}
