/**
 * Cosine similarity of face embeddings, computed by one loop over three accumulators.
 * Numbers are reals: rounding is not modelled. `Math.sqrt` is a function parameter that
 * returns the non-negative root of every non-negative real.
 */
module FaceEmbedding {
  import opened Options

  type Vector = seq<real>
  datatype DimensionError = DimensionError(actual: nat, expected: nat)

  ghost predicate IsSqrt(sqrt: real -> real) {
    forall x: real {:trigger sqrt(x)} :: x >= 0.0 ==> sqrt(x) >= 0.0 && sqrt(x) * sqrt(x) == x
  }

  /** A product, named so that proofs about sums can leave it folded. */
  function Times(x: real, y: real): real { x * y }

  function Dot(a: Vector, b: Vector): real
    requires |a| == |b|
  {
    if a == [] then 0.0 else Dot(a[..|a| - 1], b[..|b| - 1]) + Times(a[|a| - 1], b[|b| - 1])
  }

  function Cosine(sqrt: real -> real, a: Vector, b: Vector): real
    requires |a| == |b| && IsSqrt(sqrt)
  {
    var normA, normB := Dot(a, a), Dot(b, b);
    if normA == 0.0 || normB == 0.0 then 0.0
    else
      RootsArePositive(sqrt, a, b);
      Ratio(Dot(a, b), sqrt(normA), sqrt(normB))
  }

  function Ratio(dot: real, rootA: real, rootB: real): real
    requires rootA * rootB != 0.0
  {
    dot / (rootA * rootB)
  }

  method CosineSimilarity(sqrt: real -> real, a: Vector, b: Vector) returns (r: Result<real, DimensionError>)
    requires IsSqrt(sqrt)
    ensures r == if |a| != |b| then Err(DimensionError(|b|, |a|)) else Ok(Cosine(sqrt, a, b))
    ensures r.Ok? ==> -1.0 <= r.value <= 1.0
  {
    if |a| != |b| { return Err(DimensionError(|b|, |a|)); }
    var dot, normA, normB := 0.0, 0.0, 0.0;
    for i := 0 to |a|
      invariant dot == Dot(a[..i], b[..i]) && normA == Dot(a[..i], a[..i]) && normB == Dot(b[..i], b[..i])
    {
      var ai, bi := a[i], b[i];
      assert a[..i + 1][..i] == a[..i] && b[..i + 1][..i] == b[..i];
      dot := dot + ai * bi;
      normA := normA + ai * ai;
      normB := normB + bi * bi;
    }
    assert a[..|a|] == a && b[..|b|] == b;
    assert dot == Dot(a, b) && normA == Dot(a, a) && normB == Dot(b, b);
    CosineRange(sqrt, a, b);
    if normA == 0.0 || normB == 0.0 { return Ok(0.0); }
    RootsArePositive(sqrt, a, b);
    return Ok(Ratio(dot, sqrt(normA), sqrt(normB)));
  }

  // ---- Products of reals ----------------------------------------------------------

  lemma SquareNonNegative(x: real)
    ensures x * x >= 0.0
  {
  }

  lemma NoZeroDivisors(x: real, y: real)
    requires x * y == 0.0 && y > 0.0
    ensures x == 0.0
  {
  }

  lemma ZeroSquare(x: real)
    requires x * x == 0.0
    ensures x == 0.0
  {
    if x > 0.0 { NoZeroDivisors(x, x); }
    if x < 0.0 { NoZeroDivisors(x, -x); }
  }

  lemma NonNegativeFactor(p: real, g: real)
    requires p > 0.0 && p * g >= 0.0
    ensures g >= 0.0
  {
  }

  lemma QuotientUnique(n: real, m: real, y: real)
    requires m != 0.0 && y * m == n
    ensures n / m == y
  {
    var z := n / m;
    assert z * m == n;
    assert (z - y) * m == 0.0;
    if m > 0.0 { NoZeroDivisors(z - y, m); } else { NoZeroDivisors(z - y, -m); }
  }

  // ---- Meaning ------------------------------------------------------------------------

  /** The inner product is the sum of the products of coordinates. */
  lemma DotMeaning(a: Vector, b: Vector, x: real, y: real)
    requires |a| == |b|
    ensures Dot([], []) == 0.0 && Dot(a + [x], b + [y]) == Dot(a, b) + x * y
  {
    assert (a + [x])[..|a|] == a && (b + [y])[..|b|] == b;
  }

  /** The similarity times both lengths is the inner product; it is 0 where a length is. */
  lemma CosineMeaning(sqrt: real -> real, a: Vector, b: Vector)
    requires |a| == |b| && IsSqrt(sqrt)
    ensures var c := Cosine(sqrt, a, b);
      if Dot(a, a) == 0.0 || Dot(b, b) == 0.0 then c == 0.0
      else c * (sqrt(Dot(a, a)) * sqrt(Dot(b, b))) == Dot(a, b)
  {
    hide Dot;
    if Dot(a, a) != 0.0 && Dot(b, b) != 0.0 { RootsArePositive(sqrt, a, b); }
  }

  // ---- Cauchy-Schwarz ---------------------------------------------------------------

  lemma DotLast(a: Vector, b: Vector)
    requires |a| == |b| > 0
    ensures var n := |a| - 1; Dot(a, b) == Dot(a[..n], b[..n]) + Times(a[n], b[n])
  {
    hide Times;
  }

  lemma {:induction false} NormNonNegative(a: Vector)
    ensures Dot(a, a) >= 0.0
  {
    if a != [] {
      var n := |a| - 1;
      DotLast(a, a);
      NormNonNegative(a[..n]);
      SquareNonNegative(a[n]);
      hide Dot;
    }
  }

  lemma RootsArePositive(sqrt: real -> real, a: Vector, b: Vector)
    requires IsSqrt(sqrt) && |a| == |b| && Dot(a, a) != 0.0 && Dot(b, b) != 0.0
    ensures sqrt(Dot(a, a)) > 0.0 && sqrt(Dot(b, b)) > 0.0
    ensures sqrt(Dot(a, a)) * sqrt(Dot(b, b)) > 0.0
  {
    NormNonNegative(a);
    NormNonNegative(b);
    hide Dot;
    var p, q := sqrt(Dot(a, a)), sqrt(Dot(b, b));
    assert p * p != 0.0 && q * q != 0.0;
    assert p > 0.0 && q > 0.0;
    assert p * q > 0.0;
  }

  /** The combination t·a + u·b. */
  function Combine(t: real, a: Vector, u: real, b: Vector): Vector
    requires |a| == |b|
  {
    seq(|a|, i requires 0 <= i < |a| => Times(t, a[i]) + Times(u, b[i]))
  }

  /** The quadratic form t²p + 2tuq + u²r. */
  function Quad(t: real, u: real, p: real, q: real, r: real): real { t * t * p + 2.0 * t * u * q + u * u * r }

  lemma {:induction false} CombineNorm(t: real, a: Vector, u: real, b: Vector)
    requires |a| == |b|
    ensures var v := Combine(t, a, u, b);
      Dot(v, v) == Quad(t, u, Dot(a, a), Dot(a, b), Dot(b, b))
  {
    if a == [] {
      assert Combine(t, a, u, b) == [];
    } else {
      var n := |a| - 1;
      var a', b', v := a[..n], b[..n], Combine(t, a, u, b);
      CombineNorm(t, a', u, b');
      hide Dot, Quad, Times;
      CombinePrefix(t, a, u, b);
      DotLast(v, v);
      DotLast(a, a);
      DotLast(a, b);
      DotLast(b, b);
      ExpandSquare(t, u, a[n], b[n], Dot(a', a'), Dot(a', b'), Dot(b', b'), v[n], Dot(v[..n], v[..n]));
    }
  }

  lemma CombinePrefix(t: real, a: Vector, u: real, b: Vector)
    requires |a| == |b| > 0
    ensures var n := |a| - 1; Combine(t, a, u, b)[..n] == Combine(t, a[..n], u, b[..n])
  {
    hide Times;
  }

  lemma ExpandSquare(t: real, u: real, x: real, y: real, p: real, q: real, r: real, z: real, n: real)
    requires z == Times(t, x) + Times(u, y) && n == Quad(t, u, p, q, r)
    ensures n + Times(z, z) == Quad(t, u, p + Times(x, x), q + Times(x, y), r + Times(y, y))
  {
    assert z * z == t * t * (x * x) + 2.0 * t * u * (x * y) + u * u * (y * y);
    assert t * t * (p + x * x) == t * t * p + t * t * (x * x);
    assert 2.0 * t * u * (q + x * y) == 2.0 * t * u * q + 2.0 * t * u * (x * y);
    assert u * u * (r + y * y) == u * u * r + u * u * (y * y);
  }

  /** p times the gap between p·r and q². */
  function Gap(p: real, q: real, r: real): real { p * (p * r - q * q) }

  /** The norm of |a|²·b − (a·b)·a is |a|² times the Cauchy-Schwarz gap. */
  lemma GapNorm(a: Vector, b: Vector)
    requires |a| == |b|
    ensures var v := Combine(-Dot(a, b), a, Dot(a, a), b);
      Dot(v, v) == Gap(Dot(a, a), Dot(a, b), Dot(b, b))
  {
    hide Dot, Quad, Gap;
    CombineNorm(-Dot(a, b), a, Dot(a, a), b);
    GapAlgebra(Dot(a, a), Dot(a, b), Dot(b, b));
  }

  lemma GapAlgebra(p: real, q: real, r: real)
    ensures Quad(-q, p, p, q, r) == Gap(p, q, r)
  {
  }

  lemma CauchySchwarz(a: Vector, b: Vector)
    requires |a| == |b|
    ensures Dot(a, b) * Dot(a, b) <= Dot(a, a) * Dot(b, b)
  {
    hide Dot;
    NormNonNegative(a);
    if Dot(a, a) == 0.0 {
      ZeroNorm(a, b);
    } else {
      GapNorm(a, b);
      NormNonNegative(Combine(-Dot(a, b), a, Dot(a, a), b));
      NonNegativeFactor(Dot(a, a), Dot(a, a) * Dot(b, b) - Dot(a, b) * Dot(a, b));
    }
  }

  /** A vector of norm zero is zero everywhere, and orthogonal to everything. */
  lemma {:induction false} ZeroNorm(a: Vector, b: Vector)
    requires |a| == |b| && Dot(a, a) == 0.0
    ensures Dot(a, b) == 0.0
    ensures forall i | 0 <= i < |a| :: a[i] == 0.0
  {
    if a != [] {
      var n := |a| - 1;
      DotLast(a, a);
      DotLast(a, b);
      NormNonNegative(a[..n]);
      SquareNonNegative(a[n]);
      hide Dot;
      ZeroNorm(a[..n], b[..n]);
      ZeroSquare(a[n]);
      assert forall i | 0 <= i < n :: a[..n][i] == a[i];
    }
  }

  // ---- Properties of the similarity -----------------------------------------------

  lemma CosineRange(sqrt: real -> real, a: Vector, b: Vector)
    requires |a| == |b| && IsSqrt(sqrt)
    ensures -1.0 <= Cosine(sqrt, a, b) <= 1.0
  {
    if Dot(a, a) != 0.0 && Dot(b, b) != 0.0 {
      RootsArePositive(sqrt, a, b);
      CauchySchwarz(a, b);
      NormNonNegative(a);
      NormNonNegative(b);
      var m := sqrt(Dot(a, a)) * sqrt(Dot(b, b));
      ProductOfRoots(sqrt, Dot(a, a), Dot(b, b));
      AbsLeFromSquares(Dot(a, b), m);
      DivisionRange(Dot(a, b), m);
    }
  }

  lemma ProductOfRoots(sqrt: real -> real, x: real, y: real)
    requires IsSqrt(sqrt) && x >= 0.0 && y >= 0.0
    ensures (sqrt(x) * sqrt(y)) * (sqrt(x) * sqrt(y)) == x * y
  {
    var p, q := sqrt(x), sqrt(y);
    assert p * p == x && q * q == y;
    assert (p * q) * (p * q) == (p * p) * (q * q);
  }

  lemma AbsLeFromSquares(d: real, m: real)
    requires m > 0.0 && d * d <= m * m
    ensures -m <= d <= m
  {
    assert d * d - m * m == (d - m) * (d + m);
  }

  lemma DivisionRange(d: real, m: real)
    requires m > 0.0 && -m <= d <= m
    ensures -1.0 <= d / m <= 1.0
  {
    var q := d / m;
    assert q * m == d;
    assert (q - 1.0) * m == d - m && (q + 1.0) * m == d + m;
  }

  lemma {:induction false} DotSymmetric(a: Vector, b: Vector)
    requires |a| == |b|
    ensures Dot(a, b) == Dot(b, a)
  {
    if a != [] {
      DotSymmetric(a[..|a| - 1], b[..|b| - 1]);
      assert Times(a[|a| - 1], b[|b| - 1]) == Times(b[|b| - 1], a[|a| - 1]);
    }
  }

  lemma CosineSymmetric(sqrt: real -> real, a: Vector, b: Vector)
    requires |a| == |b| && IsSqrt(sqrt)
    ensures Cosine(sqrt, a, b) == Cosine(sqrt, b, a)
  {
    DotSymmetric(a, b);
    if Dot(a, a) != 0.0 && Dot(b, b) != 0.0 {
      assert sqrt(Dot(a, a)) * sqrt(Dot(b, b)) == sqrt(Dot(b, b)) * sqrt(Dot(a, a));
    }
  }

  function Scale(k: real, a: Vector): Vector { seq(|a|, i requires 0 <= i < |a| => Times(k, a[i])) }

  lemma {:induction false} DotScale(k: real, a: Vector, b: Vector)
    requires |a| == |b|
    ensures Dot(Scale(k, a), b) == k * Dot(a, b)
  {
    if a != [] {
      var n := |a| - 1;
      DotScale(k, a[..n], b[..n]);
      hide Dot;
      ScalePrefix(k, a);
      DotLast(a, b);
      DotLast(Scale(k, a), b);
      ScaleTerm(k, Dot(a[..n], b[..n]), a[n], b[n]);
    }
  }

  lemma ScalePrefix(k: real, a: Vector)
    requires a != []
    ensures Scale(k, a)[..|a| - 1] == Scale(k, a[..|a| - 1])
  {
    hide Times;
  }

  lemma ScaleTerm(k: real, d: real, x: real, y: real)
    ensures k * d + Times(Times(k, x), y) == k * (d + Times(x, y))
  {
  }

  lemma RootUnique(sqrt: real -> real, x: real, y: real)
    requires IsSqrt(sqrt) && y >= 0.0 && y * y == x
    ensures sqrt(x) == y
  {
    var r := sqrt(x);
    assert x >= 0.0;
    assert (r - y) * (r + y) == r * r - y * y;
    if r + y > 0.0 { NoZeroDivisors(r - y, r + y); }
  }

  lemma ScaledNorm(sqrt: real -> real, k: real, a: Vector)
    requires IsSqrt(sqrt) && k != 0.0
    ensures var s := Scale(k, a);
      && Dot(s, s) == k * k * Dot(a, a)
      && (Dot(s, s) == 0.0 <==> Dot(a, a) == 0.0)
      && sqrt(Dot(s, s)) == (if k > 0.0 then k else -k) * sqrt(Dot(a, a))
  {
    hide Dot;
    var s := Scale(k, a);
    DotScale(k, a, s);
    DotSymmetric(a, s);
    DotScale(k, a, a);
    var n := Dot(a, a);
    assert k * (k * n) == k * k * n;
    NormNonNegative(a);
    var h, r := if k > 0.0 then k else -k, sqrt(n);
    assert (h * r) * (h * r) == (h * h) * (r * r);
    RootUnique(sqrt, Dot(s, s), h * r);
    if n != 0.0 { assert k * k > 0.0; assert k * k * n > 0.0; }
  }

  /** Scaling a vector by a positive factor changes nothing, by a negative one the sign. */
  lemma CosineScale(sqrt: real -> real, k: real, a: Vector, b: Vector)
    requires |a| == |b| && IsSqrt(sqrt) && k != 0.0
    ensures Cosine(sqrt, Scale(k, a), b) == if k > 0.0 then Cosine(sqrt, a, b) else -Cosine(sqrt, a, b)
  {
    hide Dot;
    ScaledNorm(sqrt, k, a);
    DotScale(k, a, b);
    if Dot(a, a) != 0.0 && Dot(b, b) != 0.0 {
      RootsArePositive(sqrt, a, b);
      var d, r, q := Dot(a, b), sqrt(Dot(a, a)), sqrt(Dot(b, b));
      CancelFactor(k, d, r, q, Dot(Scale(k, a), b), sqrt(Dot(Scale(k, a), Scale(k, a))));
    }
  }

  lemma CancelFactor(k: real, d: real, r: real, q: real, d': real, r': real)
    requires k != 0.0 && r > 0.0 && q > 0.0
    requires d' == k * d && r' == (if k > 0.0 then k else -k) * r
    ensures r' * q != 0.0 && r * q != 0.0
    ensures Ratio(d', r', q) == if k > 0.0 then Ratio(d, r, q) else -Ratio(d, r, q)
  {
    var h := if k > 0.0 then k else -k;
    var m := r * q;
    assert m > 0.0;
    assert r' * q == h * m;
    assert h * m > 0.0;
    var x := d / m;
    assert x * m == d;
    var y := if k > 0.0 then x else -x;
    assert y * (h * m) == k * d;
    QuotientUnique(d', r' * q, y);
  }

  /**
   * Similarity 1 means the same direction and nothing else: it holds exactly when one
   * vector is a positive multiple of the other.
   */
  lemma CosineIsOneIff(sqrt: real -> real, a: Vector, b: Vector)
    requires |a| == |b| && IsSqrt(sqrt) && Dot(a, a) != 0.0 && Dot(b, b) != 0.0
    ensures Cosine(sqrt, a, b) == 1.0 <==> exists k: real :: k > 0.0 && b == Scale(k, a)
  {
    if Cosine(sqrt, a, b) == 1.0 {
      var k := SameDirection(sqrt, a, b);
    }
    if k: real :| k > 0.0 && b == Scale(k, a) {
      CosineSelf(sqrt, a);
      CosineScale(sqrt, k, a, a);
      CosineSymmetric(sqrt, a, b);
      hide Cosine;
    }
  }

  lemma CosineSelf(sqrt: real -> real, a: Vector)
    requires IsSqrt(sqrt) && Dot(a, a) != 0.0
    ensures Cosine(sqrt, a, a) == 1.0
    ensures Cosine(sqrt, Scale(-1.0, a), a) == -1.0
  {
    NormNonNegative(a);
    QuotientUnique(Dot(a, a), sqrt(Dot(a, a)) * sqrt(Dot(a, a)), 1.0);
    CosineScale(sqrt, -1.0, a, a);
  }

  lemma SameDirection(sqrt: real -> real, a: Vector, b: Vector) returns (k: real)
    requires |a| == |b| && IsSqrt(sqrt) && Dot(a, a) != 0.0 && Dot(b, b) != 0.0
    requires Cosine(sqrt, a, b) == 1.0
    ensures k > 0.0 && b == Scale(k, a)
  {
    var p, d := Dot(a, a), Dot(a, b);
    CosineOneMeansNoGap(sqrt, a, b);
    NormNonNegative(a);
    GapNorm(a, b);
    hide Dot;
    var v := Combine(-d, a, p, b);
    ZeroNorm(v, v);
    k := d / p;
    PositiveQuotient(d, p);
    forall i | 0 <= i < |a| ensures b[i] == Scale(k, a)[i] {
      assert v[i] == 0.0;
      SolveForMultiple(p, d, a[i], b[i]);
    }
  }

  lemma CosineOneMeansNoGap(sqrt: real -> real, a: Vector, b: Vector)
    requires |a| == |b| && IsSqrt(sqrt) && Dot(a, a) != 0.0 && Dot(b, b) != 0.0
    requires Cosine(sqrt, a, b) == 1.0
    ensures Dot(a, b) > 0.0
    ensures Gap(Dot(a, a), Dot(a, b), Dot(b, b)) == 0.0
  {
    RootsArePositive(sqrt, a, b);
    var p, d, r := Dot(a, a), Dot(a, b), Dot(b, b);
    assert d / (sqrt(p) * sqrt(r)) == 1.0;
    assert p >= 0.0 && r >= 0.0 by { NormNonNegative(a); NormNonNegative(b); }
    hide *;
    QuotientIsOne(d, sqrt(p) * sqrt(r));
    NoGap(sqrt, p, d, r);
  }

  lemma NoGap(sqrt: real -> real, p: real, d: real, r: real)
    requires IsSqrt(sqrt) && p >= 0.0 && r >= 0.0 && d == sqrt(p) * sqrt(r)
    ensures Gap(p, d, r) == 0.0
  {
    ProductOfRoots(sqrt, p, r);
    assert p * 0.0 == 0.0;
  }

  lemma QuotientIsOne(d: real, m: real)
    requires m > 0.0 && d / m == 1.0
    ensures d == m
  {
    assert (d / m) * m == d;
  }

  lemma PositiveQuotient(d: real, p: real)
    requires d > 0.0 && p > 0.0
    ensures d / p > 0.0 && (d / p) * p == d
  {
  }

  lemma SolveForMultiple(p: real, d: real, x: real, y: real)
    requires p > 0.0 && Times(-d, x) + Times(p, y) == 0.0
    ensures y == Times(d / p, x)
  {
    var k := d / p;
    assert k * p == d;
    assert p * (k * x) == d * x;
    assert (y - k * x) * p == 0.0;
    NoZeroDivisors(y - k * x, p);
  }

  predicate IsMatch(similarity: real, threshold: real) { similarity >= threshold }
}
