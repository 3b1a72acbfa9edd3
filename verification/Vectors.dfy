/** Dot products, the Cauchy-Schwarz inequality, and the cosine similarity bounded by it. */
module Vectors {

  type Vector = seq<real>

  function Dot(a: Vector, b: Vector): real
    requires |a| == |b|
  {
    if a == [] then 0.0 else a[0] * b[0] + Dot(a[1..], b[1..])
  }

  /** Squared distance of `t * a` from `-b`, term by term. */
  function Spread(a: Vector, b: Vector, t: real): real
    requires |a| == |b|
  {
    if a == [] then 0.0 else (t * a[0] + b[0]) * (t * a[0] + b[0]) + Spread(a[1..], b[1..], t)
  }

  lemma SquareNonNegative(x: real)
    ensures x * x >= 0.0
  {
  }

  /** `t * t * aa + 2 * t * ab + bb` */
  function Quadratic(t: real, aa: real, ab: real, bb: real): real {
    t * t * aa + 2.0 * t * ab + bb
  }

  /** Products by name, so that the induction below stays linear. */
  function Times(x: real, y: real): real {
    x * y
  }

  function SquareAt(t: real, x: real, y: real): real {
    (t * x + y) * (t * x + y)
  }

  lemma QuadraticStep(x: real, y: real, t: real, aa: real, ab: real, bb: real, aa': real, ab': real, bb': real)
    requires aa' == Times(x, x) + aa && ab' == Times(x, y) + ab && bb' == Times(y, y) + bb
    ensures SquareAt(t, x, y) + Quadratic(t, aa, ab, bb) == Quadratic(t, aa', ab', bb')
    ensures SquareAt(t, x, y) >= 0.0
  {
    SquareNonNegative(t * x + y);
    assert (t * x + y) * (t * x + y) == t * t * (x * x) + 2.0 * t * (x * y) + y * y;
    assert t * t * (x * x + aa) == t * t * (x * x) + t * t * aa;
    assert 2.0 * t * (x * y + ab) == 2.0 * t * (x * y) + 2.0 * t * ab;
  }

  lemma Heads(a: Vector, b: Vector, t: real)
    requires |a| == |b| && a != []
    ensures Dot(a, b) == Times(a[0], b[0]) + Dot(a[1..], b[1..])
    ensures Spread(a, b, t) == SquareAt(t, a[0], b[0]) + Spread(a[1..], b[1..], t)
  {
  }

  lemma Empties(a: Vector, b: Vector, t: real)
    requires |a| == |b| == 0
    ensures Dot(a, b) == 0.0 && Spread(a, b, t) == 0.0
  {
  }

  lemma {:induction false} SpreadIsQuadratic(a: Vector, b: Vector, t: real)
    requires |a| == |b|
    ensures Spread(a, b, t) == Quadratic(t, Dot(a, a), Dot(a, b), Dot(b, b))
    ensures Spread(a, b, t) >= 0.0
  {
    hide Quadratic, Times, SquareAt, Dot, Spread;
    if a == [] {
      Empties(a, a, t);
      Empties(a, b, t);
      Empties(b, b, t);
      QuadraticOfZero(t);
    } else {
      SpreadIsQuadratic(a[1..], b[1..], t);
      Heads(a, a, t);
      Heads(a, b, t);
      Heads(b, b, t);
      QuadraticStep(a[0], b[0], t, Dot(a[1..], a[1..]), Dot(a[1..], b[1..]), Dot(b[1..], b[1..]),
                    Dot(a, a), Dot(a, b), Dot(b, b));
    }
  }

  lemma QuadraticOfZero(t: real)
    ensures Quadratic(t, 0.0, 0.0, 0.0) == 0.0
  {
  }

  lemma {:induction false} DotSelfNonNegative(a: Vector)
    ensures Dot(a, a) >= 0.0
  {
    if a != [] {
      DotSelfNonNegative(a[1..]);
      SquareNonNegative(a[0]);
    }
  }

  /** A quadratic that is not negative where it is least has no positive discriminant. */
  lemma Discriminant(aa: real, ab: real, bb: real, t: real)
    requires aa > 0.0 && t == -ab / aa
    requires Quadratic(t, aa, ab, bb) >= 0.0
    ensures ab * ab <= aa * bb
  {
    assert t * aa == -ab;
    assert t * t * aa == t * (t * aa) == -(t * ab);
    assert t * ab + bb >= 0.0;
    assert (t * ab + bb) * aa == (t * aa) * ab + bb * aa;
  }

  lemma CauchySchwarz(a: Vector, b: Vector)
    requires |a| == |b| && Dot(a, a) > 0.0
    ensures Dot(a, b) * Dot(a, b) <= Dot(a, a) * Dot(b, b)
  {
    hide Dot, Spread;
    var t := -Dot(a, b) / Dot(a, a);
    SpreadIsQuadratic(a, b, t);
    Discriminant(Dot(a, a), Dot(a, b), Dot(b, b), t);
  }

  /** `sqrt` behaves as a square root on positive numbers. */
  ghost predicate IsSquareRoot(sqrt: real -> real) {
    forall x :: x > 0.0 ==> sqrt(x) > 0.0 && sqrt(x) * sqrt(x) == x
  }

  /** `cosine`: 0 for empty vectors, different lengths, or a zero norm. */
  function Cosine(sqrt: real -> real, a: Vector, b: Vector): real {
    if a == [] || |a| != |b| then 0.0
    else if Dot(a, a) <= 0.0 || Dot(b, b) <= 0.0 then 0.0
    else
      var norm := sqrt(Dot(a, a)) * sqrt(Dot(b, b));
      if norm == 0.0 then 0.0 else Dot(a, b) / norm
  }

  lemma SquareBeyond(x: real, y: real)
    requires y > 0.0 && (x > y || x < -y)
    ensures x * x > y * y
  {
    assert x * x - y * y == (x - y) * (x + y) == (-x - y) * (-x + y);
  }

  lemma SquaresOrder(x: real, y: real)
    requires y > 0.0 && x * x <= y * y
    ensures -y <= x <= y
  {
    if x > y || x < -y {
      SquareBeyond(x, y);
    }
  }

  lemma NormBound(d: real, aa: real, bb: real, x: real, y: real)
    requires x > 0.0 && y > 0.0 && x * x == aa && y * y == bb && d * d <= aa * bb
    ensures x * y > 0.0 && -1.0 <= d / (x * y) <= 1.0
  {
    assert (x * y) * (x * y) == (x * x) * (y * y);
    SquaresOrder(d, x * y);
    DivideBounded(d, x * y);
  }

  /** Cosine similarity lies between -1 and 1. */
  lemma CosineBounded(sqrt: real -> real, a: Vector, b: Vector)
    requires IsSquareRoot(sqrt)
    ensures -1.0 <= Cosine(sqrt, a, b) <= 1.0
  {
    hide Dot;
    if a != [] && |a| == |b| && Dot(a, a) > 0.0 && Dot(b, b) > 0.0 {
      CauchySchwarz(a, b);
      var x, y := sqrt(Dot(a, a)), sqrt(Dot(b, b));
      NormBound(Dot(a, b), Dot(a, a), Dot(b, b), x, y);
      assert Cosine(sqrt, a, b) == Dot(a, b) / (x * y);
    }
  }

  lemma DivideBounded(d: real, n: real)
    requires n > 0.0 && -n <= d <= n
    ensures -1.0 <= d / n <= 1.0
  {
    var q := d / n;
    assert d == q * n;
    ScaleOrder(q, n);
  }

  lemma ScaleOrder(q: real, n: real)
    requires n > 0.0
    ensures (q > 1.0 ==> q * n > n) && (q < -1.0 ==> q * n < -n)
  {
    assert q * n - n == (q - 1.0) * n && q * n + n == (q + 1.0) * n;
  }

  lemma DotStep(a: Vector, b: Vector, i: nat)
    requires |a| == |b| && i <= |a|
    ensures Dot(a[i..], b[i..]) == if i < |a| then a[i] * b[i] + Dot(a[i + 1..], b[i + 1..]) else 0.0
  {
    if i < |a| {
      assert a[i..][1..] == a[i + 1..] && b[i..][1..] == b[i + 1..];
    }
  }

  lemma CosineIsQuotient(sqrt: real -> real, a: Vector, b: Vector)
    requires IsSquareRoot(sqrt)
    ensures a == [] || |a| != |b| ==> Cosine(sqrt, a, b) == 0.0
    ensures a != [] && |a| == |b| && (Dot(a, a) <= 0.0 || Dot(b, b) <= 0.0) ==> Cosine(sqrt, a, b) == 0.0
    ensures a != [] && |a| == |b| && Dot(a, a) > 0.0 && Dot(b, b) > 0.0 ==>
              && sqrt(Dot(a, a)) * sqrt(Dot(b, b)) != 0.0
              && Cosine(sqrt, a, b) == Dot(a, b) / (sqrt(Dot(a, a)) * sqrt(Dot(b, b)))
  {
    hide Dot;
    if a != [] && |a| == |b| && Dot(a, a) > 0.0 && Dot(b, b) > 0.0 {
      NormIsPositive(sqrt, Dot(a, a), Dot(b, b));
    }
  }

  lemma NormIsPositive(sqrt: real -> real, x: real, y: real)
    requires IsSquareRoot(sqrt) && x > 0.0 && y > 0.0
    ensures sqrt(x) * sqrt(y) > 0.0
  {
  }

  /** The three sums of products, in one pass. */
  method SumsOfProducts(a: Vector, b: Vector) returns (dot: real, na: real, nb: real)
    requires |a| == |b|
    ensures dot == Dot(a, b) && na == Dot(a, a) && nb == Dot(b, b)
  {
    hide Dot;
    dot, na, nb := 0.0, 0.0, 0.0;
    assert a[0..] == a && b[0..] == b;
    for i := 0 to |a|
      invariant dot + Dot(a[i..], b[i..]) == Dot(a, b)
      invariant na + Dot(a[i..], a[i..]) == Dot(a, a)
      invariant nb + Dot(b[i..], b[i..]) == Dot(b, b)
    {
      DotStep(a, b, i);
      DotStep(a, a, i);
      DotStep(b, b, i);
      dot := dot + a[i] * b[i];
      na := na + a[i] * a[i];
      nb := nb + b[i] * b[i];
    }
    DotStep(a, b, |a|);
    DotStep(a, a, |a|);
    DotStep(b, b, |a|);
  }

  /** `cosine` */
  method CosineOf(sqrt: real -> real, a: Vector, b: Vector) returns (c: real)
    requires IsSquareRoot(sqrt)
    ensures c == Cosine(sqrt, a, b) && -1.0 <= c <= 1.0
    ensures IsCosine(c, a, b)
  {
    CosineBounded(sqrt, a, b);
    CosineIsCosine(sqrt, a, b, Cosine(sqrt, a, b));
    CosineIsQuotient(sqrt, a, b);
    hide Dot, IsCosine, IsSquareRoot, Cosine;
    if a == [] || |a| != |b| {
      return 0.0;
    }
    var dot, na, nb := SumsOfProducts(a, b);
    if na <= 0.0 || nb <= 0.0 {
      return 0.0;
    }
    var norm := sqrt(na) * sqrt(nb);
    return dot / norm;
  }

  // ---------------------------------------------------------------------------------------
  // What the two numbers are
  // ---------------------------------------------------------------------------------------

  /** Each coordinate enters the dot product once, with the matching one: changing one of them changes the
      product by the difference times its partner, and vectors of zeros give nothing. */
  lemma {:induction false} DotOfUpdate(a: Vector, b: Vector, i: nat, x: real)
    requires |a| == |b| && i < |a|
    ensures Dot(a[i := x], b) == Dot(a, b) + (x - a[i]) * b[i]
    ensures Dot(a, b) == Dot(b, a)
  {
    DotSymmetric(a, b);
    var c := a[i := x];
    if i == 0 {
      assert c[1..] == a[1..];
    } else {
      assert c[1..] == a[1..][i - 1 := x];
      DotOfUpdate(a[1..], b[1..], i - 1, x);
    }
  }

  lemma {:induction false} DotSymmetric(a: Vector, b: Vector)
    requires |a| == |b|
    ensures Dot(a, b) == Dot(b, a)
  {
    if a != [] {
      DotSymmetric(a[1..], b[1..]);
    }
  }

  lemma {:induction false} DotOfZeros(a: Vector, b: Vector)
    requires |a| == |b| && forall i :: 0 <= i < |a| ==> a[i] == 0.0
    ensures Dot(a, b) == 0.0
  {
    if a != [] {
      DotOfZeros(a[1..], b[1..]);
    }
  }

  /** `n` is the product of the lengths and `c` the dot product in units of it. */
  predicate NormalizedBy(c: real, n: real, a: Vector, b: Vector)
    requires |a| == |b|
  {
    n > 0.0 && n * n == Dot(a, a) * Dot(b, b) && c * n == Dot(a, b)
  }

  /** The cosine of the angle between the vectors; 0 for different lengths and for a vector of zeros. */
  ghost predicate IsCosine(c: real, a: Vector, b: Vector) {
    if |a| != |b| || Dot(a, a) <= 0.0 || Dot(b, b) <= 0.0 then c == 0.0
    else exists n :: NormalizedBy(c, n, a, b)
  }

  lemma SameRoot(x: real, y: real)
    requires x > 0.0 && y > 0.0 && x * x == y * y
    ensures x == y
  {
    assert (x - y) * (x + y) == 0.0;
  }

  lemma SameQuotient(c: real, d: real, n: real)
    requires n > 0.0 && c * n == d * n
    ensures c == d
  {
    assert (c - d) * n == 0.0;
  }

  lemma ProductOfRoots(x: real, y: real, aa: real, bb: real)
    requires x > 0.0 && y > 0.0 && x * x == aa && y * y == bb
    ensures x * y > 0.0 && (x * y) * (x * y) == aa * bb
  {
    assert (x * y) * (x * y) == (x * x) * (y * y);
  }

  /** Whatever the square root, `cosine` is the cosine and nothing else is. */
  lemma CosineIsCosine(sqrt: real -> real, a: Vector, b: Vector, c: real)
    requires IsSquareRoot(sqrt)
    ensures IsCosine(c, a, b) <==> c == Cosine(sqrt, a, b)
  {
    hide Dot;
    if |a| == |b| && Dot(a, a) > 0.0 && Dot(b, b) > 0.0 {
      var x, y := sqrt(Dot(a, a)), sqrt(Dot(b, b));
      ProductOfRoots(x, y, Dot(a, a), Dot(b, b));
      EmptyHasNoLength(a);
      assert NormalizedBy(Cosine(sqrt, a, b), x * y, a, b);
      if IsCosine(c, a, b) {
        var n :| NormalizedBy(c, n, a, b);
        SameRoot(n, x * y);
        SameQuotient(c, Cosine(sqrt, a, b), n);
      }
    } else {
      EmptyHasNoLength(a);
    }
  }

  lemma EmptyHasNoLength(a: Vector)
    ensures a == [] ==> Dot(a, a) == 0.0
  {
  }

  /** A vector is as similar to itself as can be, and vectors at a right angle or more not at all. */
  lemma CosineAtExtremes(c: real, a: Vector, b: Vector)
    requires IsCosine(c, a, b)
    ensures a == b && Dot(a, a) > 0.0 ==> c == 1.0
    ensures |a| == |b| && Dot(a, b) <= 0.0 ==> c <= 0.0
  {
    hide Dot;
    if |a| == |b| && Dot(a, a) > 0.0 && Dot(b, b) > 0.0 {
      var n :| NormalizedBy(c, n, a, b);
      if a == b {
        SameRoot(n, Dot(a, a));
        SameQuotient(c, 1.0, n);
      }
      if c > 0.0 {
        assert c * n > 0.0;
      }
    }
  }
}
