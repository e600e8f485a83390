/** Cosine similarity over the reals. A square root is any function that meets the
    defining equation; nothing else about it is used. */
module Cosine {

  ghost predicate IsSqrt(sqrt: real -> real) {
    forall x | x >= 0.0 :: sqrt(x) >= 0.0 && sqrt(x) * sqrt(x) == x
  }

  function Dot(a: seq<real>, b: seq<real>): real
    requires |a| == |b|
  {
    if a == [] then 0.0
    else
      var n := |a| - 1;
      Dot(a[..n], b[..n]) + a[n] * b[n]
  }

  lemma {:induction false} NormNonNegative(a: seq<real>)
    ensures Dot(a, a) >= 0.0
  {
    if a != [] {
      NormNonNegative(a[..|a| - 1]);
    }
  }

  lemma RootPositive(sqrt: real -> real, x: real)
    requires IsSqrt(sqrt) && x > 0.0
    ensures sqrt(x) > 0.0
  {
    assert sqrt(x) * sqrt(x) == x;
  }

  lemma PositiveProduct(x: real, y: real, q: real)
    requires x > 0.0 && y > 0.0 && q == x * y
    ensures q > 0.0
  {
  }

  /** p divided by the product of two lengths. */
  function Ratio(p: real, u: real, v: real): real
    requires u > 0.0 && v > 0.0
  {
    PositiveProduct(u, v, u * v);
    p / (u * v)
  }

  ghost function Similarity(sqrt: real -> real, a: seq<real>, b: seq<real>): real
    requires IsSqrt(sqrt)
  {
    if |a| != |b| || |a| == 0 then 0.0
    else if Dot(a, a) == 0.0 || Dot(b, b) == 0.0 then 0.0
    else
      NormNonNegative(a);
      NormNonNegative(b);
      RootPositive(sqrt, Dot(a, a));
      RootPositive(sqrt, Dot(b, b));
      Ratio(Dot(a, b), sqrt(Dot(a, a)), sqrt(Dot(b, b)))
  }

  lemma DotStep(a: seq<real>, b: seq<real>, i: nat)
    requires |a| == |b| && i < |a|
    ensures Dot(a[..i + 1], b[..i + 1]) == Dot(a[..i], b[..i]) + a[i] * b[i]
  {
    assert a[..i + 1][..i] == a[..i] && b[..i + 1][..i] == b[..i];
  }

  /** The single pass over both vectors with three accumulators. */
  method CosineSimilarity(sqrt: real -> real, a: seq<real>, b: seq<real>) returns (r: real)
    requires IsSqrt(sqrt)
    ensures r == Similarity(sqrt, a, b)
  {
    if |a| != |b| || |a| == 0 {
      return 0.0;
    }
    var dot, normA, normB := 0.0, 0.0, 0.0;
    for i := 0 to |a|
      invariant dot == Dot(a[..i], b[..i])
      invariant normA == Dot(a[..i], a[..i])
      invariant normB == Dot(b[..i], b[..i])
    {
      DotStep(a, b, i);
      DotStep(a, a, i);
      DotStep(b, b, i);
      dot := dot + a[i] * b[i];
      normA := normA + a[i] * a[i];
      normB := normB + b[i] * b[i];
    }
    assert a[..|a|] == a && b[..|b|] == b;
    if normA == 0.0 || normB == 0.0 {
      return 0.0;
    }
    NormNonNegative(a);
    NormNonNegative(b);
    RootPositive(sqrt, normA);
    RootPositive(sqrt, normB);
    PositiveProduct(sqrt(normA), sqrt(normB), sqrt(normA) * sqrt(normB));
    return dot / (sqrt(normA) * sqrt(normB));
  }

  // ----- The defining equations -----

  lemma QuotientTimesDivisor(p: real, d: real)
    requires d != 0.0
    ensures p / d * d == p
  {
  }

  /** The similarity is the number which, times the two lengths, is the inner product; and
      it is 0 where there is no such number to find. */
  lemma SimilarityIsCosine(sqrt: real -> real, a: seq<real>, b: seq<real>)
    requires IsSqrt(sqrt)
    ensures |a| == |b| && Dot(a, a) != 0.0 && Dot(b, b) != 0.0 ==>
              Similarity(sqrt, a, b) * (sqrt(Dot(a, a)) * sqrt(Dot(b, b))) == Dot(a, b)
    ensures |a| != |b| || Dot(a, a) == 0.0 || Dot(b, b) == 0.0 ==> Similarity(sqrt, a, b) == 0.0
  {
    if |a| == |b| && Dot(a, a) != 0.0 && Dot(b, b) != 0.0 {
      NormNonNegative(a);
      NormNonNegative(b);
      RootPositive(sqrt, Dot(a, a));
      RootPositive(sqrt, Dot(b, b));
      var u, v := sqrt(Dot(a, a)), sqrt(Dot(b, b));
      PositiveProduct(u, v, u * v);
      QuotientTimesDivisor(Dot(a, b), u * v);
    }
  }

  /** The inner product of single numbers is their product, and that of vectors put end to
      end is the sum: together this says what it is for all vectors. */
  lemma {:induction false} DotIsSum(a: seq<real>, b: seq<real>, c: seq<real>, d: seq<real>)
    requires |a| == |b| && |c| == |d|
    ensures Dot(a + c, b + d) == Dot(a, b) + Dot(c, d)
    ensures |a| == 1 ==> Dot(a, b) == a[0] * b[0]
    decreases |c|
  {
    if c == [] {
      assert a + c == a && b + d == b;
    } else {
      var n := |c| - 1;
      DotIsSum(a, b, c[..n], d[..n]);
      assert (a + c)[..|a + c| - 1] == a + c[..n] && (b + d)[..|b + d| - 1] == b + d[..n];
    }
  }

  // ----- Symmetry -----

  lemma {:induction false} DotSymmetric(a: seq<real>, b: seq<real>)
    requires |a| == |b|
    ensures Dot(a, b) == Dot(b, a)
  {
    if a != [] {
      DotSymmetric(a[..|a| - 1], b[..|b| - 1]);
    }
  }

  lemma Symmetric(sqrt: real -> real, a: seq<real>, b: seq<real>)
    requires IsSqrt(sqrt)
    ensures Similarity(sqrt, a, b) == Similarity(sqrt, b, a)
  {
    if |a| == |b| {
      DotSymmetric(a, b);
    }
  }

  // ----- Cauchy-Schwarz -----

  lemma SquareSign(x: real, q: real)
    requires q == x * x
    ensures q >= 0.0
    ensures x != 0.0 ==> q > 0.0
  {
    if x > 0.0 {
      PositiveProduct(x, x, q);
    } else if x < 0.0 {
      var y := -x;
      assert q == y * y;
      PositiveProduct(y, y, q);
    }
  }

  /** The squared length of a - k b, in terms of the three products. */
  function Quad(s: real, p: real, t: real, k: real): real {
    s - 2.0 * k * p + k * k * t
  }

  lemma QuadStep(s: real, p: real, t: real, s': real, p': real, t': real, x: real, y: real, k: real)
    requires Quad(s, p, t, k) >= 0.0
    requires s' == s + x * x && p' == p + x * y && t' == t + y * y
    ensures Quad(s', p', t', k) >= 0.0
  {
    assert Quad(s', p', t', k) == Quad(s, p, t, k) + (x - k * y) * (x - k * y);
    SquareSign(x - k * y, (x - k * y) * (x - k * y));
  }

  ghost predicate Near(a: seq<real>, b: seq<real>, k: real)
    requires |a| == |b|
  {
    Quad(Dot(a, a), Dot(a, b), Dot(b, b), k) >= 0.0
  }

  lemma NearStep(a: seq<real>, b: seq<real>, k: real)
    requires |a| == |b| > 0 && Near(a[..|a| - 1], b[..|b| - 1], k)
    ensures Near(a, b, k)
  {
    var n := |a| - 1;
    QuadStep(Dot(a[..n], a[..n]), Dot(a[..n], b[..n]), Dot(b[..n], b[..n]),
             Dot(a, a), Dot(a, b), Dot(b, b), a[n], b[n], k);
  }

  lemma {:induction false} DifferenceNonNegative(a: seq<real>, b: seq<real>, k: real)
    requires |a| == |b|
    ensures Near(a, b, k)
  {
    if a != [] {
      DifferenceNonNegative(a[..|a| - 1], b[..|b| - 1], k);
      NearStep(a, b, k);
    }
  }

  lemma Quotient(s: real, p: real, t: real, k: real)
    requires t > 0.0 && k == p / t && Quad(s, p, t, k) >= 0.0
    ensures p * p <= s * t
  {
    assert k * t == p;
    assert k * k * t == k * p;
    assert s - k * p >= 0.0;
    assert (s - k * p) * t >= 0.0;
    assert k * p * t == p * p;
  }

  lemma NegativeSomewhere(s: real, p: real, k: real)
    requires p != 0.0 && k == (s + 1.0) / (2.0 * p)
    ensures Quad(s, p, 0.0, k) == -1.0
  {
    assert k * (2.0 * p) == s + 1.0;
    assert 2.0 * k * p == k * (2.0 * p);
  }

  lemma CauchySchwarz(a: seq<real>, b: seq<real>)
    requires |a| == |b|
    ensures Dot(a, b) * Dot(a, b) <= Dot(a, a) * Dot(b, b)
  {
    var s, p, t := Dot(a, a), Dot(a, b), Dot(b, b);
    NormNonNegative(b);
    if t > 0.0 {
      DifferenceNonNegative(a, b, p / t);
      Quotient(s, p, t, p / t);
    } else if p != 0.0 {
      DifferenceNonNegative(a, b, (s + 1.0) / (2.0 * p));
      NegativeSomewhere(s, p, (s + 1.0) / (2.0 * p));
    }
  }

  lemma SquaresOrder(p: real, m: real, pp: real, mm: real)
    requires m > 0.0 && pp == p * p && mm == m * m && pp <= mm
    ensures p <= m
  {
    assert (p - m) * (p + m) == pp - mm;
    if p > m {
      PositiveProduct(p - m, p + m, (p - m) * (p + m));
    }
  }

  lemma QuotientOrder(p: real, m: real, r: real)
    requires m > 0.0 && r * m == p && p <= m
    ensures r <= 1.0
  {
    assert (r - 1.0) * m == p - m;
    if r > 1.0 {
      PositiveProduct(r - 1.0, m, (r - 1.0) * m);
    }
  }

  lemma Bounded(p: real, u: real, v: real)
    requires u > 0.0 && v > 0.0 && p * p <= (u * v) * (u * v)
    ensures -1.0 <= Ratio(p, u, v) <= 1.0
  {
    var m := u * v;
    PositiveProduct(u, v, m);
    var q, r := -p, p / m;
    assert q * q == p * p;
    SquaresOrder(p, m, p * p, m * m);
    SquaresOrder(q, m, q * q, m * m);
    assert r * m == p && (-r) * m == q;
    QuotientOrder(p, m, r);
    QuotientOrder(q, m, -r);
  }

  lemma ProductOfRoots(u: real, v: real, s: real, t: real)
    requires u * u == s && v * v == t
    ensures (u * v) * (u * v) == s * t
  {
    assert (u * v) * (u * v) == (u * u) * (v * v);
  }

  /** The score lies in [-1, 1]. */
  lemma InRange(sqrt: real -> real, a: seq<real>, b: seq<real>)
    requires IsSqrt(sqrt)
    ensures -1.0 <= Similarity(sqrt, a, b) <= 1.0
  {
    if |a| == |b| && |a| != 0 && Dot(a, a) != 0.0 && Dot(b, b) != 0.0 {
      NormNonNegative(a);
      NormNonNegative(b);
      RootPositive(sqrt, Dot(a, a));
      RootPositive(sqrt, Dot(b, b));
      CauchySchwarz(a, b);
      var u, v := sqrt(Dot(a, a)), sqrt(Dot(b, b));
      ProductOfRoots(u, v, Dot(a, a), Dot(b, b));
      Bounded(Dot(a, b), u, v);
    }
  }

  // ----- A vector with itself, and scaling -----

  ghost predicate Nonzero(a: seq<real>) {
    exists i :: 0 <= i < |a| && a[i] != 0.0
  }

  lemma {:induction false} NonzeroNorm(a: seq<real>)
    ensures Nonzero(a) <==> Dot(a, a) > 0.0
  {
    if a != [] {
      var n := |a| - 1;
      NonzeroNorm(a[..n]);
      NormNonNegative(a[..n]);
      var q := a[n] * a[n];
      SquareSign(a[n], q);
      assert Dot(a, a) == Dot(a[..n], a[..n]) + q;
      if Nonzero(a[..n]) {
        var i :| 0 <= i < n && a[..n][i] != 0.0;
        assert a[i] != 0.0;
      } else {
        assert forall i | 0 <= i < n :: a[i] == a[..n][i] == 0.0;
        assert Nonzero(a) <==> a[n] != 0.0;
        assert Dot(a, a) == q;
      }
    }
  }

  lemma DivideBySelf(d: real)
    requires d != 0.0
    ensures d / d == 1.0
  {
  }

  /** A vector scores 1 against itself exactly when it is not zero, and 0 otherwise. */
  lemma SelfSimilarity(sqrt: real -> real, a: seq<real>)
    requires IsSqrt(sqrt)
    ensures Similarity(sqrt, a, a) == if Nonzero(a) then 1.0 else 0.0
  {
    NonzeroNorm(a);
    NormNonNegative(a);
    if Nonzero(a) {
      RootPositive(sqrt, Dot(a, a));
      assert sqrt(Dot(a, a)) * sqrt(Dot(a, a)) == Dot(a, a);
      DivideBySelf(Dot(a, a));
    }
  }

  function Scale(k: real, a: seq<real>): (r: seq<real>)
    ensures |r| == |a| && forall i | 0 <= i < |a| :: r[i] == k * a[i]
  {
    seq(|a|, i requires 0 <= i < |a| => k * a[i])
  }

  lemma Distribute(k: real, p: real, x: real, y: real)
    ensures k * p + (k * x) * y == k * (p + x * y)
  {
    assert (k * x) * y == k * (x * y);
  }

  lemma {:induction false} DotScales(k: real, a: seq<real>, b: seq<real>)
    requires |a| == |b|
    ensures Dot(Scale(k, a), b) == k * Dot(a, b)
  {
    if a != [] {
      var n := |a| - 1;
      DotScales(k, a[..n], b[..n]);
      assert Scale(k, a)[..n] == Scale(k, a[..n]) by {
        forall i | 0 <= i < n ensures Scale(k, a)[..n][i] == Scale(k, a[..n])[i] {
          assert a[..n][i] == a[i];
        }
      }
      Distribute(k, Dot(a[..n], b[..n]), a[n], b[n]);
    }
  }

  lemma NormScales(k: real, a: seq<real>)
    ensures Dot(Scale(k, a), Scale(k, a)) == k * k * Dot(a, a)
  {
    var p, r := Dot(a, a), Dot(a, Scale(k, a));
    DotScales(k, a, Scale(k, a));
    DotSymmetric(a, Scale(k, a));
    DotScales(k, a, a);
    assert r == k * p;
    assert k * r == k * (k * p) == k * k * p;
  }

  lemma NoZeroDivisors(x: real, y: real)
    requires x != 0.0 && y != 0.0
    ensures x * y != 0.0
  {
    assert (x * y) / y == x;
  }

  lemma RootUnique(u: real, v: real)
    requires u >= 0.0 && v >= 0.0 && u * u == v * v
    ensures u == v
  {
    assert (u - v) * (u + v) == u * u - v * v;
    if u != v {
      NoZeroDivisors(u - v, u + v);
    }
  }

  lemma CancelFactor(k: real, p: real, m: real)
    requires k > 0.0 && m > 0.0
    ensures (k * p) / (k * m) == p / m
  {
    var r := p / m;
    assert r * m == p;
    assert r * (k * m) == k * p;
  }

  /** Scaling a vector by a positive factor leaves its scores alone. */
  lemma ScaleInvariant(sqrt: real -> real, k: real, a: seq<real>, b: seq<real>)
    requires IsSqrt(sqrt) && k > 0.0
    ensures Similarity(sqrt, Scale(k, a), b) == Similarity(sqrt, a, b)
  {
    if |a| == |b| && |a| != 0 {
      var a' := Scale(k, a);
      NormScales(k, a);
      NormNonNegative(a);
      ScaledNorm(k, Dot(a, a), Dot(a', a'));
      if Dot(a, a) != 0.0 && Dot(b, b) != 0.0 {
        DotScales(k, a, b);
        ScaledRatio(sqrt, k, a, b, Dot(a, a), Dot(a', a'), Dot(a, b), Dot(a', b));
      }
    }
  }

  lemma ScaledRatio(sqrt: real -> real, k: real, a: seq<real>, b: seq<real>, d: real, d': real, p: real, p': real)
    requires IsSqrt(sqrt) && k > 0.0 && |a| == |b| && Dot(b, b) != 0.0
    requires d > 0.0 && d' > 0.0 && d' == k * k * d && p' == k * p
    ensures sqrt(d) > 0.0 && sqrt(d') > 0.0 && sqrt(Dot(b, b)) > 0.0
    ensures Ratio(p', sqrt(d'), sqrt(Dot(b, b))) == Ratio(p, sqrt(d), sqrt(Dot(b, b)))
  {
    NormNonNegative(b);
    RootPositive(sqrt, Dot(b, b));
    RootPositive(sqrt, d);
    RootPositive(sqrt, d');
    ScaledRoot(sqrt, k, d, d');
    ScaledQuotient(k, p, p', sqrt(d), sqrt(d'), sqrt(Dot(b, b)));
  }

  lemma ScaledNorm(k: real, d: real, d': real)
    requires k > 0.0 && d >= 0.0 && d' == k * k * d
    ensures d' >= 0.0 && (d' == 0.0 <==> d == 0.0)
  {
    var kk := k * k;
    SquareSign(k, kk);
    if d > 0.0 {
      PositiveProduct(kk, d, kk * d);
    } else {
      assert kk * d == 0.0;
    }
  }

  lemma ScaledRoot(sqrt: real -> real, k: real, d: real, d': real)
    requires IsSqrt(sqrt) && k > 0.0 && d > 0.0 && d' == k * k * d
    ensures sqrt(d') == k * sqrt(d) > 0.0
  {
    ScaledNorm(k, d, d');
    RootPositive(sqrt, d);
    RootPositive(sqrt, d');
    var u := sqrt(d);
    assert u * u == d;
    ProductOfRoots(k, u, k * k, d);
    assert k * u >= 0.0;
    RootUnique(sqrt(d'), k * u);
  }

  lemma ScaledQuotient(k: real, p: real, p': real, u: real, u': real, v: real)
    requires k > 0.0 && u > 0.0 && v > 0.0 && p' == k * p && u' == k * u
    ensures u' > 0.0 && Ratio(p', u', v) == Ratio(p, u, v)
  {
    PositiveProduct(k, u, u');
    PositiveProduct(u, v, u * v);
    assert u' * v == k * (u * v);
    CancelFactor(k, p, u * v);
  }
}
