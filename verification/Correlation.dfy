/**
 The comparison of two language maps: mean, dispersion and correlation of their counters, over
 the reals.
 */
module Correlation {

  type Counts = seq<int>

  function Sum(a: Counts): int {
    if a == [] then 0 else Sum(a[..|a| - 1]) + a[|a| - 1]
  }

  function Mean(a: Counts): real
    requires a != []
  {
    Sum(a) as real / |a| as real
  }

  /** The sum of the products of the deviations from `p` and `q`. */
  function Products(a: Counts, p: real, b: Counts, q: real): real
    requires |a| == |b|
  {
    if a == [] then 0.0
    else
      var n := |a| - 1;
      Products(a[..n], p, b[..n], q) + (a[n] as real - p) * (b[n] as real - q)
  }

  function Covariance(a: Counts, b: Counts): real
    requires |a| == |b| != 0
  {
    Products(a, Mean(a), b, Mean(b)) / |a| as real
  }

  /** `sqrt`, as far as its argument is not negative. */
  ghost predicate IsSqrt(sqrt: real -> real) {
    forall v :: v >= 0.0 ==> sqrt(v) >= 0.0 && sqrt(v) * sqrt(v) == v
  }

  // ---------- Cauchy-Schwarz ----------

  lemma {:induction false} ProductsSymmetric(a: Counts, p: real, b: Counts, q: real)
    requires |a| == |b|
    ensures Products(a, p, b, q) == Products(b, q, a, p)
  {
    if a != [] {
      ProductsSymmetric(a[..|a| - 1], p, b[..|a| - 1], q);
    }
  }

  lemma Square(x: real)
    ensures x * x >= 0.0
  {
  }

  lemma {:induction false} SquaresNonNegative(a: Counts, p: real)
    ensures Products(a, p, a, p) >= 0.0
  {
    if a != [] {
      SquaresNonNegative(a[..|a| - 1], p);
      Square(a[|a| - 1] as real - p);
    }
  }

  lemma Expand(s: real, x: real, t: real, y: real)
    ensures (s * x - t * y) * (s * x - t * y) == s * s * (x * x) - 2.0 * s * t * (x * y) + t * t * (y * y)
  {
    var u, v := s * x, t * y;
    assert (u - v) * (u - v) == u * u - 2.0 * (u * v) + v * v;
    assert u * u == s * s * (x * x) && v * v == t * t * (y * y) && u * v == s * t * (x * y);
  }

  /** A sum of squares of combined deviations is not negative. */
  lemma {:induction false} CombinedSquares(a: Counts, p: real, b: Counts, q: real, s: real, t: real)
    requires |a| == |b|
    ensures s * s * Products(a, p, a, p) - 2.0 * s * t * Products(a, p, b, q) + t * t * Products(b, q, b, q) >= 0.0
  {
    if a != [] {
      var n := |a| - 1;
      var a', b' := a[..n], b[..n];
      CombinedSquares(a', p, b', q, s, t);
      var x, y := a[n] as real - p, b[n] as real - q;
      Expand(s, x, t, y);
      Square(s * x - t * y);
      Distribute(s * s, Products(a', p, a', p), x * x);
      Distribute(2.0 * s * t, Products(a', p, b', q), x * y);
      Distribute(t * t, Products(b', q, b', q), y * y);
    }
  }

  lemma Distribute(c: real, x: real, y: real)
    ensures c * (x + y) == c * x + c * y
  {
  }

  /** The squared product sum is at most the product of the square sums. */
  lemma CauchySchwarz(a: Counts, p: real, b: Counts, q: real)
    requires |a| == |b|
    ensures Products(a, p, b, q) * Products(a, p, b, q) <= Products(a, p, a, p) * Products(b, q, b, q)
  {
    hide Products;
    var x, y, z := Products(a, p, a, p), Products(a, p, b, q), Products(b, q, b, q);
    SquaresNonNegative(a, p);
    SquaresNonNegative(b, q);
    if x > 0.0 {
      CombinedSquares(a, p, b, q, y, x);
      Discriminant(x, y, z);
    } else if z > 0.0 {
      ProductsSymmetric(a, p, b, q);
      CombinedSquares(b, q, a, p, y, z);
      Discriminant(z, y, x);
    } else {
      CombinedSquares(a, p, b, q, 1.0, 1.0);
      CombinedSquares(a, p, b, q, 1.0, -1.0);
      BothNonPositive(y);
    }
  }

  lemma Discriminant(x: real, y: real, z: real)
    requires x > 0.0 && y * y * x - 2.0 * y * x * y + x * x * z >= 0.0
    ensures y * y <= x * z && y * y <= z * x
  {
    var d := x * z - y * y;
    assert y * y * x - 2.0 * y * x * y + x * x * z == x * d;
    if d < 0.0 {
      Scale(d, 0.0, x);
    }
  }

  lemma BothNonPositive(y: real)
    requires -2.0 * y >= 0.0 && 2.0 * y >= 0.0
    ensures y * y <= 0.0 * 0.0
  {
    assert y == 0.0;
  }

  lemma Scale(a: real, b: real, c: real)
    requires a < b && c > 0.0
    ensures a * c < b * c && c * a < c * b
  {
    assert (b - a) * c > 0.0;
  }

  // ---------- The correlation ----------

  const SMALLEST_DISPERSION := 0.00001

  /** The value of `UdmCheckLangMap` on maps with the given dispersions. */
  function Correlation(a: Counts, da: real, b: Counts, db: real): real
    requires |a| == |b| != 0
  {
    if da < SMALLEST_DISPERSION || db < SMALLEST_DISPERSION then 0.0 else Covariance(a, b) / da / db
  }

  /** `d` is the dispersion of `a`. */
  predicate Disperses(d: real, a: Counts)
    requires a != []
  {
    d >= 0.0 && d * d == Covariance(a, a)
  }

  lemma CorrelationInRange(a: Counts, da: real, b: Counts, db: real)
    requires |a| == |b| != 0 && Disperses(da, a) && Disperses(db, b)
    ensures -1.0 <= Correlation(a, da, b, db) <= 1.0
  {
    if da >= SMALLEST_DISPERSION && db >= SMALLEST_DISPERSION {
      hide Products;
      var n, p, q := |a| as real, Mean(a), Mean(b);
      var x, y, z := Products(a, p, a, p), Products(a, p, b, q), Products(b, q, b, q);
      CombinedSquares(a, p, b, q, db, da);
      CombinedSquares(a, p, b, q, db, -da);
      Scale(0.0, da, db);
      WithinOne(x, y, z, n, da, db);
    }
  }

  /** Both signs of the combined squares bound the covariance by the product of the dispersions. */
  lemma WithinOne(x: real, y: real, z: real, n: real, da: real, db: real)
    requires n > 0.0 && da > 0.0 && db > 0.0 && da * db > 0.0
    requires da * da == x / n && db * db == z / n
    requires db * db * x - 2.0 * db * da * y + da * da * z >= 0.0
    requires db * db * x - 2.0 * db * -da * y + -da * -da * z >= 0.0
    ensures -1.0 <= y / n / da / db <= 1.0
  {
    var c, d := y / n, da * db;
    Quotient(y, n);
    Quotient(x, n);
    Quotient(z, n);
    OneSide(x, y, z, n, da, db, c, d);
    OneSide(x, -y, z, n, da, db, -c, d);
    Quotients(c, da, db);
    RatioBound(c / da / db, c, d);
  }

  lemma RatioBound(r: real, c: real, d: real)
    requires d > 0.0 && r * d == c && -d <= c <= d
    ensures -1.0 <= r <= 1.0
  {
    if r > 1.0 {
      Scale(1.0, r, d);
    } else if r < -1.0 {
      Scale(r, -1.0, d);
    }
  }

  lemma Quotient(y: real, n: real)
    requires n > 0.0
    ensures y / n * n == y
  {
  }

  lemma Quotients(c: real, da: real, db: real)
    requires da > 0.0 && db > 0.0
    ensures c / da / db * (da * db) == c
  {
    assert c / da / db * db == c / da && c / da * da == c;
  }

  lemma OneSide(x: real, y: real, z: real, n: real, da: real, db: real, c: real, d: real)
    requires n > 0.0 && d > 0.0 && d == da * db
    requires x == da * da * n && z == db * db * n && y == c * n
    requires db * db * x - 2.0 * db * da * y + da * da * z >= 0.0
    ensures c <= d
  {
    assert db * db * x == d * d * n && da * da * z == d * d * n && db * da * y == d * c * n;
    assert (d * (d - c)) * n * 2.0 >= 0.0;
    if c > d {
      Scale(d - c, 0.0, d);
      Scale(d * (d - c), 0.0, n);
    }
  }

  lemma CorrelationIsSymmetric(a: Counts, da: real, b: Counts, db: real)
    requires |a| == |b| != 0
    ensures Correlation(a, da, b, db) == Correlation(b, db, a, da)
  {
    ProductsSymmetric(a, Mean(a), b, Mean(b));
    if da >= SMALLEST_DISPERSION && db >= SMALLEST_DISPERSION {
      var c := Covariance(a, b);
      assert c / da / db == c / (da * db);
      assert c / db / da == c / (db * da);
    }
  }

  /** A map that is spread out at all correlates fully with itself. */
  lemma SelfCorrelation(a: Counts, d: real)
    requires a != [] && Disperses(d, a) && d >= SMALLEST_DISPERSION
    ensures Correlation(a, d, a, d) == 1.0
  {
    assert Covariance(a, a) / d == d;
  }

  // ---------- The loops ----------

  class LangMap {
    const memb: array<int>
    var expectation: real
    var dispersion: real

    constructor (memb: array<int>)
      ensures this.memb == memb
    {
      this.memb := memb;
      expectation, dispersion := 0.0, 0.0;
    }

    /** The map carries the mean and the dispersion of its counters. */
    predicate Prepared()
      reads this, memb
    {
      memb.Length != 0 && expectation == Mean(memb[..]) && Disperses(dispersion, memb[..])
    }

    /** `UdmPrepareLangMap`. */
    method Prepare(sqrt: real -> real)
      requires memb.Length != 0 && IsSqrt(sqrt)
      modifies this
      ensures Prepared()
    {
      var sum := 0.0;
      var i := 0;
      while i < memb.Length
        invariant 0 <= i <= memb.Length
        invariant sum == Sum(memb[..i]) as real
      {
        assert memb[..i + 1][..i] == memb[..i];
        sum := sum + memb[i] as real;
        i := i + 1;
      }
      assert memb[..i] == memb[..];
      expectation := sum / memb.Length as real;
      var squares := Deviations(expectation, this, expectation);
      SquaresNonNegative(memb[..], expectation);
      QuotientNonNegative(squares, memb.Length as real);
      dispersion := sqrt(squares / memb.Length as real);
    }

    /** The loop over both maps: the products of the deviations, added up. */
    method Deviations(mine: real, other: LangMap, others: real) returns (sum: real)
      requires other.memb.Length == memb.Length
      ensures sum == Products(memb[..], mine, other.memb[..], others)
    {
      sum := 0.0;
      var i := 0;
      while i < memb.Length
        invariant 0 <= i <= memb.Length
        invariant sum == Products(memb[..i], mine, other.memb[..i], others)
      {
        assert memb[..i + 1][..i] == memb[..i] && other.memb[..i + 1][..i] == other.memb[..i];
        sum := sum + (memb[i] as real - mine) * (other.memb[i] as real - others);
        i := i + 1;
      }
      assert memb[..i] == memb[..] && other.memb[..i] == other.memb[..];
    }

    /** `UdmCheckLangMap`. */
    method Check(other: LangMap) returns (res: real)
      requires Prepared() && other.Prepared() && other.memb.Length == memb.Length
      ensures res == Correlation(memb[..], dispersion, other.memb[..], other.dispersion)
      ensures -1.0 <= res <= 1.0
      ensures (memb[..] == other.memb[..] && dispersion >= SMALLEST_DISPERSION) ==> res == 1.0
    {
      CorrelationInRange(memb[..], dispersion, other.memb[..], other.dispersion);
      if memb[..] == other.memb[..] {
        SameDispersion(dispersion, other.dispersion, memb[..]);
      }
      if dispersion < SMALLEST_DISPERSION || other.dispersion < SMALLEST_DISPERSION {
        return 0.0;
      }
      var up := Deviations(expectation, other, other.expectation);
      up := up / memb.Length as real;
      res := up / dispersion / other.dispersion;
      if memb[..] == other.memb[..] {
        SelfCorrelation(memb[..], dispersion);
      }
    }
  }

  lemma NonZeroProduct(x: real, y: real)
    requires x != 0.0 && y > 0.0
    ensures x * y != 0.0
  {
    if x > 0.0 {
      Scale(0.0, x, y);
    } else {
      Scale(x, 0.0, y);
    }
  }

  lemma QuotientNonNegative(x: real, n: real)
    requires x >= 0.0 && n > 0.0
    ensures x / n >= 0.0
  {
  }

  lemma SameDispersion(d: real, e: real, a: Counts)
    requires a != [] && Disperses(d, a) && Disperses(e, a)
    ensures d == e
  {
    EqualSquares(d, e);
  }

  lemma EqualSquares(d: real, e: real)
    requires d >= 0.0 && e >= 0.0 && d * d == e * e
    ensures d == e
  {
    assert (d - e) * (d + e) == 0.0;
    if d + e != 0.0 && d != e {
      NonZeroProduct(d - e, d + e);
    }
  }
}
