/**
 What the language guesser counts and compares, in terms of its own: which bytes of a text are kept,
 when two grams share a counter, and what the correlation of two maps is.
 */
module LangLaws {
  import opened Crc32
  import opened LangMap
  import C = Correlation
  import opened Correlation

  // ---------- Cleaning ----------

  /** The bytes of a text that are no control bytes. */
  function Printable(s: Bytes): Bytes {
    if s == [] then [] else (if s[0] < 32 then [] else [s[0]]) + Printable(s[1..])
  }

  /** All bytes but the spaces at the front and those after a space. */
  function Collapsed(p: Bytes): Bytes {
    if p == [] then []
    else
      var n := |p| - 1;
      Collapsed(p[..n]) + if p[n] == ' ' as bv8 && (n == 0 || p[n - 1] == ' ' as bv8) then [] else [p[n]]
  }

  function Last(p: Bytes): bv8 {
    if p == [] then ' ' as bv8 else p[|p| - 1]
  }

  lemma DroppedMeans(b: bv8, prev: bv8)
    ensures Dropped(b, prev) <==> b < 32 || (b == ' ' as bv8 && prev == ' ' as bv8)
  {
  }

  predicate IsControl(b: bv8) {
    b < 32
  }

  predicate IsSpace(b: bv8) {
    b == ' ' as bv8
  }

  lemma PrintableStep(s: Bytes)
    requires s != []
    ensures Printable(s) == if IsControl(s[0]) then Printable(s[1..]) else [s[0]] + Printable(s[1..])
  {
    assert [] + Printable(s[1..]) == Printable(s[1..]);
  }

  lemma CleanStep(s: Bytes, prev: bv8)
    requires s != []
    ensures Clean(s, prev) ==
            if IsControl(s[0]) || (IsSpace(s[0]) && IsSpace(prev)) then Clean(s[1..], prev)
            else [s[0]] + Clean(s[1..], s[0])
  {
    DroppedMeans(s[0], prev);
  }

  lemma CollapsedStep(p: Bytes, b: bv8)
    ensures Collapsed(p + [b]) == Collapsed(p) + if IsSpace(b) && IsSpace(Last(p)) then [] else [b]
    ensures Last(p + [b]) == b
  {
    var q := p + [b];
    assert q[..|p|] == p && q[|p|] == b;
  }

  lemma SpaceIsSpace(b: bv8, c: bv8)
    requires IsSpace(b) && IsSpace(c)
    ensures b == c
  {
  }

  /** Cleaning goes on where it has come to: after printable bytes `p`, the last of them is what counts. */
  lemma {:induction false} CleanAfter(p: Bytes, s: Bytes)
    ensures Collapsed(p) + Clean(s, Last(p)) == Collapsed(p + Printable(s))
    decreases |s|
  {
    hide Clean, Dropped, Printable, Collapsed, Last, IsControl, IsSpace;
    if s == [] {
      CleanNothing(Last(p));
      assert p + [] == p;
    } else {
      PrintableStep(s);
      CleanStep(s, Last(p));
      if IsControl(s[0]) {
        CleanAfter(p, s[1..]);
      } else {
        var q := p + [s[0]];
        CollapsedStep(p, s[0]);
        assert p + ([s[0]] + Printable(s[1..])) == q + Printable(s[1..]);
        CleanAfter(q, s[1..]);
        if IsSpace(s[0]) && IsSpace(Last(p)) {
          SpaceIsSpace(s[0], Last(p));
          assert Collapsed(p) + [] == Collapsed(p);
        } else {
          assert Collapsed(p) + ([s[0]] + Clean(s[1..], s[0])) == (Collapsed(p) + [s[0]]) + Clean(s[1..], s[0]);
        }
      }
    }
  }

  lemma CleanNothing(prev: bv8)
    ensures Clean([], prev) == [] && Printable([]) == []
  {
  }

  /** Cleaning drops the control bytes, then leading and repeated spaces, and nothing else. */
  lemma CleanedIsCollapsed(s: Bytes)
    ensures Cleaned(s) == Collapsed(Printable(s))
  {
    hide Clean, Printable;
    CleanAfter([], s);
    assert [] + Printable(s) == Printable(s);
    assert Collapsed([]) + Clean(s, 32) == Clean(s, 32);
  }

  // ---------- Counters ----------

  /** The low twelve bits. */
  function LowBits(crc: bv32): bv32 {
    (crc << 20) >> 20
  }

  lemma MaskIsLowBits(crc: bv32)
    ensures crc & 0xFFF == LowBits(crc)
  {
  }

  lemma NumbersTellApart(x: bv32, y: bv32)
    requires x as nat == y as nat
    ensures x == y
  {
    assert (x as nat) as bv32 == x;
    assert (y as nat) as bv32 == y;
  }

  /** Two grams share a counter exactly when their checks agree in the low twelve bits. */
  lemma SharedCounter(g: Bytes, h: Bytes)
    ensures Bucket(g) == Bucket(h) <==> LowBits(Crc(g)) == LowBits(Crc(h))
  {
    hide Crc, LowBits;
    MaskIsLowBits(Crc(g));
    MaskIsLowBits(Crc(h));
    if Bucket(g) == Bucket(h) {
      NumbersTellApart(Crc(g) & 0xFFF, Crc(h) & 0xFFF);
    }
  }

  // ---------- Correlation ----------

  /** The sum of the products of the counters. */
  function Dot(a: Counts, b: Counts): int
    requires |a| == |b|
  {
    if a == [] then 0 else a[0] * b[0] + Dot(a[1..], b[1..])
  }

  function SumUp(a: Counts): int {
    if a == [] then 0 else a[0] + SumUp(a[1..])
  }

  lemma {:induction false} DotLast(a: Counts, b: Counts)
    requires |a| == |b| != 0
    ensures var n := |a| - 1; Dot(a, b) == Dot(a[..n], b[..n]) + a[n] * b[n]
    decreases |a|
  {
    var n := |a| - 1;
    if n > 0 {
      DotLast(a[1..], b[1..]);
      assert a[1..][..n - 1] == a[..n][1..] && b[1..][..n - 1] == b[..n][1..];
    }
  }

  lemma {:induction false} SumUpLast(a: Counts)
    requires a != []
    ensures var n := |a| - 1; SumUp(a) == SumUp(a[..n]) + a[n]
    decreases |a|
  {
    var n := |a| - 1;
    if n > 0 {
      SumUpLast(a[1..]);
      assert a[1..][..n - 1] == a[..n][1..];
    }
  }

  lemma {:induction false} SumIsSumUp(a: Counts)
    ensures Sum(a) == SumUp(a)
  {
    if a != [] {
      SumIsSumUp(a[..|a| - 1]);
      SumUpLast(a);
    }
  }

  lemma OneProduct(x: int, p: real, y: int, q: real)
    ensures (x as real - p) * (y as real - q) == (x * y) as real - q * x as real - p * y as real + p * q
  {
    assert (x * y) as real == x as real * y as real;
    var u, v := x as real, y as real;
    assert (u - p) * (v - q) == u * v - u * q - p * v + p * q;
  }

  lemma NoProducts(a: Counts, b: Counts)
    requires a == [] && b == []
    ensures Dot(a, b) == 0 && SumUp(a) == 0
  {
  }

  lemma OneTermMore(d: int, xy: int, s: int, x: int, t: int, y: int, n: int, p: real, q: real)
    ensures (d + xy) as real - q * (s + x) as real - p * (t + y) as real + (n + 1) as real * (p * q)
         == (d as real - q * s as real - p * t as real + n as real * (p * q))
            + (xy as real - q * x as real - p * y as real + p * q)
  {
    assert q * (s + x) as real == q * s as real + q * x as real;
    assert p * (t + y) as real == p * t as real + p * y as real;
    var r := p * q;
    assert (n + 1) as real * r == n as real * r + r;
  }

  lemma {:induction false} ProductsMean(a: Counts, p: real, b: Counts, q: real)
    requires |a| == |b|
    ensures Products(a, p, b, q) ==
            Dot(a, b) as real - q * SumUp(a) as real - p * SumUp(b) as real + |a| as real * (p * q)
  {
    hide Dot, SumUp;
    if a == [] {
      NoProducts(a, b);
    } else {
      var n := |a| - 1;
      ProductsMean(a[..n], p, b[..n], q);
      DotLast(a, b);
      SumUpLast(a);
      SumUpLast(b);
      OneProduct(a[n], p, b[n], q);
      OneTermMore(Dot(a[..n], b[..n]), a[n] * b[n], SumUp(a[..n]), a[n], SumUp(b[..n]), b[n], n, p, q);
    }
  }

  /** The covariance is the mean of the products less the product of the means. */
  lemma CovarianceMeans(a: Counts, b: Counts)
    requires |a| == |b| != 0
    ensures var n := |a| as real;
            Covariance(a, b) == Dot(a, b) as real / n - (SumUp(a) as real / n) * (SumUp(b) as real / n)
  {
    hide Products, Dot, SumUp, Sum;
    var n := |a| as real;
    var p, q := SumUp(a) as real / n, SumUp(b) as real / n;
    SumIsSumUp(a);
    SumIsSumUp(b);
    ProductsMean(a, p, b, q);
    Centred(Dot(a, b) as real, SumUp(a) as real, SumUp(b) as real, n);
  }

  lemma Centred(d: real, s: real, t: real, n: real)
    requires n > 0.0
    ensures (d - t / n * s - s / n * t + n * ((s / n) * (t / n))) / n == d / n - (s / n) * (t / n)
  {
    var p, q := s / n, t / n;
    assert p * n == s && q * n == t;
    assert n * (p * q) == (p * n) * q == s * q;
    assert p * t == p * (q * n) == (p * q) * n;
    assert q * s == (p * q) * n;
    var e := d - q * s - p * t + n * (p * q);
    assert e == d - (p * q) * n;
    assert (d / n - p * q) * n == d / n * n - (p * q) * n == e;
  }

  /** The correlation, times both dispersions, is the covariance; each dispersion squared is the variance. */
  lemma CorrelationMeans(a: Counts, da: real, b: Counts, db: real)
    requires |a| == |b| != 0 && Disperses(da, a) && Disperses(db, b)
    ensures var n := |a| as real;
            && da * da == Dot(a, a) as real / n - (SumUp(a) as real / n) * (SumUp(a) as real / n)
            && (da < 0.00001 || db < 0.00001 ==> C.Correlation(a, da, b, db) == 0.0)
            && (da >= 0.00001 && db >= 0.00001 ==>
                  C.Correlation(a, da, b, db) * (da * db) ==
                  Dot(a, b) as real / n - (SumUp(a) as real / n) * (SumUp(b) as real / n))
  {
    hide Dot, SumUp, Covariance;
    CovarianceMeans(a, a);
    CovarianceMeans(a, b);
    if da >= 0.00001 && db >= 0.00001 {
      Quotients(Covariance(a, b), da, db);
    }
  }
}
