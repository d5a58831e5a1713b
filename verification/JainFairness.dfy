/** How evenly the spines load a leaf: the statistics of
    `summarize_spine_dl_util_df` in
    simulation/parser/parse_dcn_spine_dl_util.py.  Floats are exact reals, and
    the coefficient of variation is kept squared, without its square root.  */
module JainFairness {
  import opened RealSums
  import opened RealArithmetic

  /** The average utilisation of every spine towards one leaf. */
  predicate Averages(xs: seq<real>) {
    xs != [] && forall k :: 0 <= k < |xs| ==> xs[k] >= 0.0
  }

  function Square(x: real): real {
    x * x
  }

  function Squares(xs: seq<real>): (r: seq<real>)
    ensures |r| == |xs| && forall k :: 0 <= k < |xs| ==> r[k] == Square(xs[k])
  {
    seq(|xs|, k requires 0 <= k < |xs| => Square(xs[k]))
  }

  function Deviations(xs: seq<real>, m: real): (r: seq<real>)
    ensures |r| == |xs| && forall k :: 0 <= k < |xs| ==> r[k] == Square(xs[k] - m)
  {
    seq(|xs|, k requires 0 <= k < |xs| => Square(xs[k] - m))
  }

  function Mean(xs: seq<real>): real
    requires xs != []
  {
    Sum(xs) / |xs| as real
  }

  /** `std(ddof=0)` squared */
  function Variance(xs: seq<real>): real
    requires xs != []
  {
    Sum(Deviations(xs, Mean(xs))) / |xs| as real
  }

  /** `cv` squared; zero if there is no load. */
  function CvSquared(xs: seq<real>): real
    requires xs != []
  {
    if Mean(xs) > 0.0 then Variance(xs) / (Mean(xs) * Mean(xs)) else 0.0
  }

  /** `jain`; zero if there is no load. */
  function Jain(xs: seq<real>): real
    requires xs != []
  {
    var denom := |xs| as real * Sum(Squares(xs));
    if denom > 0.0 then Sum(xs) * Sum(xs) / denom else 0.0
  }

  // ------------------------------------------------------------ sums of squares

  lemma {:induction false} DeviationsExpand(xs: seq<real>, m: real)
    ensures Sum(Deviations(xs, m)) == Sum(Squares(xs)) - 2.0 * m * Sum(xs) + |xs| as real * (m * m)
  {
    hide Square;
    if xs == [] {
    } else {
      var n := |xs| - 1;
      DeviationsExpand(xs[..n], m);
      assert Deviations(xs, m)[..n] == Deviations(xs[..n], m);
      assert Squares(xs)[..n] == Squares(xs[..n]);
      ExpandStep(Sum(xs[..n]), xs[n], m, n as real);
    }
  }

  lemma ExpandStep(s: real, x: real, m: real, n: real)
    ensures Square(x - m) - 2.0 * m * s + n * (m * m) == Square(x) - 2.0 * m * (s + x) + (n + 1.0) * (m * m)
  {
    assert (x - m) * (x - m) == x * x - 2.0 * m * x + m * m;
    assert (n + 1.0) * (m * m) == n * (m * m) + m * m;
    assert 2.0 * m * (s + x) == 2.0 * m * s + 2.0 * m * x;
  }

  /** No sum of squares exceeds the square of the sum; they agree exactly if at
      most one value is not zero.  */
  lemma {:induction false} SquaresBelowSquare(xs: seq<real>)
    requires forall k :: 0 <= k < |xs| ==> xs[k] >= 0.0
    ensures |xs| == 0 ==> AtMostOneLoaded(xs)
    ensures Sum(xs) >= 0.0 && Sum(Squares(xs)) <= Sum(xs) * Sum(xs)
    ensures Sum(xs) == 0.0 <==> Constantly(xs, 0.0)
    ensures Sum(Squares(xs)) == Sum(xs) * Sum(xs) <==> AtMostOneLoaded(xs)
  {
    hide Square;
    if xs == [] {
    } else {
      var n := |xs| - 1;
      var p := xs[..n];
      SquaresBelowSquare(p);
      assert Squares(xs)[..n] == Squares(p);
      SquareStep(Sum(p), xs[n], Sum(Squares(p)));
      LoadedStep(xs);
      AllButLast(xs, 0.0);
    }
  }

  predicate AtMostOneLoaded(xs: seq<real>) {
    forall i, j :: 0 <= i < j < |xs| ==> xs[i] == 0.0 || xs[j] == 0.0
  }

  lemma LoadedStep(xs: seq<real>)
    requires xs != []
    ensures var n := |xs| - 1;
      AtMostOneLoaded(xs) <==>
        AtMostOneLoaded(xs[..n]) && (xs[n] == 0.0 || Constantly(xs[..n], 0.0))
  {
    var n := |xs| - 1;
    var p := xs[..n];
    if AtMostOneLoaded(xs) {
      assert forall k :: 0 <= k < n ==> xs[k] == 0.0 || xs[n] == 0.0;
    }
    if AtMostOneLoaded(p) && (xs[n] == 0.0 || Constantly(p, 0.0)) {
      forall i, j | 0 <= i < j < |xs| ensures xs[i] == 0.0 || xs[j] == 0.0 {
        assert xs[i] == p[i];
        if j < n {
          assert xs[j] == p[j];
        }
      }
    }
  }

  lemma SquareStep(s: real, x: real, q: real)
    requires s >= 0.0 && x >= 0.0 && q <= s * s
    ensures q + Square(x) <= (s + x) * (s + x)
    ensures q + Square(x) == (s + x) * (s + x) <==> q == s * s && (s == 0.0 || x == 0.0)
  {
    assert (s + x) * (s + x) == s * s + 2.0 * (s * x) + x * x;
    NonNegativeProduct(s, x, s * x);
  }

  /** The squared deviations vanish exactly if every value is `m`. */
  lemma {:induction false} NoDeviation(xs: seq<real>, m: real)
    ensures Sum(Deviations(xs, m)) >= 0.0
    ensures Sum(Deviations(xs, m)) == 0.0 <==> Constantly(xs, m)
  {
    hide Square;
    if xs == [] {
      NothingDeviates(m);
    } else {
      var n := |xs| - 1;
      NoDeviation(xs[..n], m);
      assert Deviations(xs, m)[..n] == Deviations(xs[..n], m);
      SquareZero(xs[n] - m);
      AllButLast(xs, m);
    }
  }

  predicate Constantly(xs: seq<real>, m: real) {
    forall k :: 0 <= k < |xs| ==> xs[k] == m
  }

  lemma NothingDeviates(m: real)
    ensures Constantly([], m) && Sum(Deviations([], m)) == 0.0
  {
  }

  lemma AllButLast(xs: seq<real>, m: real)
    requires xs != []
    ensures Constantly(xs, m) <==> xs[|xs| - 1] == m && Constantly(xs[..|xs| - 1], m)
  {
    var p := xs[..|xs| - 1];
    assert forall k :: 0 <= k < |p| ==> p[k] == xs[k];
  }

  lemma SquareZero(x: real)
    ensures Square(x) == x * x && Square(x) >= 0.0
    ensures if x == 0.0 then Square(x) == 0.0 else Square(x) > 0.0
  {
    SquareSign(x, Square(x));
  }

  lemma SquareSign(x: real, q: real)
    requires q == x * x
    ensures q >= 0.0 && (q == 0.0 <==> x == 0.0)
  {
    if x > 0.0 {
      ProductSign(x, x, q);
    } else if x < 0.0 {
      var y := -x;
      ProductSign(y, y, q);
    }
  }

  // ------------------------------------------------------------ the two measures

  lemma MeanTimes(xs: seq<real>)
    requires xs != []
    ensures Mean(xs) * |xs| as real == Sum(xs)
  {
  }

  lemma LoadedMean(xs: seq<real>)
    requires Averages(xs)
    ensures Mean(xs) > 0.0 <==> Sum(xs) > 0.0
    ensures Mean(xs) > 0.0 <==> |xs| as real * Sum(Squares(xs)) > 0.0
    ensures !(Mean(xs) > 0.0) ==> Constantly(xs, 0.0)
  {
    hide Sum, Mean;
    var n := |xs| as real;
    MeanTimes(xs);
    SquaresBelowSquare(xs);
    SquaresPositive(xs);
    ProductSign(Mean(xs), n, Sum(xs));
    ProductSign(Sum(Squares(xs)), n, n * Sum(Squares(xs)));
  }

  lemma SquaresPositive(xs: seq<real>)
    requires Averages(xs)
    ensures Sum(Squares(xs)) > 0.0 <==> Sum(xs) > 0.0
  {
    NoDeviation(xs, 0.0);
    assert Deviations(xs, 0.0) == Squares(xs);
    SquaresBelowSquare(xs);
  }

  /** The variance as mean of squares less square of mean. */
  lemma VarianceIs(xs: seq<real>)
    requires xs != []
    ensures Variance(xs) * |xs| as real == Sum(Squares(xs)) - |xs| as real * (Mean(xs) * Mean(xs))
  {
    hide Sum, Mean;
    var n, m := |xs| as real, Mean(xs);
    MeanTimes(xs);
    DeviationsExpand(xs, m);
    assert m * Sum(xs) == n * (m * m);
  }

  /** Algebra: with S = n m, Q = n (V + m^2), S^2/(n Q) = 1/(1 + V/m^2). */
  lemma JainAlgebra(n: real, m: real, v: real, s: real, q: real, j: real, c: real)
    requires n > 0.0 && m > 0.0 && v >= 0.0 && s == m * n && v * n == q - n * (m * m) && n * q > 0.0
    requires j == s * s / (n * q) && c == v / (m * m)
    ensures c >= 0.0 && j == 1.0 / (1.0 + c)
  {
    var mm, u := m * m, 1.0 + c;
    SquareSign(m, mm);
    Quotient(v, mm, c);
    assert q == (v + mm) * n;
    assert mm * u == mm + v;
    Expand(n, mm, u, q);
    assert s * s == n * n * mm;
    Inverse(s * s, u, n * q, 1.0 / u);
  }

  lemma Expand(n: real, mm: real, u: real, q: real)
    requires q == (mm * u) * n
    ensures n * q == n * n * mm * u
  {
  }

  lemma Inverse(a: real, u: real, d: real, x: real)
    requires u > 0.0 && d > 0.0 && d == a * u && x == 1.0 / u
    ensures a / d == x
  {
    Quotient(1.0, u, x);
    assert x * d == a * (x * u);
    QuotientCompare(a, d, a / d, x, x * d);
  }

  lemma VarianceNonNegative(xs: seq<real>)
    requires xs != []
    ensures Variance(xs) >= 0.0
    ensures Variance(xs) == 0.0 <==> Constantly(xs, Mean(xs))
  {
    hide Sum, Mean;
    NoDeviation(xs, Mean(xs));
    var d := Sum(Deviations(xs, Mean(xs)));
    var n := |xs| as real;
    Quotient(d, n, d / n);
  }

  /** The two measures of imbalance say the same: Jain's index is 1/(1 + CV^2)
      exactly if there is any load; without any, both are set to zero.  */
  lemma JainIsInverseCv(xs: seq<real>)
    requires Averages(xs)
    ensures CvSquared(xs) >= 0.0
    ensures Jain(xs) == 1.0 / (1.0 + CvSquared(xs)) <==> Mean(xs) > 0.0
    ensures Mean(xs) <= 0.0 ==> Jain(xs) == 0.0 && CvSquared(xs) == 0.0
  {
    hide Sum, Mean, Variance;
    LoadedMean(xs);
    if Mean(xs) > 0.0 {
      MeanTimes(xs);
      VarianceIs(xs);
      VarianceNonNegative(xs);
      JainIs(xs);
      JainAlgebra(|xs| as real, Mean(xs), Variance(xs), Sum(xs), Sum(Squares(xs)), Jain(xs), CvSquared(xs));
    }
  }

  predicate AllEqual(xs: seq<real>) {
    forall i, j :: 0 <= i < j < |xs| ==> xs[i] == xs[j]
  }

  lemma EqualToMean(xs: seq<real>)
    requires xs != []
    ensures AllEqual(xs) <==> Constantly(xs, Mean(xs))
  {
    if AllEqual(xs) {
      assert xs == Constant(|xs|, xs[0]);
      SumConstant(|xs|, xs[0]);
    }
    AllAt(xs, Mean(xs));
  }

  lemma AllAt(xs: seq<real>, m: real)
    ensures Constantly(xs, m) ==> AllEqual(xs)
  {
  }

  /** Between even and completely uneven: at most 1, and 1 exactly if all spines
      carry the same; at least 1/n, and 1/n exactly if one carries everything.  */
  lemma JainRange(xs: seq<real>)
    requires Averages(xs) && Mean(xs) > 0.0
    ensures 1.0 / |xs| as real <= Jain(xs) <= 1.0
    ensures Jain(xs) == 1.0 <==> AllEqual(xs)
    ensures Jain(xs) == 1.0 / |xs| as real <==> AtMostOneLoaded(xs)
  {
    hide Sum, Mean, Variance, Jain, AllEqual, AtMostOneLoaded, Square;
    LoadedMean(xs);
    MeanTimes(xs);
    VarianceIs(xs);
    VarianceNonNegative(xs);
    EqualToMean(xs);
    SquaresBelowSquare(xs);
    JainIs(xs);
    RangeAlgebra(|xs| as real, Mean(xs), Variance(xs), Sum(xs), Sum(Squares(xs)), Jain(xs));
  }

  lemma JainIs(xs: seq<real>)
    requires xs != [] && |xs| as real * Sum(Squares(xs)) > 0.0
    ensures Jain(xs) == Sum(xs) * Sum(xs) / (|xs| as real * Sum(Squares(xs)))
  {
    hide Sum, Square;
  }

  lemma RangeAlgebra(n: real, m: real, v: real, s: real, q: real, j: real)
    requires n > 0.0 && v >= 0.0 && n * q > 0.0 && s == m * n && v * n == q - n * (m * m) && q <= s * s
    requires j == s * s / (n * q)
    ensures 1.0 / n <= j <= 1.0 && (j == 1.0 <==> v == 0.0) && (j == 1.0 / n <==> q == s * s)
  {
    var w, d, ss := v * n, n * q, s * s;
    SpreadIs(n, m, v, s, q);
    NonNegativeProduct(v, n, w);
    NonNegativeProduct(n, w, d - ss);
    QuotientCompare(ss, d, j, 1.0, d);
    Quotient(1.0, n, 1.0 / n);
    assert (1.0 / n) * d == q;
    QuotientCompare(ss, d, j, 1.0 / n, q);
  }

  lemma SpreadIs(n: real, m: real, v: real, s: real, q: real)
    requires s == m * n && v * n == q - n * (m * m)
    ensures n * q - s * s == n * (v * n)
  {
    assert s * s == n * (n * (m * m));
    assert n * (v * n) == n * q - n * (n * (m * m));
  }
}
