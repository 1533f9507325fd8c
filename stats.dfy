/**
 * Pearson correlation of two equally long vectors of ratings, in exact real
 * arithmetic. Both similarity functions of the recommender reduce to `Pearson`:
 * the item version over the two rating columns of an inner join, the user
 * version over the ratings of the shared movies.
 *
 * Every recursive sum here peels the LAST element, so that a loop extending a
 * prefix by one element matches one unfolding.
 */
module Stats {
  import opened Wrappers

  function Sum(xs: seq<real>): real
  {
    if xs == [] then 0.0 else Sum(xs[..|xs| - 1]) + xs[|xs| - 1]
  }

  /** Arithmetic mean; 0 for no values (pandas gives NaN there, and no result depends on it). */
  function Mean(xs: seq<real>): real
  {
    if |xs| == 0 then 0.0 else Sum(xs) / (|xs| as real)
  }

  /** The values of `xs` shifted by `-m`. */
  function Centered(xs: seq<real>, m: real): (r: seq<real>)
    ensures |r| == |xs|
    ensures forall i | 0 <= i < |xs| :: r[i] == xs[i] - m
  {
    seq(|xs|, i requires 0 <= i < |xs| => xs[i] - m)
  }

  /** Sum of x^2. */
  function SqSum(xs: seq<real>): real
  {
    if xs == [] then 0.0 else SqSum(xs[..|xs| - 1]) + xs[|xs| - 1] * xs[|xs| - 1]
  }

  /** Sum of x * y over the paired values. */
  function Dot(xs: seq<real>, ys: seq<real>): real
    requires |xs| == |ys|
  {
    if xs == [] then 0.0 else Dot(xs[..|xs| - 1], ys[..|xs| - 1]) + xs[|xs| - 1] * ys[|xs| - 1]
  }

  /** Sum of (x - mx) * (y - my) over the paired values. */
  function CrossDev(xs: seq<real>, ys: seq<real>, mx: real, my: real): real
    requires |xs| == |ys|
  {
    Dot(Centered(xs, mx), Centered(ys, my))
  }

  /** Sum of (x - m)^2. */
  function SquareDev(xs: seq<real>, m: real): real
  {
    SqSum(Centered(xs, m))
  }

  /** What `math.sqrt` promises on non-negative arguments. */
  ghost predicate IsSqrt(sqrt: real -> real)
  {
    forall x: real :: 0.0 <= x ==> 0.0 <= sqrt(x) && sqrt(x) * sqrt(x) == x
  }

  /**
   * `num / (sqrt(dx) * sqrt(dy))`, undefined (`None`) when either centred sum of
   * squares is not positive or the product of their square roots is 0.
   */
  function Correlation(num: real, dx: real, dy: real, sqrt: real -> real): Option<real>
  {
    if dx <= 0.0 || dy <= 0.0 then None
    else
      var denom := sqrt(dx) * sqrt(dy);
      if denom == 0.0 then None else Some(num / denom)
  }

  /** Pearson correlation of the paired values `xs[i]`, `ys[i]`. */
  function Pearson(xs: seq<real>, ys: seq<real>, sqrt: real -> real): Option<real>
    requires |xs| == |ys|
  {
    var mx, my := Mean(xs), Mean(ys);
    Correlation(CrossDev(xs, ys, mx, my), SquareDev(xs, mx), SquareDev(ys, my), sqrt)
  }

  /** All values are equal. */
  ghost predicate Constant(xs: seq<real>)
  {
    forall i | 0 <= i < |xs| :: xs[i] == xs[0]
  }

  // ---------------------------------------------------------------- real arithmetic

  /*
   * Positivity of a square is routed through `Product` of two separately bounded
   * factors: the solver's interval reasoning loses strictness on `x * x` itself.
   */
  ghost function Product(a: real, b: real): real { a * b }
  ghost function Square(x: real): real { x * x }

  lemma ProductPositive(a: real, b: real)
    requires a > 0.0 && b > 0.0
    ensures Product(a, b) > 0.0
  {
  }

  lemma SquarePositive(x: real)
    requires x != 0.0
    ensures Square(x) > 0.0
  {
    if x > 0.0 {
      ProductPositive(x, x);
    } else {
      ProductPositive(-x, -x);
    }
  }

  lemma MulStrict(a: real, b: real, c: real)
    requires a > b && c > 0.0
    ensures a * c > b * c
  {
  }

  lemma SquareStrict(a: real, b: real)
    requires a > b > 0.0
    ensures a * a > b * b
  {
    MulStrict(a, b, a);
    MulStrict(a, b, b);
  }

  /** num^2 <= d^2 with d positive bounds num by d on both sides. */
  lemma AbsBound(num: real, d: real)
    requires d > 0.0 && num * num <= d * d
    ensures -d <= num <= d
  {
    if num > d {
      SquareStrict(num, d);
    } else if num < -d {
      SquareStrict(-num, d);
    }
  }

  lemma RatioInUnit(num: real, d: real)
    requires d > 0.0 && -d <= num <= d
    ensures -1.0 <= num / d <= 1.0
  {
    var r := num / d;
    assert r * d == num;
    if r > 1.0 {
      MulStrict(r, 1.0, d);
    } else if r < -1.0 {
      MulStrict(-1.0, r, d);
    }
  }

  /** Square roots of two positive numbers multiply to a positive root of their product. */
  lemma RootProduct(dx: real, dy: real, sqrt: real -> real)
    requires IsSqrt(sqrt) && dx > 0.0 && dy > 0.0
    ensures sqrt(dx) * sqrt(dy) > 0.0
    ensures (sqrt(dx) * sqrt(dy)) * (sqrt(dx) * sqrt(dy)) == dx * dy
  {
    var s1, s2 := sqrt(dx), sqrt(dy);
    assert s1 * s1 == dx && s2 * s2 == dy;
    assert s1 > 0.0 && s2 > 0.0;
    assert (s1 * s2) * (s1 * s2) == (s1 * s1) * (s2 * s2);
  }

  lemma CorrelationDefined(num: real, dx: real, dy: real, sqrt: real -> real)
    requires 0.0 < dx && 0.0 < dy && 0.0 < sqrt(dx) * sqrt(dy)
    ensures Correlation(num, dx, dy, sqrt) == Some(num / (sqrt(dx) * sqrt(dy)))
  {
  }

  /** With both sums of squares positive, the correlation hinges on the product of the roots. */
  lemma CorrelationAt(num: real, dx: real, dy: real, sqrt: real -> real, denom: real)
    requires dx > 0.0 && dy > 0.0 && denom == sqrt(dx) * sqrt(dy)
    ensures Correlation(num, dx, dy, sqrt) == if denom == 0.0 then None else Some(num / denom)
  {
  }

  // ---------------------------------------------------------------- sums

  lemma {:induction false} SumConstant(xs: seq<real>, c: real)
    requires forall i | 0 <= i < |xs| :: xs[i] == c
    ensures Sum(xs) == (|xs| as real) * c
  {
    if xs != [] {
      SumConstant(xs[..|xs| - 1], c);
    }
  }

  lemma {:induction false} SumBounds(xs: seq<real>, lo: real, hi: real)
    requires forall i | 0 <= i < |xs| :: lo <= xs[i] <= hi
    ensures lo * (|xs| as real) <= Sum(xs) <= hi * (|xs| as real)
  {
    if xs != [] {
      var n := |xs| - 1;
      SumBounds(xs[..n], lo, hi);
      assert lo * ((n + 1) as real) == lo * (n as real) + lo;
      assert hi * ((n + 1) as real) == hi * (n as real) + hi;
    }
  }

  /** The mean of values that lie in [lo, hi] lies there too. */
  lemma MeanWithin(xs: seq<real>, lo: real, hi: real)
    requires |xs| > 0
    requires forall i | 0 <= i < |xs| :: lo <= xs[i] <= hi
    ensures lo <= Mean(xs) <= hi
  {
    SumBounds(xs, lo, hi);
    var n := |xs| as real;
    var m := Sum(xs) / n;
    assert Mean(xs) == m;
    assert m * n == Sum(xs);
    assert lo * n <= m * n <= hi * n;
    if m < lo {
      MulStrict(lo, m, n);
    } else if m > hi {
      MulStrict(m, hi, n);
    }
  }

  lemma {:induction false} SumPositive(xs: seq<real>)
    requires |xs| > 0
    requires forall i | 0 <= i < |xs| :: xs[i] > 0.0
    ensures Sum(xs) > 0.0
  {
    var n := |xs| - 1;
    if n > 0 {
      SumPositive(xs[..n]);
    }
  }

  /** The mean of positive values is positive. */
  lemma MeanPositive(xs: seq<real>)
    requires |xs| > 0
    requires forall i | 0 <= i < |xs| :: xs[i] > 0.0
    ensures Mean(xs) > 0.0
  {
    SumPositive(xs);
  }

  lemma {:induction false} SqSumNonNegative(xs: seq<real>)
    ensures SqSum(xs) >= 0.0
  {
    if xs != [] {
      var n := |xs| - 1;
      SqSumNonNegative(xs[..n]);
      assert xs[n] * xs[n] >= 0.0;
    }
  }

  /** A sum of squares that is not positive has only zero terms. */
  lemma {:induction false} SqSumVanishes(xs: seq<real>, i: int)
    requires !(0.0 < SqSum(xs))
    requires 0 <= i < |xs|
    ensures xs[i] == 0.0
  {
    var n := |xs| - 1;
    SqSumNonNegative(xs[..n]);
    if xs[n] != 0.0 {
      SquarePositive(xs[n]);
    } else if i < n {
      SqSumVanishes(xs[..n], i);
    }
  }

  lemma {:induction false} SqSumOfZeros(xs: seq<real>)
    requires forall i | 0 <= i < |xs| :: xs[i] == 0.0
    ensures SqSum(xs) == 0.0
  {
    if xs != [] {
      SqSumOfZeros(xs[..|xs| - 1]);
    }
  }

  /** A sum of squares that is not positive makes every dot product with it vanish. */
  lemma {:induction false} DotVanishes(xs: seq<real>, ys: seq<real>)
    requires |xs| == |ys|
    requires !(0.0 < SqSum(xs))
    ensures Dot(xs, ys) == 0.0
  {
    if xs != [] {
      var n := |xs| - 1;
      SqSumNonNegative(xs[..n]);
      if xs[n] != 0.0 {
        SquarePositive(xs[n]);
      } else {
        DotVanishes(xs[..n], ys[..n]);
      }
    }
  }

  lemma {:induction false} DotSwap(xs: seq<real>, ys: seq<real>)
    requires |xs| == |ys|
    ensures Dot(ys, xs) == Dot(xs, ys)
  {
    if xs != [] {
      var n := |xs| - 1;
      DotSwap(xs[..n], ys[..n]);
      assert ys[n] * xs[n] == xs[n] * ys[n];
    }
  }

  lemma {:induction false} DotSelf(xs: seq<real>)
    ensures Dot(xs, xs) == SqSum(xs)
  {
    if xs != [] {
      DotSelf(xs[..|xs| - 1]);
    }
  }

  /** Extending the vectors by one pair adds that pair's centred product. */
  lemma CrossDevPrefix(xs: seq<real>, ys: seq<real>, mx: real, my: real, i: int)
    requires |xs| == |ys| && 0 <= i < |xs|
    ensures CrossDev(xs[..i + 1], ys[..i + 1], mx, my)
            == CrossDev(xs[..i], ys[..i], mx, my) + (xs[i] - mx) * (ys[i] - my)
  {
    assert Centered(xs[..i + 1], mx)[..i] == Centered(xs[..i], mx);
    assert Centered(ys[..i + 1], my)[..i] == Centered(ys[..i], my);
  }

  /** Extending the vector by one value adds that value's centred square. */
  lemma SquareDevPrefix(xs: seq<real>, m: real, i: int)
    requires 0 <= i < |xs|
    ensures SquareDev(xs[..i + 1], m) == SquareDev(xs[..i], m) + (xs[i] - m) * (xs[i] - m)
  {
    assert Centered(xs[..i + 1], m)[..i] == Centered(xs[..i], m);
  }

  lemma SumPrefix(xs: seq<real>, i: int)
    requires 0 <= i < |xs|
    ensures Sum(xs[..i + 1]) == Sum(xs[..i]) + xs[i]
  {
    assert xs[..i + 1][..i] == xs[..i];
  }

  // ---------------------------------------------------------------- Cauchy-Schwarz

  /**
   * The one-step inequality behind Cauchy-Schwarz: adding the term (a, b) to the
   * sums A = sum x^2, B = sum y^2, C = sum x*y with C^2 <= A*B keeps the bound,
   * provided C vanishes whenever A does.
   */
  lemma CauchySchwarzStep(a: real, b: real, A: real, B: real, C: real, A': real, B': real, C': real)
    requires A >= 0.0
    requires B >= 0.0
    requires C * C <= A * B
    requires 0.0 < A || C == 0.0
    requires A' == A + a * a
    requires B' == B + b * b
    requires C' == C + a * b
    ensures C' * C' <= A' * B'
  {
    var q := a * a * B + b * b * A - 2.0 * a * b * C;
    if 0.0 < A {
      var u := b * A - a * C;
      assert A * q == u * u + a * a * (A * B - C * C);
      assert u * u >= 0.0;
      assert a * a * (A * B - C * C) >= 0.0;
      assert A * q >= 0.0;
      assert q >= 0.0;
    } else {
      assert a * a * B >= 0.0 && b * b * A >= 0.0;
      assert q >= 0.0;
    }
    assert C' * C' == a * a * b * b + 2.0 * a * b * C + C * C;
    assert A' * B' == a * a * b * b + a * a * B + b * b * A + A * B;
  }

  /** Cauchy-Schwarz: Dot(xs, ys)^2 <= SqSum(xs) * SqSum(ys). */
  lemma {:induction false} CauchySchwarz(xs: seq<real>, ys: seq<real>)
    requires |xs| == |ys|
    ensures Dot(xs, ys) * Dot(xs, ys) <= SqSum(xs) * SqSum(ys)
  {
    if xs != [] {
      var n := |xs| - 1;
      CauchySchwarz(xs[..n], ys[..n]);
      SqSumNonNegative(xs[..n]);
      SqSumNonNegative(ys[..n]);
      if !(0.0 < SqSum(xs[..n])) {
        DotVanishes(xs[..n], ys[..n]);
      }
      CauchySchwarzStep(xs[n], ys[n], SqSum(xs[..n]), SqSum(ys[..n]), Dot(xs[..n], ys[..n]),
                        SqSum(xs), SqSum(ys), Dot(xs, ys));
    }
  }

  // ---------------------------------------------------------------- Pearson

  /** The centred sum of squares is non-negative, and positive exactly off a constant vector. */
  lemma DeviationPositive(xs: seq<real>)
    requires |xs| > 0
    ensures SquareDev(xs, Mean(xs)) >= 0.0
    ensures 0.0 < SquareDev(xs, Mean(xs)) <==> !Constant(xs)
  {
    var m := Mean(xs);
    var c := Centered(xs, m);
    SqSumNonNegative(c);
    if Constant(xs) {
      SumConstant(xs, xs[0]);
      var n := |xs| as real;
      assert m == (n * xs[0]) / n == xs[0];
      SqSumOfZeros(c);
    } else if !(0.0 < SqSum(c)) {
      forall i | 0 <= i < |xs| ensures xs[i] == xs[0] {
        SqSumVanishes(c, i);
        SqSumVanishes(c, 0);
      }
    }
  }

  /** A defined correlation rests on at least two pairs, whatever the square root. */
  lemma PearsonSupport(xs: seq<real>, ys: seq<real>, sqrt: real -> real)
    requires |xs| == |ys|
    ensures Pearson(xs, ys, sqrt).Some? ==> |xs| >= 2
  {
    if |xs| == 0 {
      assert Centered(xs, Mean(xs)) == [];
    } else if |xs| == 1 {
      assert Constant(xs);
      DeviationPositive(xs);
    }
  }

  /**
   * The correlation is defined exactly when there is at least one pair and
   * neither vector is constant; in particular it needs two pairs.
   */
  lemma PearsonDefined(xs: seq<real>, ys: seq<real>, sqrt: real -> real)
    requires |xs| == |ys|
    requires IsSqrt(sqrt)
    ensures Pearson(xs, ys, sqrt).Some? <==> |xs| > 0 && !Constant(xs) && !Constant(ys)
    ensures Pearson(xs, ys, sqrt).Some? ==> |xs| >= 2
  {
    if |xs| > 0 {
      DeviationPositive(xs);
      DeviationPositive(ys);
      var dx, dy := SquareDev(xs, Mean(xs)), SquareDev(ys, Mean(ys));
      if 0.0 < dx && 0.0 < dy {
        RootProduct(dx, dy, sqrt);
      }
      if |xs| == 1 {
        assert Constant(xs);
      }
    }
  }

  /** In exact arithmetic a defined correlation lies in [-1, 1]. */
  lemma PearsonRange(xs: seq<real>, ys: seq<real>, sqrt: real -> real)
    requires |xs| == |ys|
    requires IsSqrt(sqrt)
    ensures Pearson(xs, ys, sqrt).Some? ==> -1.0 <= Pearson(xs, ys, sqrt).value <= 1.0
  {
    var mx, my := Mean(xs), Mean(ys);
    var num, dx, dy := CrossDev(xs, ys, mx, my), SquareDev(xs, mx), SquareDev(ys, my);
    if 0.0 < dx && 0.0 < dy {
      CauchySchwarz(Centered(xs, mx), Centered(ys, my));
      RootProduct(dx, dy, sqrt);
      var d := sqrt(dx) * sqrt(dy);
      AbsBound(num, d);
      RatioInUnit(num, d);
      CorrelationDefined(num, dx, dy, sqrt);
    }
  }

  /** A non-constant vector correlates with itself exactly 1. */
  lemma PearsonIdentical(xs: seq<real>, sqrt: real -> real)
    requires IsSqrt(sqrt)
    ensures Pearson(xs, xs, sqrt).Some? ==> Pearson(xs, xs, sqrt) == Some(1.0)
  {
    var m := Mean(xs);
    var d := SquareDev(xs, m);
    DotSelf(Centered(xs, m));
    if 0.0 < d {
      var s := sqrt(d);
      assert s * s == d;
      CorrelationDefined(d, d, d, sqrt);
      assert d / (s * s) == d / d == 1.0;
    }
  }

  /** Pearson correlation is symmetric in its two vectors. */
  lemma PearsonSwap(xs: seq<real>, ys: seq<real>, sqrt: real -> real)
    requires |xs| == |ys|
    ensures Pearson(ys, xs, sqrt) == Pearson(xs, ys, sqrt)
  {
    var mx, my := Mean(xs), Mean(ys);
    DotSwap(Centered(xs, mx), Centered(ys, my));
    assert sqrt(SquareDev(ys, my)) * sqrt(SquareDev(xs, mx)) == sqrt(SquareDev(xs, mx)) * sqrt(SquareDev(ys, my));
  }
}
