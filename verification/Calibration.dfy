/**
 Least-squares calibration of watts on utilisation, over exact reals.  The residual
 deviation is represented by its square.
 */
module Calibration {
  import opened Wrappers

  const MIN_CALIBRATION_SAMPLES := 5

  datatype Sample = Sample(x: real, y: real)  // utilisation, watts

  datatype FitError = TooFewSamples(count: nat) | InvalidSample(sample: Sample) | NoVariation | FallingPower

  /** watts = intercept + slope * utilisation */
  datatype Model = Model(intercept: real, slope: real, residualVariance: real, rSquared: real, samples: nat)

  predicate ValidSample(p: Sample) { 0.0 <= p.x <= 1.0 && p.y > 0.0 }

  // ----- The sums of the fit

  function Sum(s: seq<Sample>, term: Sample -> real): real {
    if s == [] then 0.0 else term(s[0]) + Sum(s[1..], term)
  }

  // The terms that the fit sums up.

  function X(): Sample -> real { (p: Sample) => p.x }

  function Y(): Sample -> real { (p: Sample) => p.y }

  function Times(p: real, q: real): real { p * q }

  function Square(r: real): real { Times(r, r) }

  function XX(mx: real): Sample -> real { (p: Sample) => Square(p.x - mx) }

  function XY(mx: real, my: real): Sample -> real { (p: Sample) => (p.x - mx) * (p.y - my) }

  function YY(my: real): Sample -> real { (p: Sample) => Square(p.y - my) }

  /** The residual of a sample against the line with intercept `a` and slope `b`. */
  function Residual(a: real, b: real): Sample -> real { (p: Sample) => p.y - (a + b * p.x) }

  function Squared(a: real, b: real): Sample -> real { (p: Sample) => Square(Residual(a, b)(p)) }

  function MeanX(s: seq<Sample>): real requires s != [] { Quotient(Sum(s, X()), |s| as real) }

  function MeanY(s: seq<Sample>): real requires s != [] { Quotient(Sum(s, Y()), |s| as real) }

  function Sxx(s: seq<Sample>): real requires s != [] { Sum(s, XX(MeanX(s))) }

  function Sxy(s: seq<Sample>): real requires s != [] { Sum(s, XY(MeanX(s), MeanY(s))) }

  function Syy(s: seq<Sample>): real requires s != [] { Sum(s, YY(MeanY(s))) }

  /** The sum of squared residuals. */
  function Sse(s: seq<Sample>, a: real, b: real): real { Sum(s, Squared(a, b)) }

  // ----- Raw moments: every sum above is a polynomial in them

  datatype Moments = Moments(n: real, x: real, y: real, xx: real, xy: real, yy: real)

  const NO_MOMENTS := Moments(0.0, 0.0, 0.0, 0.0, 0.0, 0.0)

  function Plus(p: Sample, m: Moments): Moments {
    Moments(1.0 + m.n, p.x + m.x, p.y + m.y, p.x * p.x + m.xx, p.x * p.y + m.xy, p.y * p.y + m.yy)
  }

  function Raw(s: seq<Sample>): Moments {
    if s == [] then NO_MOMENTS else Plus(s[0], Raw(s[1..]))
  }

  /** A sum whose term is what one sample adds to a function of the moments is that function. */
  lemma {:induction false} SumFromMoments(s: seq<Sample>, term: Sample -> real, total: Moments -> real)
    requires total(NO_MOMENTS) == 0.0
    requires forall p, m :: total(Plus(p, m)) == term(p) + total(m)
    ensures Sum(s, term) == total(Raw(s))
  {
    if s != [] { SumFromMoments(s[1..], term, total); }
  }

  function XXOf(m: Moments, mx: real): real { m.xx - 2.0 * mx * m.x + m.n * (mx * mx) }

  function XYOf(m: Moments, mx: real, my: real): real { m.xy - mx * m.y - my * m.x + m.n * (mx * my) }

  function YYOf(m: Moments, my: real): real { m.yy - 2.0 * my * m.y + m.n * (my * my) }

  function ResidualOf(m: Moments, a: real, b: real): real { m.y - m.n * a - b * m.x }

  function SseOf(m: Moments, a: real, b: real): real {
    m.yy - 2.0 * a * m.y - 2.0 * b * m.xy + m.n * (a * a) + 2.0 * (a * b) * m.x + (b * b) * m.xx
  }

  lemma {:induction false} CountIsLength(s: seq<Sample>)
    ensures Raw(s).n == |s| as real
  {
    if s != [] { CountIsLength(s[1..]); }
  }

  lemma FirstMoments(s: seq<Sample>)
    ensures Sum(s, X()) == Raw(s).x && Sum(s, Y()) == Raw(s).y
  {
    SumFromMoments(s, X(), (m: Moments) => m.x);
    SumFromMoments(s, Y(), (m: Moments) => m.y);
  }

  lemma PlusXX(p: Sample, m: Moments, mx: real)
    ensures XXOf(Plus(p, m), mx) == XX(mx)(p) + XXOf(m, mx)
  {
  }

  lemma PlusXY(p: Sample, m: Moments, mx: real, my: real)
    ensures XYOf(Plus(p, m), mx, my) == XY(mx, my)(p) + XYOf(m, mx, my)
  {
    assert (p.x - mx) * (p.y - my) == p.x * p.y - mx * p.y - my * p.x + mx * my;
  }

  lemma PlusYY(p: Sample, m: Moments, my: real)
    ensures YYOf(Plus(p, m), my) == YY(my)(p) + YYOf(m, my)
  {
  }

  lemma PlusSse(p: Sample, m: Moments, a: real, b: real)
    ensures SseOf(Plus(p, m), a, b) == Squared(a, b)(p) + SseOf(m, a, b)
  {
    calc {
      SseOf(Plus(p, m), a, b);
      { MomentsExpand(p, m, a, b); }
      p.y * p.y - 2.0 * a * p.y - 2.0 * b * (p.x * p.y) + a * a + 2.0 * (a * b) * p.x + (b * b) * (p.x * p.x)
          + SseOf(m, a, b);
      { SquareExpands(p, a, b); }
      Squared(a, b)(p) + SseOf(m, a, b);
    }
  }

  lemma SquareExpands(p: Sample, a: real, b: real)
    ensures Square(Residual(a, b)(p))
         == p.y * p.y - 2.0 * a * p.y - 2.0 * b * (p.x * p.y) + a * a + 2.0 * (a * b) * p.x + (b * b) * (p.x * p.x)
  {
  }

  lemma MomentsExpand(p: Sample, m: Moments, a: real, b: real)
    ensures SseOf(Plus(p, m), a, b)
         == p.y * p.y - 2.0 * a * p.y - 2.0 * b * (p.x * p.y) + a * a + 2.0 * (a * b) * p.x + (b * b) * (p.x * p.x)
             + SseOf(m, a, b)
  {
  }

  lemma CenteredMoments(s: seq<Sample>, mx: real, my: real)
    ensures Sum(s, XX(mx)) == XXOf(Raw(s), mx)
    ensures Sum(s, XY(mx, my)) == XYOf(Raw(s), mx, my)
    ensures Sum(s, YY(my)) == YYOf(Raw(s), my)
  {
    forall p, m ensures XXOf(Plus(p, m), mx) == XX(mx)(p) + XXOf(m, mx) { PlusXX(p, m, mx); }
    SumFromMoments(s, XX(mx), (m: Moments) => XXOf(m, mx));
    forall p, m ensures XYOf(Plus(p, m), mx, my) == XY(mx, my)(p) + XYOf(m, mx, my) { PlusXY(p, m, mx, my); }
    SumFromMoments(s, XY(mx, my), (m: Moments) => XYOf(m, mx, my));
    forall p, m ensures YYOf(Plus(p, m), my) == YY(my)(p) + YYOf(m, my) { PlusYY(p, m, my); }
    SumFromMoments(s, YY(my), (m: Moments) => YYOf(m, my));
  }

  lemma ResidualMoments(s: seq<Sample>, a: real, b: real)
    ensures Sum(s, Residual(a, b)) == ResidualOf(Raw(s), a, b)
  {
    SumFromMoments(s, Residual(a, b), (m: Moments) => ResidualOf(m, a, b));
  }

  lemma SseMoments(s: seq<Sample>, a: real, b: real)
    ensures Sse(s, a, b) == SseOf(Raw(s), a, b)
  {
    forall p, m ensures SseOf(Plus(p, m), a, b) == Squared(a, b)(p) + SseOf(m, a, b) { PlusSse(p, m, a, b); }
    SumFromMoments(s, Squared(a, b), (m: Moments) => SseOf(m, a, b));
  }

  // ----- The fit

  method FitCalibration(samples: seq<Sample>) returns (r: Result<Model, FitError>)
    ensures r == Fit(samples)
  {
    if |samples| < MIN_CALIBRATION_SAMPLES { return Err(TooFewSamples(|samples|)); }
    for i := 0 to |samples|
      invariant FirstInvalid(samples) == FirstInvalid(samples[i..])
    {
      assert samples[i..][1..] == samples[i + 1..] && samples[i..][0] == samples[i];
      if !ValidSample(samples[i]) { return Err(InvalidSample(samples[i])); }
    }
    assert samples[|samples|..] == [];
    var meanX, meanY := MeanX(samples), MeanY(samples);
    var sxx := Sum(samples, XX(meanX));
    if sxx < 0.000001 { return Err(NoVariation); }
    var slope := Sum(samples, XY(meanX, meanY)) / sxx;
    assert slope == Slope(samples);
    if slope < 0.0 { return Err(FallingPower); }
    var intercept := meanY - slope * meanX;
    assert intercept == Intercept(samples);
    var sse := Sse(samples, intercept, slope);
    var syy := Sum(samples, YY(meanY));
    var rSquared := if syy == 0.0 then 1.0 else 1.0 - sse / syy;
    r := Ok(Model(intercept, slope, sse / (|samples| as real - 2.0), rSquared, |samples|));
  }

  function FirstInvalid(s: seq<Sample>): Option<Sample> {
    if s == [] then None else if !ValidSample(s[0]) then Some(s[0]) else FirstInvalid(s[1..])
  }

  function Slope(s: seq<Sample>): real requires s != [] && Sxx(s) != 0.0 { Quotient(Sxy(s), Sxx(s)) }

  function Quotient(p: real, q: real): real requires q != 0.0 { p / q }

  function Intercept(s: seq<Sample>): real requires s != [] && Sxx(s) != 0.0 { Through(MeanX(s), MeanY(s), Slope(s)) }

  /** The intercept of the line through a point. */
  function Through(x: real, y: real, slope: real): real { y - slope * x }

  function Fit(s: seq<Sample>): Result<Model, FitError> {
    if |s| < MIN_CALIBRATION_SAMPLES then Err(TooFewSamples(|s|))
    else if FirstInvalid(s).Some? then Err(InvalidSample(FirstInvalid(s).value))
    else if Sxx(s) < 0.000001 then Err(NoVariation)
    else if Slope(s) < 0.0 then Err(FallingPower)
    else
      var sse := Sse(s, Intercept(s), Slope(s));
      var rSquared := if Syy(s) == 0.0 then 1.0 else 1.0 - Quotient(sse, Syy(s));
      Ok(Model(Intercept(s), Slope(s), Quotient(sse, |s| as real - 2.0), rSquared, |s|))
  }

  // ----- Optimality

  /** The part of the variation in watts that the fitted line explains. */
  function Explained(s: seq<Sample>): real requires s != [] && Sxx(s) != 0.0 { Times(Square(Slope(s)), Sxx(s)) }

  /** What ties the sums of the samples to the fitted line. */
  ghost predicate Statistics(s: seq<Sample>, n: real, mx: real, my: real, sxx: real, syy: real,
                             slope: real, intercept: real, explained: real)
  {
    && n == Raw(s).n > 0.0 && Raw(s).x == Times(n, mx) && Raw(s).y == Times(n, my)
    && sxx == Sum(s, XX(mx)) > 0.0 && syy == Sum(s, YY(my)) && Times(sxx, slope) == Sum(s, XY(mx, my))
    && intercept == Through(mx, my, slope) && explained == Times(Square(slope), sxx)
  }

  lemma QuotientTimes(p: real, q: real)
    requires q != 0.0
    ensures Times(q, Quotient(p, q)) == p
  {
  }

  lemma StatisticsOf(s: seq<Sample>)
    requires s != [] && Sxx(s) > 0.0
    ensures Statistics(s, |s| as real, MeanX(s), MeanY(s), Sxx(s), Syy(s), Slope(s), Intercept(s), Explained(s))
  {
    CountIsLength(s);
    FirstMoments(s);
    QuotientTimes(Sum(s, X()), |s| as real);
    QuotientTimes(Sum(s, Y()), |s| as real);
    QuotientTimes(Sxy(s), Sxx(s));
  }

  /** The second moments, from the centred sums. */
  lemma SecondMoments(s: seq<Sample>, n: real, mx: real, my: real)
    requires Raw(s).n == n && Raw(s).x == n * mx && Raw(s).y == n * my
    ensures Raw(s).xx == Sum(s, XX(mx)) + n * (mx * mx)
    ensures Raw(s).xy == Sum(s, XY(mx, my)) + n * (mx * my)
    ensures Raw(s).yy == Sum(s, YY(my)) + n * (my * my)
  {
    CenteredMoments(s, mx, my);
    CenteredInMeans(n, mx, my, Raw(s));
  }

  lemma CenteredInMeans(n: real, mx: real, my: real, m: Moments)
    requires m.n == n && m.x == n * mx && m.y == n * my
    ensures XXOf(m, mx) == m.xx - n * (mx * mx)
    ensures XYOf(m, mx, my) == m.xy - n * (mx * my)
    ensures YYOf(m, my) == m.yy - n * (my * my)
  {
  }

  /** With the centred sums as coordinates, the error of any line exceeds the fit's by two squares. */
  lemma ErrorDecomposes(n: real, mx: real, my: real, sxx: real, syy: real, slope: real, a: real, b: real)
    ensures
      var m := Moments(n, n * mx, n * my, sxx + n * (mx * mx), slope * sxx + n * (mx * my), syy + n * (my * my));
      SseOf(m, a, b) == Error(n, mx, my, sxx, syy, slope, a, b)
  {
  }

  function Error(n: real, mx: real, my: real, sxx: real, syy: real, slope: real, a: real, b: real): real {
    var u, v := (my - slope * mx - a) + (slope - b) * mx, slope - b;
    (syy - Square(slope) * sxx) + (n * Square(u) + sxx * Square(v))
  }

  lemma ErrorFromMoments(s: seq<Sample>, n: real, mx: real, my: real, sxx: real, syy: real, slope: real, a: real,
                         b: real)
    requires n == Raw(s).n && Raw(s).x == Times(n, mx) && Raw(s).y == Times(n, my)
    requires sxx == Sum(s, XX(mx)) && syy == Sum(s, YY(my)) && Times(sxx, slope) == Sum(s, XY(mx, my))
    ensures Sse(s, a, b) == Error(n, mx, my, sxx, syy, slope, a, b)
  {
    SecondMoments(s, n, mx, my);
    SseMoments(s, a, b);
    ErrorDecomposes(n, mx, my, sxx, syy, slope, a, b);
  }

  lemma {:induction false} SquaresAreNonNegative(s: seq<Sample>, term: Sample -> real)
    requires forall p :: term(p) >= 0.0
    ensures Sum(s, term) >= 0.0
  {
    if s != [] { SquaresAreNonNegative(s[1..], term); }
  }

  lemma PositiveProduct(p: real, q: real)
    requires p > 0.0 && q > 0.0
    ensures Times(p, q) > 0.0
  {
  }

  lemma SquareIsNonNegative(r: real)
    ensures Square(r) >= 0.0 && (Square(r) == 0.0 <==> r == 0.0)
  {
    if r > 0.0 { PositiveProduct(r, r); }
    if r < 0.0 {
      PositiveProduct(-r, -r);
      assert Square(-r) == Square(r);
    }
  }

  lemma Scaled(k: real, q: real)
    requires k > 0.0 && q >= 0.0
    ensures k * q >= 0.0 && (k * q == 0.0 <==> q == 0.0)
  {
  }

  lemma ErrorIsNonNegative(s: seq<Sample>, a: real, b: real)
    ensures Sse(s, a, b) >= 0.0
  {
    forall p ensures Squared(a, b)(p) >= 0.0 { SquareIsNonNegative(Residual(a, b)(p)); }
    SquaresAreNonNegative(s, Squared(a, b));
  }

  /** The least error is that of the fitted line alone. */
  lemma LeastError(n: real, mx: real, my: real, sxx: real, syy: real, slope: real, a: real, b: real)
    requires n > 0.0 && sxx > 0.0
    ensures Error(n, mx, my, sxx, syy, slope, my - slope * mx, slope) == syy - Square(slope) * sxx
    ensures Error(n, mx, my, sxx, syy, slope, a, b) >= syy - Square(slope) * sxx
    ensures Error(n, mx, my, sxx, syy, slope, a, b) == syy - Square(slope) * sxx <==> a == my - slope * mx && b == slope
  {
    var u, v := (my - slope * mx - a) + (slope - b) * mx, slope - b;
    SquareIsNonNegative(u);
    SquareIsNonNegative(v);
    Scaled(n, Square(u));
    Scaled(sxx, Square(v));
    assert v == 0.0 ==> u == my - slope * mx - a;
    assert (slope - slope) * mx == 0.0;
  }

  lemma LineErrors(s: seq<Sample>, n: real, mx: real, my: real, sxx: real, syy: real, slope: real, intercept: real,
                   explained: real,
                   a: real, b: real)
    requires Statistics(s, n, mx, my, sxx, syy, slope, intercept, explained)
    ensures Sse(s, intercept, slope) == syy - explained && explained >= 0.0
    ensures Sse(s, a, b) >= syy - explained
    ensures Sse(s, a, b) == syy - explained <==> a == intercept && b == slope
  {
    SquareIsNonNegative(slope);
    Scaled(sxx, Square(slope));
    ErrorFromMoments(s, n, mx, my, sxx, syy, slope, a, b);
    ErrorFromMoments(s, n, mx, my, sxx, syy, slope, intercept, slope);
    LeastError(n, mx, my, sxx, syy, slope, a, b);
  }

  lemma ErrorOfLines(s: seq<Sample>, a: real, b: real)
    requires s != [] && Sxx(s) > 0.0
    ensures Sse(s, Intercept(s), Slope(s)) == Syy(s) - Explained(s) && Explained(s) >= 0.0
    ensures Sse(s, a, b) >= Syy(s) - Explained(s)
    ensures Sse(s, a, b) == Syy(s) - Explained(s) <==> a == Intercept(s) && b == Slope(s)
  {
    StatisticsOf(s);
    LineErrors(s, |s| as real, MeanX(s), MeanY(s), Sxx(s), Syy(s), Slope(s), Intercept(s), Explained(s), a, b);
  }

  /** No other line has an error as small: the fitted pair is the unique minimiser. */
  lemma FitIsTheLeastSquaresLine(s: seq<Sample>, a: real, b: real)
    requires Fit(s).Ok?
    ensures
      var m := Fit(s).value;
      && Sse(s, a, b) >= Sse(s, m.intercept, m.slope)
      && (Sse(s, a, b) == Sse(s, m.intercept, m.slope) <==> a == m.intercept && b == m.slope)
  {
    ErrorOfLines(s, a, b);
  }

  lemma ResidualsCancel(s: seq<Sample>, n: real, mx: real, my: real, sxx: real, syy: real, slope: real,
                        intercept: real, explained: real)
    requires Statistics(s, n, mx, my, sxx, syy, slope, intercept, explained)
    ensures Sum(s, Residual(intercept, slope)) == 0.0
  {
    ResidualMoments(s, intercept, slope);
    assert n * intercept == n * my - slope * (n * mx);
  }

  lemma Proportion(sse: real, syy: real, explained: real)
    requires sse >= 0.0 && explained >= 0.0 && sse == syy - explained
    ensures
      var rSquared := if syy == 0.0 then 1.0 else 1.0 - Quotient(sse, syy);
      0.0 <= rSquared <= 1.0 && Times(rSquared, syy) == explained
  {
    if syy != 0.0 {
      var q := Quotient(sse, syy);
      QuotientTimes(sse, syy);
      assert q * syy == sse;
    }
  }

  lemma Share(sse: real, freedom: real)
    requires sse >= 0.0 && freedom > 0.0
    ensures Quotient(sse, freedom) >= 0.0
  {
  }

  /** Residuals sum to zero, the variance is that of the unexplained part, and r squared is a proportion. */
  lemma FitIdentities(s: seq<Sample>)
    requires Fit(s).Ok?
    ensures
      var m := Fit(s).value;
      && Sum(s, Residual(m.intercept, m.slope)) == 0.0
      && m.residualVariance >= 0.0 && Times(|s| as real - 2.0, m.residualVariance) == Syy(s) - Explained(s)
      && 0.0 <= m.rSquared <= 1.0 && Times(m.rSquared, Syy(s)) == Explained(s)
  {
    var sse, freedom := Sse(s, Intercept(s), Slope(s)), |s| as real - 2.0;
    StatisticsOf(s);
    ResidualsCancel(s, |s| as real, MeanX(s), MeanY(s), Sxx(s), Syy(s), Slope(s), Intercept(s), Explained(s));
    ErrorOfLines(s, 0.0, 0.0);
    ErrorIsNonNegative(s, Intercept(s), Slope(s));
    QuotientTimes(sse, freedom);
    Share(sse, freedom);
    Proportion(sse, Syy(s), Explained(s));
  }

  // ----- Order of the samples

  lemma {:induction false} SumSkips(s: seq<Sample>, i: nat, term: Sample -> real)
    requires i < |s|
    ensures Sum(s, term) == term(s[i]) + Sum(s[..i] + s[i + 1..], term)
  {
    if i > 0 {
      SumSkips(s[1..], i - 1, term);
      assert (s[..i] + s[i + 1..])[1..] == s[1..][..i - 1] + s[1..][i..];
    } else {
      assert s[..0] + s[1..] == s[1..];
    }
  }

  lemma WithoutOne(t: seq<Sample>, i: nat)
    requires i < |t|
    ensures multiset(t[..i] + t[i + 1..]) == multiset(t) - multiset{t[i]}
  {
    assert t == t[..i] + [t[i]] + t[i + 1..];
  }

  lemma {:induction false} SumIgnoresOrder(s: seq<Sample>, t: seq<Sample>, term: Sample -> real)
    requires multiset(s) == multiset(t)
    ensures Sum(s, term) == Sum(t, term)
    decreases |s|
  {
    if s == [] {
      assert |multiset(t)| == 0;
    } else {
      assert s[0] in multiset(t);
      var i :| 0 <= i < |t| && t[i] == s[0];
      var t' := t[..i] + t[i + 1..];
      SumSkips(t, i, term);
      assert multiset(s[1..]) == multiset(s) - multiset{s[0]} by { assert s == [s[0]] + s[1..]; }
      WithoutOne(t, i);
      SumIgnoresOrder(s[1..], t', term);
    }
  }

  lemma {:induction false} FirstInvalidIsInvalid(s: seq<Sample>)
    ensures FirstInvalid(s).None? <==> forall p :: p in multiset(s) ==> ValidSample(p)
  {
    if s != [] {
      FirstInvalidIsInvalid(s[1..]);
      assert s == [s[0]] + s[1..];
    }
  }

  /** The same samples in another order are accepted or refused alike, and give the same model. */
  lemma FitIgnoresOrder(s: seq<Sample>, t: seq<Sample>)
    requires multiset(s) == multiset(t)
    ensures Fit(s).Ok? <==> Fit(t).Ok?
    ensures Fit(s).Ok? ==> Fit(t) == Fit(s)
  {
    assert |s| == |multiset(s)| == |multiset(t)| == |t|;
    FirstInvalidIsInvalid(s);
    FirstInvalidIsInvalid(t);
    if s != [] {
      StatisticsIgnoreOrder(s, t);
      if Sxx(s) != 0.0 {
        LineIgnoresOrder(s, t);
        SumIgnoresOrder(s, t, Squared(Intercept(s), Slope(s)));
      }
    }
  }

  lemma StatisticsIgnoreOrder(s: seq<Sample>, t: seq<Sample>)
    requires multiset(s) == multiset(t) && s != [] && |t| == |s|
    ensures MeanX(s) == MeanX(t) && MeanY(s) == MeanY(t)
    ensures Sxx(s) == Sxx(t) && Sxy(s) == Sxy(t) && Syy(s) == Syy(t)
  {
    SumIgnoresOrder(s, t, X());
    SumIgnoresOrder(s, t, Y());
    SumIgnoresOrder(s, t, XX(MeanX(s)));
    SumIgnoresOrder(s, t, XY(MeanX(s), MeanY(s)));
    SumIgnoresOrder(s, t, YY(MeanY(s)));
  }

  lemma LineIgnoresOrder(s: seq<Sample>, t: seq<Sample>)
    requires multiset(s) == multiset(t) && s != [] && |t| == |s| && Sxx(s) != 0.0
    ensures Sxx(t) != 0.0 && Slope(s) == Slope(t) && Intercept(s) == Intercept(t)
  {
    StatisticsIgnoreOrder(s, t);
  }

  // ----- Exact samples

  ghost predicate OnLine(s: seq<Sample>, a: real, b: real) {
    forall i :: 0 <= i < |s| ==> s[i].y == a + b * s[i].x
  }

  lemma {:induction false} NoErrorOnTheLine(s: seq<Sample>, a: real, b: real)
    requires OnLine(s, a, b)
    ensures Sse(s, a, b) == 0.0
  {
    if s != [] {
      assert forall i :: 0 <= i < |s[1..]| ==> s[1..][i] == s[i + 1];
      NoErrorOnTheLine(s[1..], a, b);
      assert Residual(a, b)(s[0]) == 0.0;
      assert Squared(a, b)(s[0]) == 0.0;
    }
  }

  lemma NothingShared(q: real)
    requires q != 0.0
    ensures Quotient(0.0, q) == 0.0
  {
  }

  /** Varying samples on a line that does not fall are accepted, and the line is recovered without residual. */
  lemma ExactSamplesRecoverTheLine(s: seq<Sample>, a: real, b: real)
    requires |s| >= MIN_CALIBRATION_SAMPLES && FirstInvalid(s).None? && Sxx(s) >= 0.000001
    requires OnLine(s, a, b) && b >= 0.0
    ensures Fit(s) == Ok(Model(a, b, 0.0, 1.0, |s|))
  {
    NoErrorOnTheLine(s, a, b);
    ErrorOfLines(s, a, b);
    ErrorIsNonNegative(s, Intercept(s), Slope(s));
    NothingShared(|s| as real - 2.0);
    if Syy(s) != 0.0 { NothingShared(Syy(s)); }
  }

  // ----- Estimates

  /** Estimated watts; an estimate is never negative. */
  function Estimate(m: Model, utilisation: real): real {
    var watts := m.intercept + Times(m.slope, utilisation);
    if watts < 0.0 then 0.0 else watts
  }

  lemma {:induction false} WattsArePositive(s: seq<Sample>)
    requires FirstInvalid(s).None?
    ensures if s == [] then Sum(s, Y()) == 0.0 else Sum(s, Y()) > 0.0
  {
    if s != [] { WattsArePositive(s[1..]); }
  }

  lemma QuotientIsPositive(p: real, q: real)
    requires p > 0.0 && q > 0.0
    ensures Quotient(p, q) > 0.0
  {
  }

  lemma TimesGrows(k: real, u: real, v: real)
    requires k >= 0.0 && u <= v
    ensures Times(k, u) <= Times(k, v)
  {
    assert k * (v - u) >= 0.0;
  }

  /** The line where it is not negative, and otherwise zero. */
  lemma EstimateExactly(m: Model, utilisation: real)
    ensures
      var watts := m.intercept + m.slope * utilisation;
      Estimate(m, utilisation) == if watts >= 0.0 then watts else 0.0
  {
  }

  /** A fitted model estimates the mean watts at the mean utilisation, and never less at a higher one. */
  lemma EstimateFollowsTheSamples(s: seq<Sample>, u: real, v: real)
    requires Fit(s).Ok? && u <= v
    ensures Estimate(Fit(s).value, MeanX(s)) == MeanY(s) > 0.0
    ensures Estimate(Fit(s).value, u) <= Estimate(Fit(s).value, v)
  {
    WattsArePositive(s);
    QuotientIsPositive(Sum(s, Y()), |s| as real);
    TimesGrows(Slope(s), u, v);
    assert Intercept(s) == MeanY(s) - Times(Slope(s), MeanX(s));
  }

  // ----- What is accepted

  lemma {:induction false} SameTerms(s: seq<Sample>, f: Sample -> real, g: Sample -> real)
    requires forall p :: f(p) == g(p)
    ensures Sum(s, f) == Sum(s, g)
  {
    if s != [] { SameTerms(s[1..], f, g); }
  }

  lemma MeanIs(total: real, n: real, m: real)
    requires n > 0.0 && m * n == total
    ensures Quotient(total, n) == m
  {
    QuotientTimes(total, n);
    var q := Quotient(total, n);
    assert n * q == total;
    assert (q - m) * n == 0.0;
  }

  lemma SignOfQuotient(p: real, q: real)
    requires q > 0.0
    ensures Quotient(p, q) >= 0.0 <==> p >= 0.0
  {
    QuotientTimes(p, q);
    var r := Quotient(p, q);
    assert r < 0.0 ==> q * r < 0.0;
    assert r >= 0.0 ==> q * r >= 0.0;
  }

  /** The sums of the fit, written out around given means. */
  lemma SumsAroundTheMeans(s: seq<Sample>, mx: real, my: real)
    requires s != []
    requires mx * (|s| as real) == Sum(s, (p: Sample) => p.x) && my * (|s| as real) == Sum(s, (p: Sample) => p.y)
    ensures MeanX(s) == mx && MeanY(s) == my
    ensures Sxx(s) == Sum(s, (p: Sample) => (p.x - mx) * (p.x - mx))
    ensures Sxy(s) == Sum(s, (p: Sample) => (p.x - mx) * (p.y - my))
    ensures Syy(s) == Sum(s, (p: Sample) => (p.y - my) * (p.y - my))
  {
    SameTerms(s, (p: Sample) => p.x, X());
    SameTerms(s, (p: Sample) => p.y, Y());
    MeanIs(Sum(s, X()), |s| as real, mx);
    MeanIs(Sum(s, Y()), |s| as real, my);
    SameTerms(s, (p: Sample) => (p.x - mx) * (p.x - mx), XX(mx));
    SameTerms(s, (p: Sample) => (p.x - mx) * (p.y - my), XY(mx, my));
    SameTerms(s, (p: Sample) => (p.y - my) * (p.y - my), YY(my));
  }

  lemma {:induction false} FirstInvalidExactly(s: seq<Sample>)
    ensures FirstInvalid(s).None? <==> forall i :: 0 <= i < |s| ==> 0.0 <= s[i].x && s[i].x <= 1.0 && s[i].y > 0.0
    ensures FirstInvalid(s).Some? ==>
      exists i :: 0 <= i < |s| && s[i] == FirstInvalid(s).value && !(0.0 <= s[i].x && s[i].x <= 1.0 && s[i].y > 0.0)
        && forall j :: 0 <= j < i ==> 0.0 <= s[j].x && s[j].x <= 1.0 && s[j].y > 0.0
  {
    if s != [] && ValidSample(s[0]) {
      var rest := s[1..];
      FirstInvalidExactly(rest);
      assert forall i :: 1 <= i < |s| ==> s[i] == rest[i - 1];
      if FirstInvalid(rest).Some? {
        var i :| 0 <= i < |rest| && rest[i] == FirstInvalid(rest).value
          && !(0.0 <= rest[i].x && rest[i].x <= 1.0 && rest[i].y > 0.0)
          && forall j :: 0 <= j < i ==> 0.0 <= rest[j].x && rest[j].x <= 1.0 && rest[j].y > 0.0;
        assert s[i + 1] == rest[i];
      }
    }
  }

  /**
   Samples are accepted exactly when there are at least five, each with a utilisation from 0
   to 1 and positive watts, the utilisation varies, and the watts do not fall with it.
   Otherwise the first of these that fails is the refusal.
   */
  lemma AcceptedExactly(s: seq<Sample>, mx: real, my: real)
    requires mx * (|s| as real) == Sum(s, (p: Sample) => p.x) && my * (|s| as real) == Sum(s, (p: Sample) => p.y)
    ensures
      var valid := forall i :: 0 <= i < |s| ==> 0.0 <= s[i].x && s[i].x <= 1.0 && s[i].y > 0.0;
      var varies := Sum(s, (p: Sample) => (p.x - mx) * (p.x - mx)) >= 0.000001;
      var rises := Sum(s, (p: Sample) => (p.x - mx) * (p.y - my)) >= 0.0;
      && (Fit(s).Ok? <==> |s| >= 5 && valid && varies && rises)
      && (Fit(s).Ok? ==> Fit(s).value.samples == |s|)
      && (|s| < 5 ==> Fit(s) == Err(TooFewSamples(|s|)))
      && (|s| >= 5 && !valid ==> Fit(s).Err? && Fit(s).error.InvalidSample?)
      && (|s| >= 5 && valid && !varies ==> Fit(s) == Err(NoVariation))
      && (|s| >= 5 && valid && varies && !rises ==> Fit(s) == Err(FallingPower))
  {
    FirstInvalidExactly(s);
    if s != [] {
      SumsAroundTheMeans(s, mx, my);
      if Sxx(s) > 0.0 { SignOfQuotient(Sxy(s), Sxx(s)); }
    }
  }

  /** The sample that is named as invalid is the first one that is. */
  lemma FirstInvalidIsNamed(s: seq<Sample>)
    requires Fit(s).Err? && Fit(s).error.InvalidSample?
    ensures
      exists i ::
        && 0 <= i < |s| && s[i] == Fit(s).error.sample && !(0.0 <= s[i].x && s[i].x <= 1.0 && s[i].y > 0.0)
        && forall j :: 0 <= j < i ==> 0.0 <= s[j].x && s[j].x <= 1.0 && s[j].y > 0.0
  {
    FirstInvalidExactly(s);
  }
}
