/** Batch gradient descent for a least-squares line, over the reals. */
module Descent {

  datatype Sample = Sample(x: real, y: real)

  /** The line y = m * x + c. */
  datatype Line = Line(m: real, c: real)

  const START := Line(0.1, 0.01)
  const ALPHA := 0.01
  const PASSES: nat := 4000

  function Residual(w: Line, s: Sample): real {
    (w.m * s.x + w.c) - s.y
  }

  /** Sum of the residuals. */
  function Intercept(d: seq<Sample>, w: Line): real {
    if d == [] then 0.0 else Intercept(d[..|d| - 1], w) + Residual(w, d[|d| - 1])
  }

  /** Sum of the residuals times x. */
  function Slope(d: seq<Sample>, w: Line): real {
    if d == [] then 0.0 else Slope(d[..|d| - 1], w) + Residual(w, d[|d| - 1]) * d[|d| - 1].x
  }

  /** Sum of the squared residuals, which the descent is to bring down. */
  function Loss(d: seq<Sample>, w: Line): real {
    if d == [] then 0.0
    else Loss(d[..|d| - 1], w) + Residual(w, d[|d| - 1]) * Residual(w, d[|d| - 1])
  }

  /** The step size times the mean of a gradient sum. */
  function Move(alpha: real, sum: real, lx: real): real
    requires lx != 0.0
  {
    alpha * (sum / lx)
  }

  /** One outer pass: c and m move against the mean gradient taken at the old line. */
  function Pass(d: seq<Sample>, w: Line, alpha: real): Line
    requires d != []
  {
    var lx := |d| as real;
    Line(w.m - Move(alpha, Slope(d, w), lx), w.c - Move(alpha, Intercept(d, w), lx))
  }

  function Run(d: seq<Sample>, w: Line, alpha: real, passes: nat): Line
    requires d != []
  {
    if passes == 0 then w else Pass(d, Run(d, w, alpha, passes - 1), alpha)
  }

  function Samples(xs: seq<real>, ys: seq<real>, lx: nat): (d: seq<Sample>)
    requires lx <= |xs| && lx <= |ys|
    ensures |d| == lx
  {
    seq(lx, j requires 0 <= j < lx => Sample(xs[j], ys[j]))
  }

  // ---- moments of the data ------------------------------------------------------------------

  /** Count and power sums of the data; all that the descent depends on. */
  datatype Moments = Moments(n: real, sx: real, sxx: real, sy: real, sxy: real)

  function Plus(q: Moments, s: Sample): Moments {
    Moments(q.n + 1.0, q.sx + s.x, q.sxx + s.x * s.x, q.sy + s.y, q.sxy + s.x * s.y)
  }

  function MomentsOf(d: seq<Sample>): (q: Moments)
    ensures q.n == |d| as real
  {
    if d == [] then Moments(0.0, 0.0, 0.0, 0.0, 0.0) else Plus(MomentsOf(d[..|d| - 1]), d[|d| - 1])
  }

  function GradC(q: Moments, w: Line): real {
    w.m * q.sx + w.c * q.n - q.sy
  }

  function GradM(q: Moments, w: Line): real {
    w.m * q.sxx + w.c * q.sx - q.sxy
  }

  lemma Distribute(a: real, b: real, c: real)
    ensures a * (b + c) == a * b + a * c
  {}

  lemma ResidualTimesX(w: Line, s: Sample)
    ensures Residual(w, s) * s.x == w.m * (s.x * s.x) + w.c * s.x - s.x * s.y
  {}

  lemma GradPlus(q: Moments, s: Sample, w: Line)
    ensures GradC(Plus(q, s), w) == GradC(q, w) + Residual(w, s)
    ensures GradM(Plus(q, s), w) == GradM(q, w) + Residual(w, s) * s.x
  {
    Distribute(w.m, q.sxx, s.x * s.x);
    Distribute(w.m, q.sx, s.x);
    Distribute(w.c, q.sx, s.x);
    ResidualTimesX(w, s);
  }

  lemma NoGradient(w: Line)
    ensures GradC(MomentsOf([]), w) == 0.0 == GradM(MomentsOf([]), w)
  {}

  lemma {:induction false} GradientByMoments(d: seq<Sample>, w: Line)
    ensures Intercept(d, w) == GradC(MomentsOf(d), w)
    ensures Slope(d, w) == GradM(MomentsOf(d), w)
  {
    hide Plus, Residual, GradC, GradM;
    if d == [] {
      NoGradient(w);
    } else {
      GradientByMoments(d[..|d| - 1], w);
      GradPlus(MomentsOf(d[..|d| - 1]), d[|d| - 1], w);
    }
  }

  // ---- the two training lists -----------------------------------------------------------------

  function SumOf(xs: seq<real>): real {
    if xs == [] then 0.0 else SumOf(xs[..|xs| - 1]) + xs[|xs| - 1]
  }

  function Dot(xs: seq<real>, ys: seq<real>): real
    requires |xs| == |ys|
  {
    if xs == [] then 0.0 else Dot(xs[..|xs| - 1], ys[..|ys| - 1]) + xs[|xs| - 1] * ys[|ys| - 1]
  }

  lemma SamplesStep(xs: seq<real>, ys: seq<real>, lx: nat)
    requires 0 < lx <= |xs| && lx <= |ys|
    ensures var d := Samples(xs, ys, lx);
      d[..lx - 1] == Samples(xs, ys, lx - 1) && d[lx - 1] == Sample(xs[lx - 1], ys[lx - 1])
  {}

  lemma SumsStep(xs: seq<real>, ys: seq<real>, lx: nat)
    requires 0 < lx <= |xs| && lx <= |ys|
    ensures SumOf(xs[..lx]) == SumOf(xs[..lx - 1]) + xs[lx - 1]
    ensures Dot(xs[..lx], ys[..lx]) == Dot(xs[..lx - 1], ys[..lx - 1]) + xs[lx - 1] * ys[lx - 1]
  {
    assert xs[..lx][..lx - 1] == xs[..lx - 1] && ys[..lx][..lx - 1] == ys[..lx - 1];
  }

  lemma NoMoments(xs: seq<real>, ys: seq<real>)
    ensures MomentsOf(Samples(xs, ys, 0)) == Moments(0.0, SumOf(xs[..0]), Dot(xs[..0], xs[..0]), SumOf(ys[..0]), Dot(xs[..0], ys[..0]))
  {}

  lemma MomentsUnfold(d: seq<Sample>)
    requires d != []
    ensures MomentsOf(d) == Plus(MomentsOf(d[..|d| - 1]), d[|d| - 1])
  {}

  /** The moments of the samples are the sums over the two lists. */
  lemma {:induction false} MomentsOfLists(xs: seq<real>, ys: seq<real>, lx: nat)
    requires lx <= |xs| && lx <= |ys|
    ensures var X, Y := xs[..lx], ys[..lx];
      MomentsOf(Samples(xs, ys, lx)) == Moments(lx as real, SumOf(X), Dot(X, X), SumOf(Y), Dot(X, Y))
  {
    hide Samples, SumOf, Dot, MomentsOf;
    if lx == 0 {
      NoMoments(xs, ys);
    } else {
      MomentsOfLists(xs, ys, lx - 1);
      SamplesStep(xs, ys, lx);
      MomentsUnfold(Samples(xs, ys, lx));
      SumsStep(xs, xs, lx);
      SumsStep(xs, ys, lx);
      SumsStep(ys, ys, lx);
    }
  }

  lemma MoveOf(alpha: real, sum: real, n: real, e: real)
    requires n != 0.0 && sum == e
    ensures Move(alpha, sum, n) == alpha * (e / n)
  {}

  /** One pass, written with sums over the two lists. */
  lemma PassOnLists(xs: seq<real>, ys: seq<real>, lx: nat, w: Line, alpha: real)
    requires 0 < lx <= |xs| && lx <= |ys|
    ensures var X, Y, n := xs[..lx], ys[..lx], lx as real;
      Pass(Samples(xs, ys, lx), w, alpha) == Line(
        w.m - alpha * ((w.m * Dot(X, X) + w.c * SumOf(X) - Dot(X, Y)) / n),
        w.c - alpha * ((w.m * SumOf(X) + w.c * n - SumOf(Y)) / n))
  {
    hide Samples, MomentsOf, Slope, Intercept, Dot, SumOf, Move;
    var d, X, Y, n := Samples(xs, ys, lx), xs[..lx], ys[..lx], lx as real;
    GradientByMoments(d, w);
    MomentsOfLists(xs, ys, lx);
    MoveOf(alpha, Slope(d, w), n, w.m * Dot(X, X) + w.c * SumOf(X) - Dot(X, Y));
    MoveOf(alpha, Intercept(d, w), n, w.m * SumOf(X) + w.c * n - SumOf(Y));
  }

  /** The loss of the line 0 is the sum of y^2; every other loss follows from it by LossShift. */
  lemma {:induction false} LossAtZero(xs: seq<real>, ys: seq<real>, lx: nat)
    requires lx <= |xs| && lx <= |ys|
    ensures Loss(Samples(xs, ys, lx), Line(0.0, 0.0)) == Dot(ys[..lx], ys[..lx])
  {
    if lx > 0 {
      LossAtZero(xs, ys, lx - 1);
      SumsStep(ys, ys, lx);
      SamplesStep(xs, ys, lx);
      assert Residual(Line(0.0, 0.0), Samples(xs, ys, lx)[lx - 1]) == -ys[lx - 1];
    }
  }

  /** Data on a line: both sums and the loss vanish there, and no pass moves it. */
  lemma {:induction false} ExactFit(xs: seq<real>, ys: seq<real>, lx: nat, a: real, b: real, alpha: real)
    requires lx <= |xs| && lx <= |ys|
    requires forall j :: 0 <= j < lx ==> ys[j] == a * xs[j] + b
    ensures var d, w := Samples(xs, ys, lx), Line(a, b);
      && Intercept(d, w) == Slope(d, w) == Loss(d, w) == 0.0
      && (lx > 0 ==> Pass(d, w, alpha) == w)
  {
    if lx > 0 {
      ExactFit(xs, ys, lx - 1, a, b, alpha);
      SamplesStep(xs, ys, lx);
      assert Residual(Line(a, b), Samples(xs, ys, lx)[lx - 1]) == 0.0;
    }
  }

  // ---- runs ---------------------------------------------------------------------------------------

  /** A run counts its passes one by one: no pass, one pass, and j + k passes as j and then k. */
  lemma {:induction false} RunAdds(d: seq<Sample>, w: Line, alpha: real, j: nat, k: nat)
    requires d != []
    ensures Run(d, w, alpha, 0) == w && Run(d, w, alpha, 1) == Pass(d, w, alpha)
    ensures Run(d, w, alpha, j + k) == Run(d, Run(d, w, alpha, j), alpha, k)
    decreases k
  {
    hide Pass;
    assert Run(d, w, alpha, 1) == Pass(d, Run(d, w, alpha, 0), alpha);
    if k > 0 { RunAdds(d, w, alpha, j, k - 1); }
  }

  /** The Python exceptions that the caller's bare except swallows. */
  datatype Result = Fitted(line: Line) | IndexError | ZeroDivisionError

  lemma GradientOnLists(xs: seq<real>, ys: seq<real>, lx: nat, m: real, c: real)
    requires lx <= |xs| && lx <= |ys|
    ensures var d, w, X, Y := Samples(xs, ys, lx), Line(m, c), xs[..lx], ys[..lx];
      && Intercept(d, w) == m * SumOf(X) + c * lx as real - SumOf(Y)
      && Slope(d, w) == m * Dot(X, X) + c * SumOf(X) - Dot(X, Y)
  {
    hide Samples, MomentsOf, Slope, Intercept, Dot, SumOf;
    GradientByMoments(Samples(xs, ys, lx), Line(m, c));
    MomentsOfLists(xs, ys, lx);
  }

  lemma NoSums(w: Line)
    ensures Intercept([], w) == 0.0 == Slope([], w)
  {}

  lemma GradientStep(d: seq<Sample>, w: Line, j: nat)
    requires j < |d|
    ensures Intercept(d[..j + 1], w) == Intercept(d[..j], w) + ((w.m * d[j].x + w.c) - d[j].y)
    ensures Slope(d[..j + 1], w) == Slope(d[..j], w) + ((w.m * d[j].x + w.c) - d[j].y) * d[j].x
  {
    assert d[..j + 1][..j] == d[..j];
  }

  /** The inner loop: both gradient sums for the line y = m * x + c, which are sums over the two lists. */
  method SumGradient(lx: nat, xTrain: seq<real>, yTrain: seq<real>, m: real, c: real)
    returns (intercept: real, slope: real)
    requires lx <= |xTrain| && lx <= |yTrain|
    ensures var d := Samples(xTrain, yTrain, lx);
      intercept == Intercept(d, Line(m, c)) && slope == Slope(d, Line(m, c))
    ensures var X, Y := xTrain[..lx], yTrain[..lx];
      && intercept == m * SumOf(X) + c * lx as real - SumOf(Y)
      && slope == m * Dot(X, X) + c * SumOf(X) - Dot(X, Y)
  {
    hide SumOf, Dot, Intercept, Slope;
    ghost var d := Samples(xTrain, yTrain, lx);
    slope, intercept := 0.0, 0.0;
    var j := 0;
    assert d[..0] == [] && Intercept([], Line(m, c)) == 0.0 == Slope([], Line(m, c)) by { NoSums(Line(m, c)); }
    while j < lx
      invariant 0 <= j <= lx
      invariant intercept == Intercept(d[..j], Line(m, c))
      invariant slope == Slope(d[..j], Line(m, c))
    {
      GradientStep(d, Line(m, c), j);
      intercept := intercept + ((m * xTrain[j] + c) - yTrain[j]);
      slope := slope + ((m * xTrain[j] + c) - yTrain[j]) * xTrain[j];
      j := j + 1;
    }
    assert d[..lx] == d;
    GradientOnLists(xTrain, yTrain, lx, m, c);
  }

  /** Fits a line by a fixed number of passes from a fixed start. */
  method GradientDescent(lx: nat, xTrain: seq<real>, yTrain: seq<real>) returns (r: Result)
    ensures r.IndexError? <==> lx > |xTrain| || lx > |yTrain|
    ensures r.ZeroDivisionError? <==> lx == 0
    ensures r.Fitted? ==> r.line == Run(Samples(xTrain, yTrain, lx), Line(0.1, 0.01), 0.01, 4000)
  {
    hide Intercept, Slope, Samples, SumOf, Dot;
    if lx > |xTrain| || lx > |yTrain| {
      return IndexError;
    }
    var m, c := START.m, START.c;
    var i := 0;
    while i < PASSES
      invariant 0 <= i <= PASSES
      invariant i > 0 ==> lx > 0
      invariant lx > 0 ==> Line(m, c) == Run(Samples(xTrain, yTrain, lx), START, ALPHA, i)
    {
      var intercept, slope := SumGradient(lx, xTrain, yTrain, m, c);
      if lx == 0 {
        return ZeroDivisionError;
      }
      c := c - ALPHA * (intercept / lx as real);
      m := m - ALPHA * (slope / lx as real);
      i := i + 1;
    }
    return Fitted(Line(m, c));
  }

  // ---- the loss -------------------------------------------------------------------------------------

  /** The sum of (u * x + v)^2 over the data. */
  function Quad(q: Moments, u: real, v: real): real {
    u * u * q.sxx + 2.0 * u * v * q.sx + v * v * q.n
  }

  function Sq(a: real): (r: real)
    ensures r >= 0.0
  {
    a * a
  }

  lemma QuadPlus(q: Moments, s: Sample, u: real, v: real)
    ensures Quad(Plus(q, s), u, v) == Quad(q, u, v) + Sq(u * s.x + v)
  {
    assert Sq(u * s.x + v) == (u * u) * (s.x * s.x) + 2.0 * ((u * v) * s.x) + v * v;
  }

  lemma {:induction false} QuadNonNegative(d: seq<Sample>, u: real, v: real)
    ensures Quad(MomentsOf(d), u, v) >= 0.0
  {
    hide Plus, Sq;
    if d != [] {
      QuadNonNegative(d[..|d| - 1], u, v);
      hide Quad;
      QuadPlus(MomentsOf(d[..|d| - 1]), d[|d| - 1], u, v);
    }
  }

  lemma LossTerm(w: Line, s: Sample, u: real, v: real)
    ensures var r, r' := Residual(w, s), Residual(Line(w.m + u, w.c + v), s);
      r' * r' == r * r + 2.0 * (v * r + u * (r * s.x)) + Sq(u * s.x + v)
  {
    var r, t := Residual(w, s), u * s.x + v;
    assert Residual(Line(w.m + u, w.c + v), s) == r + t;
    assert r * t == u * (r * s.x) + v * r;
  }

  function Linear(d: seq<Sample>, w: Line, u: real, v: real): real {
    v * Intercept(d, w) + u * Slope(d, w)
  }

  lemma NoShift(w: Line, u: real, v: real)
    ensures Linear([], w, u, v) == 0.0 == Quad(MomentsOf([]), u, v)
  {}

  lemma LinearPlus(d: seq<Sample>, w: Line, u: real, v: real)
    requires d != []
    ensures var e, s := d[..|d| - 1], d[|d| - 1];
      Linear(d, w, u, v) == Linear(e, w, u, v) + (v * Residual(w, s) + u * (Residual(w, s) * s.x))
  {
    hide Residual;
    var e, s := d[..|d| - 1], d[|d| - 1];
    var r := Residual(w, s);
    Distribute(v, Intercept(e, w), r);
    Distribute(u, Slope(e, w), r * s.x);
  }

  /** Moving the line by (u, v) changes the loss by a term linear in the gradient and a square. */
  lemma {:induction false} LossShift(d: seq<Sample>, w: Line, u: real, v: real)
    ensures Loss(d, Line(w.m + u, w.c + v))
         == Loss(d, w) + 2.0 * Linear(d, w, u, v) + Quad(MomentsOf(d), u, v)
  {
    hide Quad, Plus, Residual, Sq, Linear;
    if d == [] {
      NoShift(w, u, v);
    } else {
      var e, s := d[..|d| - 1], d[|d| - 1];
      LossShift(e, w, u, v);
      LossTerm(w, s, u, v);
      QuadPlus(MomentsOf(e), s, u, v);
      LinearPlus(d, w, u, v);
    }
  }
}
