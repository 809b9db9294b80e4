/** When batch gradient descent lowers the loss, where it stands still, and that the order of the
    samples does not matter. */
module LossDescent {
  import opened Descent

  // ---- real arithmetic ----------------------------------------------------------------------

  /** P*u^2 - 2*B*u*v + R*v^2. */
  function Form(P: real, B: real, R: real, u: real, v: real): real {
    P * (u * u) - 2.0 * (B * (u * v)) + R * (v * v)
  }

  lemma ProductSign(a: real, b: real)
    ensures a >= 0.0 && b >= 0.0 ==> a * b >= 0.0
    ensures a > 0.0 && b > 0.0 ==> a * b > 0.0
    ensures a > 0.0 && a * b >= 0.0 ==> b >= 0.0
    ensures a > 0.0 && b < 0.0 ==> a * b < 0.0
    ensures a > 0.0 && a * b < 0.0 ==> b < 0.0
  {}

  /** A product that the proofs below treat as a whole. */
  function Times(a: real, b: real): real {
    a * b
  }

  lemma TimesSign(a: real, b: real)
    ensures a >= 0.0 && b >= 0.0 ==> Times(a, b) >= 0.0
    ensures a > 0.0 && b > 0.0 ==> Times(a, b) > 0.0
    ensures a > 0.0 && b < 0.0 ==> Times(a, b) < 0.0
    ensures a > 0.0 && Times(a, b) >= 0.0 ==> b >= 0.0
  {}

  lemma TimesSquare(t: real)
    ensures Times(t, t) == Sq(t)
  {}

  lemma SqEven(a: real)
    ensures Sq(-a) == Sq(a)
  {}

  lemma SqPositive(a: real)
    requires a != 0.0
    ensures Sq(a) > 0.0
  {
    hide Sq, Times;
    SqEven(a);
    var b := if a > 0.0 then a else -a;
    TimesSign(b, b);
    TimesSquare(b);
  }

  function Minor(P: real, B: real, R: real): real {
    P * R - B * B
  }

  /** The form takes no negative values. */
  predicate Psd(P: real, B: real, R: real) {
    P + R >= 0.0 && Minor(P, B, R) >= 0.0
  }

  /** The form is positive except at the origin. */
  predicate PositiveDefinite(P: real, B: real, R: real) {
    P + R > 0.0 && Minor(P, B, R) > 0.0
  }

  lemma FormTimesP(P: real, B: real, R: real, u: real, v: real)
    ensures Times(P, Form(P, B, R, u, v)) == Sq(P * u - B * v) + Times(Minor(P, B, R), Sq(v))
  {
    assert Sq(P * u - B * v) == (P * P) * (u * u) - 2.0 * ((P * B) * (u * v)) + (B * B) * (v * v);
    assert P * (P * (u * u)) == (P * P) * (u * u);
    assert P * (B * (u * v)) == (P * B) * (u * v);
    assert P * (R * (v * v)) == (P * R) * (v * v);
    assert (P * R - B * B) * (v * v) == (P * R) * (v * v) - (B * B) * (v * v);
  }

  lemma MinorParts(P: real, B: real, R: real)
    ensures Minor(P, B, R) == Times(R, P) - Sq(B)
  {}

  lemma FormWithoutP(R: real, u: real, v: real)
    ensures Form(0.0, 0.0, R, u, v) == Times(R, Sq(v))
    ensures Times(R, 0.0) == 0.0
  {}

  lemma PsdIsNonNegative(P: real, B: real, R: real, u: real, v: real)
    requires Psd(P, B, R)
    ensures Form(P, B, R, u, v) >= 0.0
  {
    hide Minor, Form, Sq, Times;
    MinorParts(P, B, R);
    TimesSign(R, P);
    if P > 0.0 {
      FormTimesP(P, B, R, u, v);
      TimesSign(Minor(P, B, R), Sq(v));
      TimesSign(P, Form(P, B, R, u, v));
    } else {
      FormWithoutP(R, u, v);
      if B != 0.0 { SqPositive(B); }
      TimesSign(R, Sq(v));
    }
  }

  lemma NegativeBeside(B: real, R: real)
    requires R >= 0.0 && Minor(0.0, B, R) < 0.0
    ensures Form(0.0, B, R, R + 1.0, 2.0 * B) < 0.0
  {
    assert Form(0.0, B, R, R + 1.0, 2.0 * B) == -4.0 * (B * B);
  }

  lemma SqZero(a: real)
    requires a == 0.0
    ensures Sq(a) == 0.0
  {}

  lemma NegativeTimesSq(p: real, m: real)
    requires p > 0.0 && m < 0.0
    ensures Times(m, Sq(p)) < 0.0
  {
    SqPositive(p);
    ProductSign(Sq(p), m);
  }

  lemma NegativeAcross(P: real, B: real, R: real)
    requires P > 0.0 && Minor(P, B, R) < 0.0
    ensures Form(P, B, R, B, P) < 0.0
  {
    hide Minor, Form, Sq, Times;
    FormTimesP(P, B, R, B, P);
    SqZero(P * B - B * P);
    NegativeTimesSq(P, Minor(P, B, R));
    TimesSign(P, Form(P, B, R, B, P));
  }

  lemma NegativeDirection(P: real, B: real, R: real) returns (u: real, v: real)
    requires !Psd(P, B, R)
    ensures Form(P, B, R, u, v) < 0.0
  {
    hide Minor, Sq, Times;
    MinorParts(P, B, R);
    TimesSign(R, P);
    if P < 0.0 {
      u, v := 1.0, 0.0;
    } else if R < 0.0 {
      u, v := 0.0, 1.0;
    } else if P > 0.0 {
      u, v := B, P;
      NegativeAcross(P, B, R);
    } else {
      u, v := R + 1.0, 2.0 * B;
      NegativeBeside(B, R);
    }
  }

  lemma TimesZeroLeft(a: real)
    ensures Times(0.0, a) == 0.0
  {}

  lemma NotPositiveAcross(P: real, B: real, R: real)
    requires P > 0.0 && Minor(P, B, R) <= 0.0
    ensures Form(P, B, R, B, P) <= 0.0
  {
    hide Form, Sq, Times, Minor;
    FormTimesP(P, B, R, B, P);
    SqZero(P * B - B * P);
    if Minor(P, B, R) < 0.0 { NegativeTimesSq(P, Minor(P, B, R)); } else { TimesZeroLeft(Sq(P)); }
    TimesSign(P, Form(P, B, R, B, P));
  }

  lemma NonPositiveDirection(P: real, B: real, R: real) returns (u: real, v: real)
    requires !PositiveDefinite(P, B, R)
    ensures Form(P, B, R, u, v) <= 0.0 && (u != 0.0 || v != 0.0)
  {
    if P <= 0.0 {
      u, v := 1.0, 0.0;
    } else if R <= 0.0 {
      u, v := 0.0, 1.0;
    } else {
      u, v := B, P;
      NotPositiveAcross(P, B, R);
    }
  }

  // ---- one pass in terms of the moments --------------------------------------------------------

  function Trace(q: Moments): real {
    q.sxx + q.n
  }

  /** n * (sum of x^2) - (sum of x)^2, which is n^2 times the variance of x. */
  function Det(q: Moments): real {
    q.n * q.sxx - q.sx * q.sx
  }

  lemma MoveIsTimes(alpha: real, sum: real, n: real)
    requires n > 0.0
    ensures Move(alpha, sum, n) == Times(alpha / n, sum)
  {
    var x, y := sum / n, alpha / n;
    assert sum == x * n && alpha == y * n;
    assert alpha * x == (y * n) * x;
    assert y * sum == y * (x * n);
  }

  /** The line that a step of length t against the gradient leads to. */
  function Against(q: Moments, w: Line, t: real): Line {
    Line(w.m - Times(t, GradM(q, w)), w.c - Times(t, GradC(q, w)))
  }

  /** A pass goes against the gradient by t = alpha / n. */
  lemma PassIsAgainst(d: seq<Sample>, w: Line, alpha: real)
    requires d != []
    ensures var q := MomentsOf(d); Pass(d, w, alpha) == Against(q, w, alpha / q.n)
  {
    hide Move, Times, GradM, GradC, Slope, Intercept;
    var q := MomentsOf(d);
    GradientByMoments(d, w);
    MoveIsTimes(alpha, GradM(q, w), q.n);
    MoveIsTimes(alpha, GradC(q, w), q.n);
  }

  function GradSq(q: Moments, w: Line): (r: real)
    ensures r >= 0.0
  {
    Sq(GradM(q, w)) + Sq(GradC(q, w))
  }

  /** What a step of length t takes off the loss, divided by t. */
  function Gain(q: Moments, w: Line, t: real): real {
    2.0 * GradSq(q, w) - Times(t, Quad(q, GradM(q, w), GradC(q, w)))
  }

  lemma QuadScales(q: Moments, s: real, i: real, t: real)
    ensures Quad(q, -Times(t, s), -Times(t, i)) == Times(t, Times(t, Quad(q, s, i)))
  {
    assert (t * s) * (t * s) * q.sxx == t * (t * (s * s * q.sxx));
    assert 2.0 * (t * s) * (t * i) * q.sx == t * (t * (2.0 * s * i * q.sx));
    assert (t * i) * (t * i) * q.n == t * (t * (i * i * q.n));
  }

  lemma LinearAgainst(d: seq<Sample>, w: Line, s: real, i: real, t: real)
    requires s == Slope(d, w) && i == Intercept(d, w)
    ensures Linear(d, w, -Times(t, s), -Times(t, i)) == -Times(t, Sq(s) + Sq(i))
  {
    hide Slope, Intercept;
  }

  lemma TimesDistributes(t: real, g: real, k: real)
    ensures 2.0 * -Times(t, g) + Times(t, k) == -Times(t, 2.0 * g - k)
  {}

  lemma LossAgainst(d: seq<Sample>, w: Line, t: real)
    ensures var q := MomentsOf(d);
      Loss(d, Against(q, w, t)) == Loss(d, w) - Times(t, Gain(q, w, t))
  {
    hide GradM, GradC, Quad, Loss, Linear, Sq, Times, Slope, Intercept;
    var q := MomentsOf(d);
    var s, i := GradM(q, w), GradC(q, w);
    GradientByMoments(d, w);
    LossShift(d, w, -Times(t, s), -Times(t, i));
    QuadScales(q, s, i, t);
    LinearAgainst(d, w, s, i, t);
    TimesDistributes(t, Sq(s) + Sq(i), Times(t, Quad(q, s, i)));
    assert Line(w.m + -Times(t, s), w.c + -Times(t, i)) == Against(q, w, t);
  }

  // ---- when a pass lowers the loss ---------------------------------------------------------------

  // The entries of 2 I - t A, where A is the matrix of the quadratic form Quad.
  function EntryM(q: Moments, t: real): real { 2.0 - t * q.sxx }
  function EntryX(q: Moments, t: real): real { t * q.sx }
  function EntryC(q: Moments, t: real): real { 2.0 - t * q.n }

  /** 2 - t * trace(A). */
  function Spare(q: Moments, t: real): real {
    2.0 - t * Trace(q)
  }

  /** The step size fits the data: alpha times the larger eigenvalue of the matrix of means
      (mean x^2, mean x; mean x, 1) is at most 2. */
  predicate StepFits(q: Moments, alpha: real)
    requires q.n > 0.0
  {
    var t := alpha / q.n;
    Psd(EntryM(q, t), EntryX(q, t), EntryC(q, t))
  }

  /** The larger eigenvalue stays below that bound. */
  predicate StepFitsStrictly(q: Moments, alpha: real)
    requires q.n > 0.0
  {
    var t := alpha / q.n;
    PositiveDefinite(EntryM(q, t), EntryX(q, t), EntryC(q, t))
  }

  lemma StrictFitFits(q: Moments, alpha: real)
    requires q.n > 0.0 && StepFitsStrictly(q, alpha)
    ensures StepFits(q, alpha)
  {}

  lemma QuadAsForm(q: Moments, t: real, u: real, v: real)
    ensures 2.0 * (Sq(u) + Sq(v)) - Times(t, Quad(q, u, v)) == Form(EntryM(q, t), EntryX(q, t), EntryC(q, t), u, v)
  {
    assert t * Quad(q, u, v) == (t * q.sxx) * (u * u) + 2.0 * ((t * q.sx) * (u * v)) + (t * q.n) * (v * v);
    assert (2.0 - t * q.sxx) * (u * u) == 2.0 * (u * u) - (t * q.sxx) * (u * u);
    assert (2.0 - t * q.n) * (v * v) == 2.0 * (v * v) - (t * q.n) * (v * v);
  }

  lemma Descends(d: seq<Sample>, w: Line, alpha: real)
    requires d != [] && alpha >= 0.0 && StepFits(MomentsOf(d), alpha)
    ensures Loss(d, Pass(d, w, alpha)) <= Loss(d, w)
  {
    hide Loss, Pass, GradM, GradC, Quad, Sq, Times, Form, Psd, EntryM, EntryX, EntryC, Against;
    var q := MomentsOf(d);
    var t := alpha / q.n;
    PassIsAgainst(d, w, alpha);
    LossAgainst(d, w, t);
    QuadAsForm(q, t, GradM(q, w), GradC(q, w));
    PsdIsNonNegative(EntryM(q, t), EntryX(q, t), EntryC(q, t), GradM(q, w), GradC(q, w));
    TimesSign(t, Gain(q, w, t));
  }

  lemma DetByQuad(q: Moments)
    ensures Quad(q, q.n, -q.sx) == Times(q.n, Det(q))
  {}

  lemma DetOfSome(q: Moments)
    requires q.n > 0.0 && Quad(q, q.n, -q.sx) >= 0.0
    ensures Det(q) >= 0.0
  {
    hide Quad, Times, Det;
    DetByQuad(q);
    TimesSign(q.n, Det(q));
  }

  /** The variance of x is not negative. */
  lemma DetNonNegative(d: seq<Sample>)
    requires d != []
    ensures Det(MomentsOf(d)) >= 0.0
  {
    hide Quad, Det, Plus;
    var q := MomentsOf(d);
    QuadNonNegative(d, q.n, -q.sx);
    DetOfSome(q);
  }

  lemma {:induction false} MomentsOfEqual(d: seq<Sample>, x: real)
    requires forall i :: 0 <= i < |d| ==> d[i].x == x
    ensures var q := MomentsOf(d); q.sx == q.n * x && q.sxx == q.n * (x * x)
  {
    if d != [] { MomentsOfEqual(d[..|d| - 1], x); }
  }

  /** The sum of (u x + v) y. */
  function Cross(q: Moments, u: real, v: real): real {
    u * q.sxy + v * q.sy
  }

  lemma CrossPlus(q: Moments, s: Sample, u: real, v: real)
    requires u * s.x + v == 0.0
    ensures Cross(Plus(q, s), u, v) == Cross(q, u, v)
  {
    assert u * (q.sxy + s.x * s.y) + v * (q.sy + s.y) == (u * q.sxy + v * q.sy) + (u * s.x + v) * s.y;
  }

  lemma QuadZeroStep(q: Moments, s: Sample, u: real, v: real)
    requires Quad(q, u, v) >= 0.0 && Quad(Plus(q, s), u, v) == 0.0
    ensures Quad(q, u, v) == 0.0 && u * s.x + v == 0.0
  {
    hide Quad, Sq, Plus;
    QuadPlus(q, s, u, v);
    var r := u * s.x + v;
    if r != 0.0 { SqPositive(r); }
  }

  /** Where the sum of (u x + v)^2 vanishes, so does every term, and with it the sum of (u x + v) y. */
  lemma {:induction false} QuadZero(d: seq<Sample>, u: real, v: real)
    requires Quad(MomentsOf(d), u, v) == 0.0
    ensures Cross(MomentsOf(d), u, v) == 0.0
  {
    if d != [] {
      hide Quad, Plus, Cross;
      var e, s := d[..|d| - 1], d[|d| - 1];
      var q := MomentsOf(e);
      QuadNonNegative(e, u, v);
      QuadZeroStep(q, s, u, v);
      QuadZero(e, u, v);
      CrossPlus(q, s, u, v);
    }
  }

  lemma CancelLeft(n: real, x: real, y: real)
    requires n > 0.0 && Times(n, x) == Times(n, y)
    ensures x == y
  {
    assert n * (x - y) == 0.0;
  }

  lemma EqualDet(d: seq<Sample>)
    requires d != [] && forall i :: 0 <= i < |d| ==> d[i].x == d[0].x
    ensures Det(MomentsOf(d)) == 0.0
  {
    hide MomentsOf;
    var q, x := MomentsOf(d), d[0].x;
    MomentsOfEqual(d, x);
    assert q.n * (q.n * (x * x)) == (q.n * x) * (q.n * x);
  }

  lemma TimesZero(a: real)
    ensures Times(a, 0.0) == 0.0
  {}

  lemma TimesPlus(u: real, x: real, v: real)
    requires u * x + v == 0.0
    ensures Times(u, x) == -v
  {}

  lemma {:induction false} QuadZeroAt(d: seq<Sample>, u: real, v: real, i: nat)
    requires i < |d| && Quad(MomentsOf(d), u, v) == 0.0
    ensures Times(u, d[i].x) == -v
  {
    hide Quad, Plus, Times;
    var k := |d| - 1;
    QuadNonNegative(d[..k], u, v);
    QuadZeroStep(MomentsOf(d[..k]), d[k], u, v);
    TimesPlus(u, d[k].x, v);
    if i < k { QuadZeroAt(d[..k], u, v, i); }
  }

  lemma FlatMeansEqual(d: seq<Sample>, i: nat)
    requires i < |d| && Det(MomentsOf(d)) == 0.0
    ensures d[i].x == d[0].x
  {
    hide Quad, Det, Times, MomentsOf;
    var q := MomentsOf(d);
    DetByQuad(q);
    TimesZero(q.n);
    QuadZeroAt(d, q.n, -q.sx, i);
    QuadZeroAt(d, q.n, -q.sx, 0);
    CancelLeft(q.n, d[i].x, d[0].x);
  }

  /** The variance of x vanishes exactly when all x are equal. */
  lemma DetZero(d: seq<Sample>)
    requires d != []
    ensures Det(MomentsOf(d)) == 0.0 <==> forall i :: 0 <= i < |d| ==> d[i].x == d[0].x
  {
    hide Det, Plus;
    if Det(MomentsOf(d)) == 0.0 {
      forall i | 0 <= i < |d| ensures d[i].x == d[0].x { FlatMeansEqual(d, i); }
    }
    if forall i :: 0 <= i < |d| ==> d[i].x == d[0].x { EqualDet(d); }
  }

  lemma CancelFactor(x: real, y: real, D: real)
    requires D > 0.0 && x * D == y * D
    ensures x == y
  {
    assert (x - y) * D == 0.0;
  }

  lemma CramerScaled(q: Moments, a: real, b: real, m: real, c: real)
    requires m * Det(q) == q.n * a - q.sx * b && c * Det(q) == q.sxx * b - q.sx * a
    ensures (m * q.sxx + c * q.sx) * Det(q) == a * Det(q)
    ensures (m * q.sx + c * q.n) * Det(q) == b * Det(q)
  {
    var D := Det(q);
    assert (m * q.sxx + c * q.sx) * D == q.sxx * (m * D) + q.sx * (c * D);
    assert q.sxx * (q.n * a - q.sx * b) + q.sx * (q.sxx * b - q.sx * a) == a * (q.n * q.sxx - q.sx * q.sx);
    assert (m * q.sx + c * q.n) * D == q.sx * (m * D) + q.n * (c * D);
    assert q.sx * (q.n * a - q.sx * b) + q.n * (q.sxx * b - q.sx * a) == b * (q.n * q.sxx - q.sx * q.sx);
  }

  lemma Cramer(q: Moments, s: real, i: real) returns (w: Line)
    requires Det(q) > 0.0
    ensures GradM(q, w) == s && GradC(q, w) == i
  {
    var D, a, b := Det(q), s + q.sxy, i + q.sy;
    var m, c := (q.n * a - q.sx * b) / D, (q.sxx * b - q.sx * a) / D;
    assert m * D == q.n * a - q.sx * b && c * D == q.sxx * b - q.sx * a;
    CramerScaled(q, a, b, m, c);
    CancelFactor(m * q.sxx + c * q.sx, a, D);
    CancelFactor(m * q.sx + c * q.n, b, D);
    w := Line(m, c);
  }

  // ---- and when some line makes it grow -------------------------------------------------------------

  lemma FlatNormal(d: seq<Sample>)
    requires d != [] && Det(MomentsOf(d)) == 0.0
    ensures var q := MomentsOf(d); q.n * q.sxy == q.sx * q.sy
  {
    hide Quad, Plus, Det, Times;
    var q := MomentsOf(d);
    DetByQuad(q);
    assert Times(q.n, 0.0) == 0.0 by { TimesZero(q.n); }
    QuadZero(d, q.n, -q.sx);
    assert -q.sx * q.sy == -(q.sx * q.sy);
  }

  /** When all x are equal, the gradient is a multiple of (sx, n), and there is a line where it is just that. */
  lemma FlatGradient(q: Moments) returns (w: Line)
    requires q.n > 0.0 && q.n * q.sxy == q.sx * q.sy
    ensures GradM(q, w) == q.sx && GradC(q, w) == q.n
  {
    var c := (q.sy + q.n) / q.n;
    w := Line(0.0, c);
    assert c * q.n == q.sy + q.n;
    assert (c * q.sx - q.sxy) * q.n == q.sx * (c * q.n) - q.sx * q.sy;
    CancelFactor(c * q.sx - q.sxy, q.sx, q.n);
  }

  lemma EntriesByTrace(q: Moments, t: real)
    ensures var P, B, R := EntryM(q, t), EntryX(q, t), EntryC(q, t);
      P + R == 2.0 + Spare(q, t) && Minor(P, B, R) == 2.0 * Spare(q, t) + Times(Sq(t), Det(q))
  {
    var a, b, c := q.sxx, q.sx, q.n;
    assert (2.0 - t * a) * (2.0 - t * c) == 4.0 - 2.0 * (t * (a + c)) + (t * t) * (c * a);
    assert (t * b) * (t * b) == (t * t) * (b * b);
  }

  lemma FlatFormValue(q: Moments, t: real)
    requires Det(q) == 0.0
    ensures Form(EntryM(q, t), EntryX(q, t), EntryC(q, t), q.sx, q.n) == Times(Sq(q.sx) + Sq(q.n), Spare(q, t))
  {
    var a, b, c := q.sxx, q.sx, q.n;
    assert c * a == b * b;
    assert (t * b) * (b * c) == t * (c * (b * b)) == t * (c * (c * a)) by { assert b * b == c * a; }
    assert (2.0 - t * a) * (b * b) == 2.0 * (b * b) - t * (a * (b * b));
    assert (2.0 - t * c) * (c * c) == 2.0 * (c * c) - t * (c * (c * c));
    assert (b * b + c * c) * (2.0 - t * (a + c))
        == 2.0 * (b * b) + 2.0 * (c * c) - t * (a * (b * b)) - t * (c * (b * b)) - t * (a * (c * c)) - t * (c * (c * c));
    assert a * (c * c) == c * (c * a);
  }

  /** In that case the form on that gradient is negative as soon as the step size does not fit. */
  lemma FlatForm(q: Moments, t: real)
    requires q.n > 0.0 && t > 0.0 && Det(q) == 0.0
    requires !Psd(EntryM(q, t), EntryX(q, t), EntryC(q, t))
    ensures Form(EntryM(q, t), EntryX(q, t), EntryC(q, t), q.sx, q.n) < 0.0
  {
    hide Form, EntryM, EntryX, EntryC, Minor, Times, Sq, Det, Spare;
    EntriesByTrace(q, t);
    TimesZero(Sq(t));
    SqPositive(q.n);
    FlatFormValue(q, t);
    TimesSign(Sq(q.sx) + Sq(q.n), Spare(q, t));
  }

  lemma Ascends(d: seq<Sample>, alpha: real) returns (w: Line)
    requires d != [] && alpha > 0.0 && !StepFits(MomentsOf(d), alpha)
    ensures Loss(d, Pass(d, w, alpha)) > Loss(d, w)
  {
    hide Loss, Pass, GradM, GradC, Quad, Sq, Times, Form, Psd, EntryM, EntryX, EntryC, Against, Det, Plus;
    var q := MomentsOf(d);
    var t := alpha / q.n;
    var P, B, R := EntryM(q, t), EntryX(q, t), EntryC(q, t);
    DetNonNegative(d);
    var u, v;
    if Det(q) > 0.0 {
      u, v := NegativeDirection(P, B, R);
      w := Cramer(q, u, v);
    } else {
      FlatNormal(d);
      w := FlatGradient(q);
      u, v := q.sx, q.n;
      FlatForm(q, t);
    }
    PassIsAgainst(d, w, alpha);
    LossAgainst(d, w, t);
    QuadAsForm(q, t, u, v);
    TimesSign(t, Gain(q, w, t));
  }

  /** The loss never grows, from whatever line a pass starts, exactly when the step size fits. */
  lemma DescentCriterion(d: seq<Sample>, alpha: real)
    requires d != [] && alpha > 0.0
    ensures (forall w :: Loss(d, Pass(d, w, alpha)) <= Loss(d, w)) <==> StepFits(MomentsOf(d), alpha)
  {
    hide Loss, Pass, StepFits;
    if StepFits(MomentsOf(d), alpha) {
      forall w ensures Loss(d, Pass(d, w, alpha)) <= Loss(d, w) { Descends(d, w, alpha); }
    } else {
      var w := Ascends(d, alpha);
    }
  }

  /** Over a whole run the loss only falls. */
  lemma {:induction false} RunDescends(d: seq<Sample>, w: Line, alpha: real, j: nat, k: nat)
    requires d != [] && alpha >= 0.0 && StepFits(MomentsOf(d), alpha) && j <= k
    ensures Loss(d, Run(d, w, alpha, k)) <= Loss(d, Run(d, w, alpha, j))
    decreases k
  {
    hide Loss, Pass, StepFits;
    if j < k {
      RunDescends(d, w, alpha, j, k - 1);
      Descends(d, Run(d, w, alpha, k - 1), alpha);
    }
  }

  /** alpha * (1 + mean of x^2) <= 2, written with sums: 2 - alpha / n * (n + sum of x^2) >= 0. */
  predicate StepIsSmall(q: Moments, alpha: real)
    requires q.n > 0.0
  {
    0.0 <= alpha && Spare(q, alpha / q.n) >= 0.0
  }

  lemma SmallStepFits(d: seq<Sample>, alpha: real)
    requires d != [] && StepIsSmall(MomentsOf(d), alpha)
    ensures var q := MomentsOf(d);
      StepFits(q, alpha) && (alpha > 0.0 && Det(q) > 0.0 ==> StepFitsStrictly(q, alpha))
  {
    hide Det, Plus, EntryM, EntryX, EntryC, Minor, Times, Sq, Spare;
    var q := MomentsOf(d);
    var t := alpha / q.n;
    DetNonNegative(d);
    EntriesByTrace(q, t);
    TimesSign(Sq(t), Det(q));
    if alpha > 0.0 { SqPositive(t); }
  }

  /** With the built-in step size the loss can grow: one document of 200000 characters. */
  lemma BuiltInStepCanAscend()
    ensures var d, w := Samples([20.0], [0.0], 1), Line(0.1, 0.01);
      !StepFits(MomentsOf(d), 0.01) && Loss(d, Pass(d, w, 0.01)) > Loss(d, w)
  {
    var s, w := Sample(20.0, 0.0), Line(0.1, 0.01);
    var d := Samples([20.0], [0.0], 1);
    assert d == [s] && d[..0] == [];
    assert MomentsOf(d) == Plus(MomentsOf([]), s) == Moments(1.0, 20.0, 400.0, 0.0, 0.0);
    assert Intercept(d, w) == Residual(w, s) == 2.01;
    assert Slope(d, w) == 40.2;
    var z := Pass(d, w, 0.01);
    assert z == Line(-0.302, -0.0101);
    assert Loss(d, w) == 2.01 * 2.01;
    assert Residual(z, s) == -6.0501;
    assert Loss(d, z) == 6.0501 * 6.0501;
  }

  // ---- fixed points ---------------------------------------------------------------------------------

  ghost predicate IsMinimiser(d: seq<Sample>, w: Line) {
    forall z :: Loss(d, w) <= Loss(d, z)
  }

  predicate Solves(q: Moments, w: Line) {
    GradM(q, w) == 0.0 && GradC(q, w) == 0.0
  }

  lemma TimesIsZero(t: real, a: real)
    requires t > 0.0
    ensures Times(t, a) == 0.0 <==> a == 0.0
  {}

  /** |g|^2 times the trace bounds the quadratic form. */
  lemma QuadBound(q: Moments, u: real, v: real)
    ensures Times(Trace(q), Sq(u) + Sq(v)) == Quad(q, u, v) + Quad(q, v, -u)
  {}

  lemma SolutionMinimises(d: seq<Sample>, w: Line)
    requires d != [] && Solves(MomentsOf(d), w)
    ensures IsMinimiser(d, w)
  {
    hide Loss, Quad, GradM, GradC, Intercept, Slope;
    GradientByMoments(d, w);
    forall z ensures Loss(d, w) <= Loss(d, z) {
      var u, v := z.m - w.m, z.c - w.c;
      LossShift(d, w, u, v);
      QuadNonNegative(d, u, v);
      assert Line(w.m + u, w.c + v) == z;
    }
  }

  lemma TraceNonNegative(d: seq<Sample>)
    requires d != []
    ensures Trace(MomentsOf(d)) > 0.0
  {
    QuadNonNegative(d, 1.0, 0.0);
  }

  lemma TimesInverse(t: real, T: real, g: real, k: real)
    requires T > 0.0 && t == 1.0 / T && k <= Times(T, g)
    ensures t > 0.0 && Times(t, k) <= g
  {
    assert t * T == 1.0;
    assert t * (T * g) == (t * T) * g;
    ProductSign(t, T * g - k);
    assert t * (T * g - k) == t * (T * g) - t * k;
  }

  /** Where the gradient is not zero, a short enough step improves the line. */
  lemma MinimiserSolves(d: seq<Sample>, w: Line)
    requires d != [] && IsMinimiser(d, w)
    ensures Solves(MomentsOf(d), w)
  {
    hide Loss, Quad, GradM, GradC, Sq, Times, Against, Plus;
    var q := MomentsOf(d);
    var s, i := GradM(q, w), GradC(q, w);
    if s != 0.0 || i != 0.0 {
      TraceNonNegative(d);
      var t := 1.0 / Trace(q);
      var g := Sq(s) + Sq(i);
      assert g > 0.0 by { if s != 0.0 { SqPositive(s); } else { SqPositive(i); } }
      QuadBound(q, s, i);
      QuadNonNegative(d, i, -s);
      TimesInverse(t, Trace(q), g, Quad(q, s, i));
      LossAgainst(d, w, t);
      TimesSign(t, Gain(q, w, t));
    }
  }

  /** A pass leaves a line alone exactly when it solves the normal equations, which is exactly
      when no line has a smaller loss. */
  lemma FixedPoints(d: seq<Sample>, w: Line, alpha: real)
    requires d != [] && alpha > 0.0
    ensures Pass(d, w, alpha) == w <==> Solves(MomentsOf(d), w)
    ensures Solves(MomentsOf(d), w) <==> IsMinimiser(d, w)
  {
    hide Loss, Pass, GradM, GradC, Times, Plus;
    var q := MomentsOf(d);
    var t := alpha / q.n;
    PassIsAgainst(d, w, alpha);
    TimesIsZero(t, GradM(q, w));
    TimesIsZero(t, GradC(q, w));
    if Solves(q, w) { SolutionMinimises(d, w); }
    if IsMinimiser(d, w) { MinimiserSolves(d, w); }
  }

  // The two entries of A (u, v), A being the matrix of the quadratic form Quad.
  function RowM(q: Moments, u: real, v: real): real { u * q.sxx + v * q.sx }
  function RowC(q: Moments, u: real, v: real): real { u * q.sx + v * q.n }

  /** At a distance (u, v) from a solution, the gradient is A (u, v). */
  lemma GradientAt(q: Moments, w: Line, z: Line)
    requires Solves(q, z)
    ensures var u, v := w.m - z.m, w.c - z.c;
      GradM(q, w) == RowM(q, u, v) && GradC(q, w) == RowC(q, u, v)
  {}

  lemma FlatSolution(q: Moments) returns (z: Line)
    requires q.n > 0.0 && q.n * q.sxy == q.sx * q.sy
    ensures Solves(q, z)
  {
    var c := q.sy / q.n;
    z := Line(0.0, c);
    assert c * q.n == q.sy;
    assert (c * q.sx - q.sxy) * q.n == q.sx * (c * q.n) - q.sx * q.sy;
    CancelFactor(c * q.sx - q.sxy, 0.0, q.n);
  }

  lemma UniqueSolution(q: Moments, w: Line, z: Line)
    requires Det(q) > 0.0 && Solves(q, w) && Solves(q, z)
    ensures w == z
  {
    var u, v, D := w.m - z.m, w.c - z.c, Det(q);
    GradientAt(q, w, z);
    var f, g := u * q.sxx + v * q.sx, u * q.sx + v * q.n;
    assert u * D == q.n * f - q.sx * g;
    assert v * D == q.sxx * g - q.sx * f;
    CancelFactor(u, 0.0, D);
    CancelFactor(v, 0.0, D);
  }

  /** The normal equations always have a solution, and only one unless all x are equal. */
  lemma SolutionExists(d: seq<Sample>) returns (z: Line)
    requires d != []
    ensures Solves(MomentsOf(d), z)
    ensures Det(MomentsOf(d)) > 0.0 ==> forall w :: Solves(MomentsOf(d), w) ==> w == z
  {
    hide Det, GradM, GradC, Plus;
    var q := MomentsOf(d);
    DetNonNegative(d);
    if Det(q) > 0.0 {
      z := Cramer(q, 0.0, 0.0);
      forall w | Solves(q, w) ensures w == z { UniqueSolution(q, w, z); }
    } else {
      FlatNormal(d);
      z := FlatSolution(q);
    }
  }

  // ---- order of the samples ------------------------------------------------------------------------------------

  lemma PlusCommutes(q: Moments, a: Sample, b: Sample)
    ensures Plus(Plus(q, a), b) == Plus(Plus(q, b), a)
  {}

  lemma {:induction false} MomentsWithout(d: seq<Sample>, i: nat)
    requires i < |d|
    ensures MomentsOf(d) == Plus(MomentsOf(d[..i] + d[i + 1..]), d[i])
  {
    hide Plus;
    var k := |d| - 1;
    var rest := d[..i] + d[i + 1..];
    if i == k {
      assert rest == d[..k];
    } else {
      MomentsWithout(d[..k], i);
      assert rest[..|rest| - 1] == d[..k][..i] + d[..k][i + 1..];
      PlusCommutes(MomentsOf(rest[..|rest| - 1]), d[i], d[k]);
    }
  }

  lemma {:induction false} MomentsOfPermutation(d: seq<Sample>, e: seq<Sample>)
    requires multiset(d) == multiset(e)
    ensures MomentsOf(d) == MomentsOf(e)
    decreases |d|
  {
    hide Plus;
    assert |d| == |multiset(d)| == |multiset(e)| == |e|;
    if d != [] {
      var k := |d| - 1;
      assert d[k] in multiset(e);
      var i :| 0 <= i < |e| && e[i] == d[k];
      var rest := e[..i] + e[i + 1..];
      assert d == d[..k] + [d[k]];
      assert e == e[..i] + [e[i]] + e[i + 1..];
      assert multiset(d[..k]) == multiset(d) - multiset{d[k]};
      assert multiset(rest) == multiset(e) - multiset{e[i]};
      MomentsOfPermutation(d[..k], rest);
      MomentsWithout(e, i);
    }
  }

  /** The order of the samples does not matter to a run of any length. */
  lemma {:induction false} OrderIndependence(d: seq<Sample>, e: seq<Sample>, w: Line, alpha: real, passes: nat)
    requires d != [] && multiset(d) == multiset(e)
    ensures e != [] && Run(d, w, alpha, passes) == Run(e, w, alpha, passes)
    decreases passes
  {
    hide Pass, Plus;
    assert |multiset(d)| == |multiset(e)|;
    if passes > 0 {
      OrderIndependence(d, e, w, alpha, passes - 1);
      var v := Run(d, w, alpha, passes - 1);
      MomentsOfPermutation(d, e);
      PassIsAgainst(d, v, alpha);
      PassIsAgainst(e, v, alpha);
    }
  }
}
