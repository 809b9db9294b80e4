/** How batch gradient descent approaches the least-squares line: the distance to a solution, pass by
    pass and over whole runs, and exactly which step sizes make the run converge. */
module Convergence {
  import opened Descent
  import opened LossDescent

  // ---- the distance after one pass -----------------------------------------------------------------

  /** Squared Euclidean distance of two lines as points (m, c). */
  function Dist(w: Line, z: Line): (r: real)
    ensures r >= 0.0
  {
    Sq(w.m - z.m) + Sq(w.c - z.c)
  }

  /** t^2 * det(A), which is alpha^2 times the variance of x. */
  function Damping(q: Moments, t: real): real {
    Times(Times(t, t), Det(q))
  }

  /** What a pass takes off the squared length of the error e = (u, v): t * e.A(2 I - t A)e. */
  function Drop(q: Moments, t: real, u: real, v: real): real {
    Times(Damping(q, t), Sq(u) + Sq(v)) + Times(Times(t, Quad(q, u, v)), Spare(q, t))
  }

  /** |A e|^2 = trace(A) * e.A e - det(A) * |e|^2. */
  lemma CayleyHamilton(q: Moments, u: real, v: real, e: real)
    requires e == Sq(u) + Sq(v)
    ensures Sq(RowM(q, u, v)) + Sq(RowC(q, u, v)) == Times(Trace(q), Quad(q, u, v)) - Times(Det(q), e)
  {
    var a, b, c := q.sxx, q.sx, q.n;
    assert Sq(u * a + v * b) == (u * u) * (a * a) + 2.0 * ((u * v) * (a * b)) + (v * v) * (b * b);
    assert Sq(u * b + v * c) == (u * u) * (b * b) + 2.0 * ((u * v) * (b * c)) + (v * v) * (c * c);
    assert (a + c) * (u * u * a + 2.0 * u * v * b + v * v * c)
        == (u * u) * (a * a + c * a) + 2.0 * ((u * v) * (a * b + b * c)) + (v * v) * (a * c + c * c);
    assert (c * a - b * b) * (u * u + v * v)
        == (u * u) * (c * a) - (u * u) * (b * b) + (v * v) * (c * a) - (v * v) * (b * b);
  }

  lemma GradientAlong(q: Moments, u: real, v: real)
    ensures Times(u, RowM(q, u, v)) + Times(v, RowC(q, u, v)) == Quad(q, u, v)
  {}

  lemma SqMinus(u: real, t: real, s: real)
    ensures Sq(u - Times(t, s)) == Sq(u) - 2.0 * Times(t, Times(u, s)) + Times(t, Times(t, Sq(s)))
  {}

  lemma DistArithmetic(q: Moments, t: real, k: real, e: real, us: real, vi: real, ss: real, ii: real)
    requires us + vi == k && ss + ii == Times(Trace(q), k) - Times(Det(q), e)
    ensures e - 2.0 * Times(t, us) - 2.0 * Times(t, vi) + Times(t, Times(t, ss)) + Times(t, Times(t, ii))
         == e - Times(Damping(q, t), e) - Times(Times(t, k), Spare(q, t))
  {
    hide Trace, Det;
    var T, D := Trace(q), Det(q);
    assert t * us + t * vi == t * k by { assert t * (us + vi) == t * us + t * vi; }
    assert t * (t * ss) + t * (t * ii) == (t * t) * (T * k - D * e) by {
      assert (t * t) * (ss + ii) == t * (t * ss) + t * (t * ii);
    }
    assert (t * t) * (T * k - D * e) == (t * k) * (t * T) - (t * t * D) * e;
  }

  /** One step against the gradient replaces the error e by e - t A e. */
  lemma LengthAfterStep(q: Moments, t: real, u: real, v: real)
    ensures Sq(u - Times(t, RowM(q, u, v))) + Sq(v - Times(t, RowC(q, u, v))) == Sq(u) + Sq(v) - Drop(q, t, u, v)
  {
    hide Sq, Times, Quad, Trace, Det, RowM, RowC, Spare, Damping;
    var e, s, i := Sq(u) + Sq(v), RowM(q, u, v), RowC(q, u, v);
    CayleyHamilton(q, u, v, e);
    GradientAlong(q, u, v);
    SqMinus(u, t, s);
    SqMinus(v, t, i);
    DistArithmetic(q, t, Quad(q, u, v), e, Times(u, s), Times(v, i), Sq(s), Sq(i));
  }

  lemma ErrorAfterStep(q: Moments, w: Line, z: Line, t: real)
    requires Solves(q, z)
    ensures var r := Against(q, w, t); var u, v := w.m - z.m, w.c - z.c;
      r.m - z.m == u - Times(t, RowM(q, u, v)) && r.c - z.c == v - Times(t, RowC(q, u, v))
  {
    hide GradM, GradC, Times, Solves, RowM, RowC;
    GradientAt(q, w, z);
  }

  lemma DistAfterPass(d: seq<Sample>, w: Line, z: Line, alpha: real)
    requires d != [] && Solves(MomentsOf(d), z)
    ensures var q := MomentsOf(d);
      Dist(Pass(d, w, alpha), z) == Dist(w, z) - Drop(q, alpha / q.n, w.m - z.m, w.c - z.c)
  {
    hide Pass, Against, Sq, Times, Drop, Solves, RowM, RowC, Plus;
    var q := MomentsOf(d);
    PassIsAgainst(d, w, alpha);
    ErrorAfterStep(q, w, z, alpha / q.n);
    LengthAfterStep(q, alpha / q.n, w.m - z.m, w.c - z.c);
  }

  // ---- steps that fit bring the line closer ------------------------------------------------------------

  /** The share of the squared distance that a pass removes at least: alpha^2 times the variance of x,
      less 2 * (t * trace(A) - 2) for steps beyond the small ones. */
  function Rate(q: Moments, t: real): real {
    Damping(q, t) + if Spare(q, t) < 0.0 then 2.0 * Spare(q, t) else 0.0
  }

  lemma DropArithmetic(damp: real, e: real, tk: real, s: real)
    requires if s < 0.0 then tk <= 2.0 * e else tk >= 0.0
    ensures Times(damp, e) + Times(tk, s) >= Times(damp + if s < 0.0 then 2.0 * s else 0.0, e)
  {
    if s < 0.0 {
      assert (damp + 2.0 * s) * e == damp * e + (2.0 * e) * s;
      ProductSign(-s, 2.0 * e - tk);
      assert -s * (2.0 * e - tk) == tk * s - (2.0 * e) * s;
    } else {
      ProductSign(tk, s);
    }
  }

  lemma DropAtLeast(d: seq<Sample>, alpha: real, u: real, v: real)
    requires d != [] && alpha >= 0.0 && StepFits(MomentsOf(d), alpha)
    ensures var q := MomentsOf(d); var t := alpha / q.n;
      Drop(q, t, u, v) >= Times(Rate(q, t), Sq(u) + Sq(v))
  {
    hide Quad, Sq, Times, Form, Psd, EntryM, EntryX, EntryC, Spare, Damping, Plus;
    var q := MomentsOf(d);
    var t := alpha / q.n;
    QuadNonNegative(d, u, v);
    TimesSign(t, Quad(q, u, v));
    QuadAsForm(q, t, u, v);
    PsdIsNonNegative(EntryM(q, t), EntryX(q, t), EntryC(q, t), u, v);
    DropArithmetic(Damping(q, t), Sq(u) + Sq(v), Times(t, Quad(q, u, v)), Spare(q, t));
  }

  lemma UnitDist(w: Line, z: Line, r: real)
    requires w == Line(z.m + 1.0, z.c)
    ensures Dist(w, z) == 1.0 == Sq(1.0) + Sq(0.0) && Times(r, Sq(1.0) + Sq(0.0)) == r
  {}

  /** The share lies between 0 and 1, and above 0 when the step size fits strictly and the x differ. */
  lemma RateBounds(d: seq<Sample>, alpha: real)
    requires d != [] && alpha >= 0.0 && StepFits(MomentsOf(d), alpha)
    ensures var q := MomentsOf(d);
      && 0.0 <= Rate(q, alpha / q.n) <= 1.0
      && (alpha > 0.0 && Det(q) > 0.0 && StepFitsStrictly(q, alpha) ==> Rate(q, alpha / q.n) > 0.0)
  {
    hide Pass, Dist, Drop, Solves, Sq, Times, Det, Minor, EntryM, EntryX, EntryC, Spare, Plus;
    var q := MomentsOf(d);
    var t := alpha / q.n;
    DetNonNegative(d);
    EntriesByTrace(q, t);
    TimesSquare(t);
    TimesSign(t, t);
    TimesSign(Times(t, t), Det(q));
    var z := SolutionExists(d);
    var w := Line(z.m + 1.0, z.c);
    DistAfterPass(d, w, z, alpha);
    DropAtLeast(d, alpha, 1.0, 0.0);
    UnitDist(w, z, Rate(q, t));
    assert w.m - z.m == 1.0 && w.c - z.c == 0.0;
  }

  lemma TimesShare(a: real, r: real)
    ensures a - Times(r, a) == Times(1.0 - r, a)
  {}

  /** A step that fits leaves at most the share 1 - Rate of the squared distance to any solution. */
  lemma Contracts(d: seq<Sample>, w: Line, z: Line, alpha: real)
    requires d != [] && Solves(MomentsOf(d), z) && alpha >= 0.0 && StepFits(MomentsOf(d), alpha)
    ensures var q := MomentsOf(d);
      Dist(Pass(d, w, alpha), z) <= Times(1.0 - Rate(q, alpha / q.n), Dist(w, z)) <= Dist(w, z)
  {
    hide Pass, Drop, Rate, Solves, Sq, Times, StepFits, Plus;
    var q := MomentsOf(d);
    var r := Rate(q, alpha / q.n);
    DistAfterPass(d, w, z, alpha);
    DropAtLeast(d, alpha, w.m - z.m, w.c - z.c);
    RateBounds(d, alpha);
    TimesSign(r, Dist(w, z));
    TimesShare(Dist(w, z), r);
  }

  // ---- steps that do not fit move some line away --------------------------------------------------------

  // The entries of A (2 I - t A), so that Drop is t times its quadratic form.
  function BendM(q: Moments, t: real): real { Spare(q, t) * q.sxx + t * Det(q) }
  function BendX(q: Moments, t: real): real { -(Spare(q, t) * q.sx) }
  function BendC(q: Moments, t: real): real { Spare(q, t) * q.n + t * Det(q) }

  lemma DropFormArithmetic(t: real, S: real, D: real, k: real, a: real, b: real, c: real, u: real, v: real,
                           P: real, B: real, R: real)
    requires k == u * u * a + 2.0 * u * v * b + v * v * c
    requires P == S * a + t * D && B == -(S * b) && R == S * c + t * D
    ensures Times(Times(Times(t, t), D), Sq(u) + Sq(v)) + Times(Times(t, k), S) == Times(t, Form(P, B, R, u, v))
  {
    var U, X, V, y := u * u, u * v, v * v, t * D;
    assert (t * k) * S == t * (S * k);
    assert S * k == (S * a) * U + 2.0 * ((S * b) * X) + (S * c) * V;
    assert (t * t * D) * (U + V) == t * (y * U + y * V);
    assert (S * a + y) * U == (S * a) * U + y * U && (S * c + y) * V == (S * c) * V + y * V;
    assert -(S * b) * X == -((S * b) * X);
  }

  lemma DropAsForm(q: Moments, t: real, u: real, v: real)
    ensures Drop(q, t, u, v) == Times(t, Form(BendM(q, t), BendX(q, t), BendC(q, t), u, v))
  {
    hide Spare, Det, Form, Times, Sq;
    DropFormArithmetic(t, Spare(q, t), Det(q), Quad(q, u, v), q.sxx, q.sx, q.n, u, v,
                       BendM(q, t), BendX(q, t), BendC(q, t));
  }

  lemma MinorOfSums(S: real, y: real, a: real, b: real, c: real, D: real, T: real, P: real, B: real, R: real)
    requires D == c * a - b * b && T == a + c
    requires P == S * a + y && B == -(S * b) && R == S * c + y
    ensures Minor(P, B, R) == Times(Sq(S), D) + Times(Times(S, y), T) + Sq(y)
  {
    assert P * R == (S * S) * (c * a) + (S * y) * (a + c) + y * y;
    assert B * B == (S * S) * (b * b);
  }

  lemma BendMinor(S: real, t: real, T: real, D: real, m: real, y: real)
    requires S == 2.0 - t * T && m == 2.0 * S + Times(Sq(t), D) && y == t * D
    ensures Times(Sq(S), D) + Times(Times(S, y), T) + Sq(y) == Times(D, m)
  {
    assert (S * y) * T == (S * D) * (t * T);
    assert (S * S) * D + (S * D) * (t * T) == (S * D) * (S + t * T);
    assert y * y == D * ((t * t) * D);
    assert D * m == 2.0 * (S * D) + D * ((t * t) * D);
  }

  lemma BendSum(q: Moments, t: real)
    ensures BendM(q, t) + BendC(q, t) == Times(Spare(q, t), Trace(q)) + 2.0 * (t * Det(q))
  {
    hide Spare, Det;
  }

  lemma BendByTrace(q: Moments, t: real)
    ensures var P, B, R := BendM(q, t), BendX(q, t), BendC(q, t);
      && P + R == Times(Spare(q, t), Trace(q)) + 2.0 * (t * Det(q))
      && Minor(P, B, R) == Times(Det(q), Minor(EntryM(q, t), EntryX(q, t), EntryC(q, t)))
  {
    hide EntryM, EntryX, EntryC, Minor, Times, Sq;
    var S, T, D, y := Spare(q, t), Trace(q), Det(q), t * Det(q);
    EntriesByTrace(q, t);
    BendMinor(S, t, T, D, Minor(EntryM(q, t), EntryX(q, t), EntryC(q, t)), y);
    MinorOfSums(S, y, q.sxx, q.sx, q.n, D, T, BendM(q, t), BendX(q, t), BendC(q, t));
    BendSum(q, t);
  }

  /** 4 * det(A) <= trace(A)^2. */
  lemma DetByTrace(q: Moments)
    ensures 4.0 * Det(q) <= Sq(Trace(q))
  {
    var x := Sq(q.sxx - q.n) + 4.0 * Sq(q.sx);
    assert Sq(q.sxx + q.n) - 4.0 * (q.n * q.sxx - q.sx * q.sx) == x;
  }

  lemma BendTraceArithmetic(t: real, S: real, T: real, D: real)
    requires t > 0.0 && T > 0.0 && S == 2.0 - t * T && S <= -2.0 && 4.0 * D <= Sq(T)
    ensures Times(S, T) + 2.0 * (t * D) <= 0.0
    ensures S < -2.0 ==> Times(S, T) + 2.0 * (t * D) < 0.0
  {
    ProductSign(t, T * T - 4.0 * D);
    assert t * (T * T - 4.0 * D) == (t * T) * T - 4.0 * (t * D);
    assert (t * T) * T == (2.0 - S) * T == 2.0 * T - S * T;
    assert S * T + 2.0 * (t * D) <= T + 0.5 * (S * T);
    assert T + 0.5 * (S * T) == 0.5 * (T * (2.0 + S));
    if S < -2.0 { ProductSign(T, 2.0 + S); } else { assert T * (2.0 + S) == 0.0; }
  }

  /** Beyond t * trace(A) = 4 the trace of A (2 I - t A) is not positive either. */
  lemma BendTrace(q: Moments, t: real)
    requires t > 0.0 && Trace(q) > 0.0 && Spare(q, t) <= -2.0
    ensures var x := Times(Spare(q, t), Trace(q)) + 2.0 * (t * Det(q));
      x <= 0.0 && (Spare(q, t) < -2.0 ==> x < 0.0)
  {
    var S, T, D := Spare(q, t), Trace(q), Det(q);
    DetByTrace(q);
    BendTraceArithmetic(t, S, T, D);
  }

  lemma TimesCommutes(a: real, b: real)
    ensures Times(a, b) == Times(b, a)
  {}

  lemma BendIsBad(d: seq<Sample>, alpha: real)
    requires d != [] && alpha > 0.0
    ensures var q := MomentsOf(d); var t := alpha / q.n;
      && (!StepFits(q, alpha) ==> !Psd(BendM(q, t), BendX(q, t), BendC(q, t)))
      && (Det(q) > 0.0 && !StepFitsStrictly(q, alpha)
          ==> !PositiveDefinite(BendM(q, t), BendX(q, t), BendC(q, t)))
  {
    hide Det, Minor, Trace, Spare, Times, Sq, EntryM, EntryX, EntryC, BendM, BendX, BendC, Plus;
    var q := MomentsOf(d);
    var t := alpha / q.n;
    var S, T, D := Spare(q, t), Trace(q), Det(q);
    var m := Minor(EntryM(q, t), EntryX(q, t), EntryC(q, t));
    DetNonNegative(d);
    TraceNonNegative(d);
    EntriesByTrace(q, t);
    BendByTrace(q, t);
    if S <= -2.0 { BendTrace(q, t); }
    TimesSign(D, m);
    TimesSign(T, S);
    TimesCommutes(S, T);
    TimesZero(Sq(t));
    if D == 0.0 { assert t * D == 0.0; }
    if m == 0.0 { TimesZero(D); }
  }

  /** Some line at a distance from the solution z from which a pass moves away. */
  lemma MovesAway(d: seq<Sample>, z: Line, alpha: real) returns (w: Line)
    requires d != [] && Solves(MomentsOf(d), z) && alpha > 0.0 && !StepFits(MomentsOf(d), alpha)
    ensures Dist(Pass(d, w, alpha), z) > Dist(w, z)
  {
    hide Pass, Dist, Drop, Solves, Form, Psd, Times, StepFits, BendM, BendX, BendC, Plus;
    var q := MomentsOf(d);
    var t := alpha / q.n;
    BendIsBad(d, alpha);
    var u, v := NegativeDirection(BendM(q, t), BendX(q, t), BendC(q, t));
    w := Line(z.m + u, z.c + v);
    DropAsForm(q, t, u, v);
    TimesSign(t, Form(BendM(q, t), BendX(q, t), BendC(q, t), u, v));
    DistAfterPass(d, w, z, alpha);
    assert w.m - z.m == u && w.c - z.c == v;
  }

  /** No pass from any line increases the distance to any solution, exactly when the step size fits. */
  lemma DistanceCriterion(d: seq<Sample>, alpha: real)
    requires d != [] && alpha > 0.0
    ensures (forall w, z :: Solves(MomentsOf(d), z) ==> Dist(Pass(d, w, alpha), z) <= Dist(w, z))
      <==> StepFits(MomentsOf(d), alpha)
  {
    hide Pass, Dist, Solves, StepFits, Rate, Times, Plus;
    if StepFits(MomentsOf(d), alpha) {
      forall w, z | Solves(MomentsOf(d), z) ensures Dist(Pass(d, w, alpha), z) <= Dist(w, z) {
        Contracts(d, w, z, alpha);
      }
    } else {
      var z := SolutionExists(d);
      var w := MovesAway(d, z, alpha);
    }
  }

  // ---- runs with a step size that fits ------------------------------------------------------------------

  function Power(r: real, k: nat): real {
    if k == 0 then 1.0 else r * Power(r, k - 1)
  }

  lemma {:induction false} PowerNonNegative(r: real, k: nat)
    requires r >= 0.0
    ensures Power(r, k) >= 0.0
  {
    if k > 0 {
      PowerNonNegative(r, k - 1);
      ProductSign(r, Power(r, k - 1));
    }
  }

  lemma ChainShares(a: real, b: real, first: real, r: real, p: real, rp: real)
    requires r >= 0.0 && b <= Times(r, a) && a <= Times(p, first) && rp == r * p
    ensures b <= Times(rp, first)
  {
    ProductSign(r, p * first - a);
    assert r * (p * first - a) == (r * p) * first - r * a;
  }

  lemma TimesOne(a: real)
    ensures Times(1.0, a) == a
  {}

  /** After k passes the squared distance to any solution is at most (1 - Rate)^k of the first one. */
  lemma {:induction false} RunContracts(d: seq<Sample>, w: Line, z: Line, alpha: real, k: nat)
    requires d != [] && Solves(MomentsOf(d), z) && alpha >= 0.0 && StepFits(MomentsOf(d), alpha)
    ensures var q := MomentsOf(d);
      Dist(Run(d, w, alpha, k), z) <= Times(Power(1.0 - Rate(q, alpha / q.n), k), Dist(w, z))
  {
    hide Pass, Dist, Rate, Solves, StepFits, Times, Plus;
    var q := MomentsOf(d);
    var r := 1.0 - Rate(q, alpha / q.n);
    if k == 0 {
      TimesOne(Dist(w, z));
    } else {
      var a := Run(d, w, alpha, k - 1);
      RunContracts(d, w, z, alpha, k - 1);
      Contracts(d, a, z, alpha);
      RateBounds(d, alpha);
      ChainShares(Dist(a, z), Dist(Pass(d, a, alpha), z), Dist(w, z), r, Power(r, k - 1), Power(r, k));
    }
  }

  /** 1 + k * r. */
  function Growth(r: real, k: nat): real {
    1.0 + k as real * r
  }

  lemma ShrinkingSequence(a: real, b: real, r: real, k: nat, first: real)
    requires a >= 0.0 && b >= 0.0 && r >= 0.0
    requires b <= a - Times(r, a)
    requires Times(a, Growth(r, k)) <= first
    ensures Times(b, Growth(r, k + 1)) <= first
  {
    var x := k as real * r;
    assert (k + 1) as real * r == x + r;
    ProductSign(k as real, r);
    ProductSign(1.0 + x + r, a - r * a - b);
    assert (1.0 + x + r) * (a - r * a - b) == (1.0 + x + r) * (a - r * a) - (1.0 + x + r) * b;
    assert (1.0 + x + r) * (a - r * a) == a * (1.0 + x) - (x + r) * (r * a);
    ProductSign(r, a);
    ProductSign(x + r, r * a);
  }

  lemma PowerUnfold(r: real, k: nat)
    requires k > 0
    ensures Power(1.0 - r, k) == Power(1.0 - r, k - 1) - Times(r, Power(1.0 - r, k - 1))
    ensures Power(1.0 - r, 0) == 1.0 == Times(1.0, Growth(r, 0))
  {}

  /** Bernoulli: (1 - r)^k * (1 + k * r) <= 1. */
  lemma {:induction false} PowerDecays(r: real, k: nat)
    requires 0.0 <= r <= 1.0
    ensures Times(Power(1.0 - r, k), Growth(r, k)) <= 1.0
  {
    hide Power, Growth, Times;
    PowerUnfold(r, k + 1);
    if k > 0 {
      PowerUnfold(r, k);
      PowerDecays(r, k - 1);
      PowerNonNegative(1.0 - r, k - 1);
      PowerNonNegative(1.0 - r, k);
      ShrinkingSequence(Power(1.0 - r, k - 1), Power(1.0 - r, k), r, k - 1, 1.0);
    }
  }

  lemma Archimedes(x: real) returns (k: nat)
    ensures x <= k as real
  {
    k := if x < 0.0 then 0 else x.Floor + 1;
  }

  lemma CloseEnough(x: real, e0: real, r: real, eps: real, k: nat)
    requires r > 0.0 && eps > 0.0 && x >= 0.0
    requires Times(x, Growth(r, k)) <= e0
    requires e0 / (r * eps) <= k as real
    ensures x <= eps
  {
    ProductSign(r, eps);
    var b := k as real * r;
    assert e0 <= b * eps by {
      var y, p := e0 / (r * eps), r * eps;
      assert y * p == e0;
      ProductSign(p, k as real - y);
      assert p * (k as real - y) == k as real * p - y * p;
      assert k as real * p == b * eps;
    }
    ProductSign(k as real, r);
    assert (1.0 + b) * (x - eps) == x * (1.0 + b) - (1.0 + b) * eps;
    if x > eps { ProductSign(1.0 + b, x - eps); }
  }

  lemma PowerTimesFirst(x: real, p: real, g: real, first: real)
    requires first >= 0.0 && g >= 0.0 && x <= Times(p, first) && Times(p, g) <= 1.0
    ensures Times(x, g) <= first
  {
    ProductSign(g, p * first - x);
    assert g * (p * first - x) == (p * g) * first - x * g;
    ProductSign(first, 1.0 - p * g);
    assert first * (1.0 - p * g) == first - (p * g) * first;
  }

  lemma GrowthNonNegative(r: real, k: nat)
    requires r >= 0.0
    ensures Growth(r, k) >= 0.0
  {
    ProductSign(k as real, r);
  }

  /** From pass k on the run stays within the squared distance eps of z. */
  ghost predicate StaysWithin(d: seq<Sample>, w: Line, alpha: real, z: Line, eps: real, k: nat)
    requires d != []
  {
    forall l: nat :: l >= k ==> Dist(Run(d, w, alpha, l), z) <= eps
  }

  ghost predicate ComesWithin(d: seq<Sample>, w: Line, alpha: real, z: Line, eps: real)
    requires d != []
  {
    exists k: nat :: StaysWithin(d, w, alpha, z, eps, k)
  }

  /** The run from w converges to z. */
  ghost predicate ConvergesTo(d: seq<Sample>, w: Line, alpha: real, z: Line)
    requires d != []
  {
    forall eps: real :: eps > 0.0 ==> ComesWithin(d, w, alpha, z, eps)
  }

  lemma Converges(d: seq<Sample>, w: Line, alpha: real, z: Line)
    requires d != [] && Det(MomentsOf(d)) > 0.0 && Solves(MomentsOf(d), z)
    requires alpha > 0.0 && StepFitsStrictly(MomentsOf(d), alpha)
    ensures ConvergesTo(d, w, alpha, z)
  {
    hide Pass, Dist, Rate, Solves, StepFits, StepFitsStrictly, Times, Growth, Power, Plus, Det, Run;
    var q := MomentsOf(d);
    var r := Rate(q, alpha / q.n);
    StrictFitFits(q, alpha);
    RateBounds(d, alpha);
    forall eps: real | eps > 0.0 ensures ComesWithin(d, w, alpha, z, eps) {
      var k := Archimedes(Dist(w, z) / (r * eps));
      forall l: nat | l >= k ensures Dist(Run(d, w, alpha, l), z) <= eps {
        RunContracts(d, w, z, alpha, l);
        PowerDecays(r, l);
        GrowthNonNegative(r, l);
        PowerTimesFirst(Dist(Run(d, w, alpha, l), z), Power(1.0 - r, l), Growth(r, l), Dist(w, z));
        CloseEnough(Dist(Run(d, w, alpha, l), z), Dist(w, z), r, eps, l);
      }
      assert StaysWithin(d, w, alpha, z, eps, k);
    }
  }

  // ---- runs with a step size that does not fit strictly ---------------------------------------------------

  /** (i, -s) = (det(A) times the inverse of A turned by a right angle) applied to (u, v). */
  lemma DetForm(a: real, b: real, c: real, u: real, v: real)
    ensures var s, i := u * a + v * b, u * b + v * c;
      (s * s) * c + (i * i) * a - 2.0 * ((s * i) * b) == (c * a - b * b) * (u * u * a + 2.0 * u * v * b + v * v * c)
  {
    var s, i, D := u * a + v * b, u * b + v * c, c * a - b * b;
    assert s * c - i * b == D * u;
    assert i * a - s * b == D * v;
    assert (s * s) * c + (i * i) * a - 2.0 * ((s * i) * b) == s * (s * c - i * b) + i * (i * a - s * b);
    assert s * (D * u) + i * (D * v) == D * (s * u + i * v);
    assert s * u + i * v == u * u * a + 2.0 * u * v * b + v * v * c;
  }

  /** g.A g = trace(A) * |g|^2 - det(A) * e.A e for g = A e. */
  lemma CayleyHamiltonTwice(q: Moments, u: real, v: real, g: real)
    requires g == Sq(RowM(q, u, v)) + Sq(RowC(q, u, v))
    ensures Quad(q, RowM(q, u, v), RowC(q, u, v)) == Times(Trace(q), g) - Times(Det(q), Quad(q, u, v))
  {
    var a, b, c := q.sxx, q.sx, q.n;
    var s, i := u * a + v * b, u * b + v * c;
    assert Quad(q, s, i) == (s * s) * a + 2.0 * ((s * i) * b) + (i * i) * c;
    assert (a + c) * (s * s + i * i) == (s * s) * a + (s * s) * c + (i * i) * a + (i * i) * c;
    DetForm(a, b, c, u, v);
  }

  lemma QuadOfSum(q: Moments, u: real, v: real, x: real, y: real, u': real, v': real)
    requires u' == u + x && v' == v + y
    ensures Quad(q, u', v')
         == Quad(q, u, v) + 2.0 * (Times(x, RowM(q, u, v)) + Times(y, RowC(q, u, v))) + Quad(q, x, y)
  {
    assert (u + x) * (u + x) == u * u + 2.0 * (u * x) + x * x;
    assert (v + y) * (v + y) == v * v + 2.0 * (v * y) + y * y;
    assert (u + x) * (v + y) == u * v + u * y + x * v + x * y;
  }

  lemma NegativeProducts(t: real, s: real, i: real, x: real, y: real)
    requires x == -Times(t, s) && y == -Times(t, i)
    ensures Times(x, s) + Times(y, i) == -Times(t, Sq(s) + Sq(i))
  {}

  lemma QuadMinus(q: Moments, u: real, v: real, t: real)
    ensures var s, i := RowM(q, u, v), RowC(q, u, v);
      Quad(q, u - Times(t, s), v - Times(t, i))
        == Quad(q, u, v) - 2.0 * Times(t, Sq(s) + Sq(i)) + Times(t, Times(t, Quad(q, s, i)))
  {
    hide RowM, RowC, Quad, Times, Sq;
    var s, i := RowM(q, u, v), RowC(q, u, v);
    var x, y := -Times(t, s), -Times(t, i);
    QuadOfSum(q, u, v, x, y, u - Times(t, s), v - Times(t, i));
    QuadScales(q, s, i, t);
    NegativeProducts(t, s, i, x, y);
  }

  lemma TimesAdds(t: real, a: real, b: real)
    ensures Times(t, a + b) == Times(t, a) + Times(t, b)
  {}

  lemma SquareOfSum(S: real, y: real, u: real, s: real)
    ensures Sq(S * s + y * u)
         == Times(Sq(S), Sq(s)) + 2.0 * Times(Times(S, y), Times(u, s)) + Times(Sq(y), Sq(u))
  {
    assert (S * s + y * u) * (S * s + y * u) == (S * S) * (s * s) + 2.0 * ((S * y) * (u * s)) + (y * y) * (u * u);
  }

  /** |S g + y e|^2, where g = A e, |g|^2 = gg, e.g = k and |e|^2 = ee. */
  function Bend2(S: real, y: real, gg: real, k: real, ee: real): real {
    Times(Sq(S), gg) + 2.0 * Times(Times(S, y), k) + Times(Sq(y), ee)
  }

  lemma Bend2NonNegative(S: real, y: real, u: real, v: real, s: real, i: real)
    ensures Bend2(S, y, Sq(s) + Sq(i), Times(u, s) + Times(v, i), Sq(u) + Sq(v)) >= 0.0
  {
    hide Sq, Times;
    SquareOfSum(S, y, u, s);
    SquareOfSum(S, y, v, i);
    TimesAdds(Sq(S), Sq(s), Sq(i));
    TimesAdds(Times(S, y), Times(u, s), Times(v, i));
    TimesAdds(Sq(y), Sq(u), Sq(v));
  }

  lemma NextDamping(t: real, S: real, D: real, e: real, k: real, y: real, damp: real, drop: real)
    requires y == t * D && damp == Times(Times(t, t), D) && drop == Times(damp, e) + Times(Times(t, k), S)
    ensures Times(damp, drop) == Times(Sq(t), Times(Sq(y), e) + Times(Times(S, y), k))
  {
    assert damp * drop == (t * t) * (D * drop);
    assert D * drop == D * (damp * e) + D * ((t * k) * S);
    assert D * (damp * e) == (y * y) * e;
    assert D * ((t * k) * S) == (S * y) * k;
  }

  lemma NextQuadFactor(t: real, S: real, T: real, D: real, k: real, g: real, h: real, y: real)
    requires S == 2.0 - t * T && y == t * D && h == Times(T, g) - Times(D, k)
    ensures Times(t, h) == 2.0 * g - (S * g + y * k)
  {
    assert t * (T * g) == (t * T) * g && t * (D * k) == (t * D) * k;
    assert (t * T) * g == 2.0 * g - S * g;
  }

  lemma NextQuadScaled(t: real, S: real, g: real, k: real, y: real, w: real, k': real)
    requires w == S * g + y * k && k' == k - Times(t, w)
    ensures Times(Times(t, k'), S) == Times(Times(t, k), S) - Times(Sq(t), Times(Sq(S), g) + Times(Times(S, y), k))
  {
    assert t * k' == t * k - t * (t * w);
    assert (t * (t * w)) * S == (t * t) * (S * w);
    assert S * w == (S * S) * g + (S * y) * k;
  }

  lemma NextQuad(t: real, S: real, T: real, D: real, k: real, g: real, h: real, y: real, k': real)
    requires S == 2.0 - t * T && y == t * D && h == Times(T, g) - Times(D, k)
    requires k' == k - 2.0 * Times(t, g) + Times(t, Times(t, h))
    ensures Times(Times(t, k'), S) == Times(Times(t, k), S) - Times(Sq(t), Times(Sq(S), g) + Times(Times(S, y), k))
  {
    hide Times, Sq;
    var w := S * g + y * k;
    NextQuadFactor(t, S, T, D, k, g, h, y);
    TimesAdds(t, Times(t, h), w);
    TimesAdds(t, g, g);
    NextQuadScaled(t, S, g, k, y, w, k');
  }

  lemma DropsCompared(q: Moments, t: real, e: real, k: real, g: real, h: real, drop: real, k': real)
    requires h == Times(Trace(q), g) - Times(Det(q), k)
    requires drop == Times(Damping(q, t), e) + Times(Times(t, k), Spare(q, t))
    requires k' == k - 2.0 * Times(t, g) + Times(t, Times(t, h))
    requires Bend2(Spare(q, t), t * Det(q), g, k, e) >= 0.0
    ensures Times(Damping(q, t), e - drop) + Times(Times(t, k'), Spare(q, t)) <= drop
  {
    hide Trace, Det, Times, Sq;
    var S, y, damp := Spare(q, t), t * Det(q), Damping(q, t);
    NextDamping(t, S, Det(q), e, k, y, damp, drop);
    NextQuad(t, S, Trace(q), Det(q), k, g, h, y, k');
    var a, b := Times(Sq(S), g) + Times(Times(S, y), k), Times(Sq(y), e) + Times(Times(S, y), k);
    TimesAdds(damp, e - drop, drop);
    TimesAdds(Sq(t), a, b);
    TimesSign(Sq(t), a + b);
  }

  /** A pass never makes the next drop larger: the difference is t^2 * |A (2 I - t A)e|^2. */
  lemma DropShrinks(q: Moments, t: real, u: real, v: real)
    ensures Drop(q, t, u - Times(t, RowM(q, u, v)), v - Times(t, RowC(q, u, v))) <= Drop(q, t, u, v)
  {
    hide Sq, Quad, Trace, Det, RowM, RowC, Spare, Times, Damping, Bend2;
    var s, i := RowM(q, u, v), RowC(q, u, v);
    var u', v' := u - Times(t, s), v - Times(t, i);
    CayleyHamiltonTwice(q, u, v, Sq(s) + Sq(i));
    GradientAlong(q, u, v);
    LengthAfterStep(q, t, u, v);
    QuadMinus(q, u, v, t);
    Bend2NonNegative(Spare(q, t), t * Det(q), u, v, s, i);
    DropsCompared(q, t, Sq(u) + Sq(v), Quad(q, u, v), Sq(s) + Sq(i), Quad(q, s, i), Drop(q, t, u, v), Quad(q, u', v'));
  }

  /** If a pass does not shorten the error, no later pass does. */
  lemma {:induction false} StaysAway(d: seq<Sample>, w: Line, z: Line, alpha: real, l: nat)
    requires d != [] && Solves(MomentsOf(d), z)
    requires var q := MomentsOf(d); Drop(q, alpha / q.n, w.m - z.m, w.c - z.c) <= 0.0
    ensures Dist(Run(d, w, alpha, l), z) >= Dist(w, z)
    ensures var q := MomentsOf(d); var r := Run(d, w, alpha, l); Drop(q, alpha / q.n, r.m - z.m, r.c - z.c) <= 0.0
  {
    hide Pass, Against, Dist, Drop, Solves, Times, RowM, RowC, Plus;
    if l > 0 {
      var q := MomentsOf(d);
      var a, t := Run(d, w, alpha, l - 1), alpha / q.n;
      StaysAway(d, w, z, alpha, l - 1);
      DistAfterPass(d, a, z, alpha);
      PassIsAgainst(d, a, alpha);
      ErrorAfterStep(q, a, z, t);
      DropShrinks(q, t, a.m - z.m, a.c - z.c);
    }
  }

  lemma DistPositive(w: Line, z: Line)
    requires w != z
    ensures Dist(w, z) > 0.0
  {
    hide Sq;
    if w.m - z.m != 0.0 { SqPositive(w.m - z.m); } else { SqPositive(w.c - z.c); }
  }

  lemma TimesNotPositive(a: real, b: real)
    requires a > 0.0 && b <= 0.0
    ensures Times(a, b) <= 0.0
  {
    ProductSign(a, -b);
    assert a * -b == -(a * b);
  }

  /** Some line from which the run never comes closer to the solution z. */
  lemma DoesNotConverge(d: seq<Sample>, z: Line, alpha: real) returns (w: Line)
    requires d != [] && Det(MomentsOf(d)) > 0.0 && Solves(MomentsOf(d), z)
    requires alpha > 0.0 && !StepFitsStrictly(MomentsOf(d), alpha)
    ensures !ConvergesTo(d, w, alpha, z)
  {
    hide Pass, Dist, Drop, Solves, Form, Psd, PositiveDefinite, Times, StepFits, StepFitsStrictly, BendM, BendX, BendC;
    hide Plus, Run, Det;
    var q := MomentsOf(d);
    var t := alpha / q.n;
    BendIsBad(d, alpha);
    var u, v := NonPositiveDirection(BendM(q, t), BendX(q, t), BendC(q, t));
    w := Line(z.m + u, z.c + v);
    assert w.m - z.m == u && w.c - z.c == v;
    DropAsForm(q, t, u, v);
    TimesNotPositive(t, Form(BendM(q, t), BendX(q, t), BendC(q, t), u, v));
    DistPositive(w, z);
    var eps := Dist(w, z) / 2.0;
    if ComesWithin(d, w, alpha, z, eps) {
      var k: nat :| StaysWithin(d, w, alpha, z, eps, k);
      StaysAway(d, w, z, alpha, k);
    }
  }

  /** Unless all x are equal: the run converges to the least-squares line z from every start, exactly
      when the step size fits strictly. */
  lemma ConvergenceCriterion(d: seq<Sample>, alpha: real, z: Line)
    requires d != [] && Det(MomentsOf(d)) > 0.0 && IsMinimiser(d, z) && alpha > 0.0
    ensures (forall w :: ConvergesTo(d, w, alpha, z)) <==> StepFitsStrictly(MomentsOf(d), alpha)
  {
    hide IsMinimiser, ConvergesTo, StepFitsStrictly, Solves, Det, Plus;
    MinimiserSolves(d, z);
    if StepFitsStrictly(MomentsOf(d), alpha) {
      forall w ensures ConvergesTo(d, w, alpha, z) { Converges(d, w, alpha, z); }
    } else {
      var w := DoesNotConverge(d, z, alpha);
    }
  }
}
