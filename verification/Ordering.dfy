/** The order that the Hilbert integers put on the grid points: what the two transforms together
    with the interleaving promise to a caller. */
module Ordering {
  import opened Words
  import opened Transform
  import opened Packing
  import opened Curve
  import opened Refinement
  import opened Nesting

  /** The Hilbert integer of a grid point: AxestoTranspose, then the interleaving. */
  function Rank(X: seq<nat>, b: nat): nat
    requires X != []
  {
    Pack(TransposeOf(X, b), b)
  }

  /** The grid point of a Hilbert integer: the words it interleaves, then TransposetoAxes. */
  function PointAt(n: nat, b: nat, H: nat): (X: seq<nat>)
    requires n >= 1 && H < Vol(n, b)
    ensures |X| == n
  {
    AxesOf(Unpack(n, b, H), b)
  }

  lemma {:induction false} VolIsPower(n: nat, b: nat)
    ensures Vol(n, b) == Pow2(n * b)
  {
    if b > 0 {
      VolIsPower(n, b - 1);
      Pow2Sum(n, n * (b - 1));
      assert n + n * (b - 1) == n * b;
    }
  }

  // ---- bijection ----------------------------------------------------------------------

  lemma PointOfRank(X: seq<nat>, b: nat)
    requires X != [] && InRange(X, b)
    ensures Rank(X, b) < Vol(|X|, b) && PointAt(|X|, b, Rank(X, b)) == X
  {
    hide TransposeOf, AxesOf, Pack, Unpack;
    TransformsKeepRange(X, b, b);
    UnpackPack(TransposeOf(X, b), b);
    TransformsInverse(X, b);
  }

  lemma RankOfPoint(n: nat, b: nat, H: nat)
    requires n >= 1 && H < Vol(n, b)
    ensures InRange(PointAt(n, b, H), b) && Rank(PointAt(n, b, H), b) == H
  {
    hide TransposeOf, AxesOf, Pack, Unpack;
    var X := Unpack(n, b, H);
    UnpackRange(n, b, H);
    TransformsKeepRange(X, b, b);
    TransformsInverse(X, b);
    PackUnpack(n, b, H);
  }

  // ---- the walk through the grid --------------------------------------------------------

  lemma UnitStep(n: nat, b: nat, H: nat)
    requires n >= 1 && H + 1 < Vol(n, b)
    ensures Neighbours(PointAt(n, b, H), PointAt(n, b, H + 1))
  {
    hide AxesOf, Unpack, Hilbert, Neighbours;
    ComputesHilbert(n, b, H);
    ComputesHilbert(n, b, H + 1);
    Adjacent(n, b, H);
  }

  lemma Ends(n: nat, b: nat)
    requires n >= 1
    ensures PointAt(n, b, 0) == Origin(n) && PointAt(n, b, Vol(n, b) - 1) == FarEnd(n, b)
  {
    hide AxesOf, Unpack, Hilbert;
    var last := Vol(n, b) - 1;
    ComputesHilbert(n, b, 0);
    ComputesHilbert(n, b, last);
    EndPoints(n, b, last);
  }

  /** All points in the order of their Hilbert integers. */
  function Walk(n: nat, b: nat): (w: seq<seq<nat>>)
    requires n >= 1
  {
    seq(Vol(n, b), H requires 0 <= H < Vol(n, b) => PointAt(n, b, H))
  }

  lemma Visited(n: nat, b: nat, X: seq<nat>)
    requires n >= 1
    ensures X in Walk(n, b) <==> |X| == n && InRange(X, b)
  {
    hide PointAt, Rank, InRange, Vol;
    var w := Walk(n, b);
    if X in w {
      var H :| 0 <= H < |w| && w[H] == X;
      RankOfPoint(n, b, H);
    }
    if |X| == n && InRange(X, b) {
      PointOfRank(X, b);
      assert w[Rank(X, b)] == X;
    }
  }

  /** The walk is a Hamiltonian path of the grid: it visits every point of the cube of side 2^b
      exactly once, by unit steps, from the origin to the far end of axis 0. */
  lemma HamiltonianPath(n: nat, b: nat)
    requires n >= 1
    ensures var w := Walk(n, b);
      && |w| == Pow2(n * b)
      && (forall X :: X in w <==> |X| == n && InRange(X, b))
      && (forall H, G :: 0 <= H < G < |w| ==> w[H] != w[G])
      && (forall H :: 0 <= H < |w| - 1 ==> Neighbours(w[H], w[H + 1]))
      && w[0] == Origin(n) && w[|w| - 1] == FarEnd(n, b)
  {
    hide PointAt, Rank, InRange, Neighbours, Vol, Origin, FarEnd;
    var w := Walk(n, b);
    VolIsPower(n, b);
    forall X ensures X in w <==> |X| == n && InRange(X, b) { Visited(n, b, X); }
    forall H, G | 0 <= H < G < |w| ensures w[H] != w[G] {
      RankOfPoint(n, b, H);
      RankOfPoint(n, b, G);
    }
    forall H | 0 <= H < |w| - 1 ensures Neighbours(w[H], w[H + 1]) { UnitStep(n, b, H); }
    Ends(n, b);
  }

  /** The rank of a point has the parity of its coordinate sum. */
  lemma RankParity(X: seq<nat>, b: nat)
    requires X != [] && InRange(X, b)
    ensures Rank(X, b) % 2 == Sum(X, |X|) % 2
  {
    hide AxesOf, Unpack, Hilbert, Sum, Rank;
    PointOfRank(X, b);
    ComputesHilbert(|X|, b, Rank(X, b));
    SumParity(|X|, b, Rank(X, b));
  }

  // ---- ranks and distances ----------------------------------------------------------------

  lemma RankIsCurvePosition(X: seq<nat>, b: nat)
    requires X != [] && InRange(X, b)
    ensures Rank(X, b) < Vol(|X|, b) && Hilbert(|X|, b, Rank(X, b)) == X
  {
    hide AxesOf, Unpack, Hilbert, Rank;
    PointOfRank(X, b);
    ComputesHilbert(|X|, b, Rank(X, b));
  }

  /** Points whose ranks are less than 2^(n*k) apart are, along every axis, less than 2^(k+1) apart. */
  lemma Locality(X: seq<nat>, Y: seq<nat>, b: nat, k: nat, i: nat)
    requires i < |X| == |Y| && InRange(X, b) && InRange(Y, b) && k <= b
    ensures Gap(Rank(X, b), Rank(Y, b)) < Pow2(|X| * k) ==> Gap(X[i], Y[i]) < Pow2(k + 1)
  {
    hide Hilbert, Rank, Vol;
    RankIsCurvePosition(X, b);
    RankIsCurvePosition(Y, b);
    VolIsPower(|X|, k);
    if Gap(Rank(X, b), Rank(Y, b)) < Pow2(|X| * k) {
      CloseOnCurve(|X|, b - k, k, Rank(X, b), Rank(Y, b), i);
    }
  }

  lemma {:induction false} ManhattanSymmetric(p: seq<nat>, q: seq<nat>, i: nat)
    requires i <= |p| == |q|
    ensures Manhattan(p, q, i) == Manhattan(q, p, i)
  {
    if i > 0 { ManhattanSymmetric(p, q, i - 1); }
  }

  /** Two points are no further apart in the grid than their ranks are. */
  lemma RankGapBoundsDistance(X: seq<nat>, Y: seq<nat>, b: nat)
    requires X != [] && |X| == |Y| && InRange(X, b) && InRange(Y, b)
    ensures Manhattan(X, Y, |X|) <= Gap(Rank(X, b), Rank(Y, b))
  {
    hide Hilbert, Rank, Vol, Manhattan;
    RankIsCurvePosition(X, b);
    RankIsCurvePosition(Y, b);
    if Rank(X, b) <= Rank(Y, b) {
      NoFurtherThanAlongCurve(|X|, b, Rank(X, b), Rank(Y, b));
    } else {
      NoFurtherThanAlongCurve(|X|, b, Rank(Y, b), Rank(X, b));
      ManhattanSymmetric(X, Y, |X|);
    }
  }

  // ---- nesting ---------------------------------------------------------------------------

  lemma PointIsHilbert(n: nat, b: nat, H: nat)
    requires n >= 1 && H < Vol(n, b)
    ensures PointAt(n, b, H) == Hilbert(n, b, H)
  {
    hide Hilbert;
    ComputesHilbert(n, b, H);
  }

  /** The rank among the aligned cubes of side 2^k is the rank of any point of the cube
      without its low n*k bits. */
  lemma RankOfCube(X: seq<nat>, b: nat, k: nat)
    requires X != [] && InRange(X, b) && k <= b
    ensures InRange(ShrAll(X, k), b - k)
    ensures Rank(ShrAll(X, k), b - k) == Rank(X, b) / Pow2(|X| * k)
  {
    hide Hilbert, Rank, Vol, PointAt, ShrAll, InRange;
    var n, H := |X|, Rank(X, b);
    RankIsCurvePosition(X, b);
    ShrAllInRange(X, b - k, k);
    Nested(n, b - k, k, H);
    var Q := Quot(H, Vol(n, k));
    assert Q == H / Pow2(n * k) by { VolIsPower(n, k); }
    assert PointAt(n, b - k, Q) == ShrAll(X, k) by { PointIsHilbert(n, b - k, Q); }
    RankOfPoint(n, b - k, Q);
  }

  /** An aligned cube of side 2^k is exactly one aligned block of 2^(n*k) consecutive ranks. */
  lemma CubesAreBlocks(X: seq<nat>, Y: seq<nat>, b: nat, k: nat)
    requires X != [] && |X| == |Y| && InRange(X, b) && InRange(Y, b) && k <= b
    ensures ShrAll(X, k) == ShrAll(Y, k)
      <==> Rank(X, b) / Pow2(|X| * k) == Rank(Y, b) / Pow2(|X| * k)
  {
    hide Rank, Vol, PointAt, ShrAll, InRange;
    RankOfCube(X, b, k);
    RankOfCube(Y, b, k);
    PointOfRank(ShrAll(X, k), b - k);
    PointOfRank(ShrAll(Y, k), b - k);
  }

  // ---- one dimension -----------------------------------------------------------------------

  lemma FitOneDimension(h: nat, m: nat, k: nat)
    requires h < 2 && m < Pow2(k)
    ensures Fit(h, [m], k) == [if h == 1 then 2 * Pow2(k) - 1 - m else m]
  {
    hide Pow2;
    assert Corner(1, h)[0] == (h == 1) by {
      BitZero(h);
      BitHalf(h, 1);
      ZeroBit(0);
    }
  }

  lemma {:induction false} HilbertOneDimension(b: nat, H: nat)
    requires H < Vol(1, b)
    ensures Hilbert(1, b, H) == [H] && Vol(1, b) == Pow2(b)
  {
    hide Quot, Rem, Fit;
    assert Pow2(1) == 2 * Pow2(0) == 2;
    if b > 0 {
      var v := Vol(1, b - 1);
      DigitBound(1, b, H);
      var h, l := Quot(H, v), Rem(H, v);
      var m := Inner(h, l, v);
      HilbertOneDimension(b - 1, m);
      HilbertFit(1, b, H, h, l, v);
      FitOneDimension(h, m, b - 1);
    }
  }

  lemma DigitOneDimension(h: nat, l: nat, k: nat)
    requires h < 2
    ensures UnpackDigit(h, [l], k) == [h * Pow2(k) + l]
  {
    hide Pow2;
    BitZero(h);
    assert h == 0 || h == 1;
  }

  lemma {:induction false} UnpackOneDimension(b: nat, H: nat)
    requires H < Vol(1, b)
    ensures Unpack(1, b, H) == [H]
  {
    hide Quot, Rem, UnpackDigit, Unpack;
    UnpackUnfold(1, b, H);
    if b > 0 {
      var v := Vol(1, b - 1);
      DigitBound(1, b, H);
      var h, l := Quot(H, v), Rem(H, v);
      HilbertOneDimension(b - 1, l);
      UnpackOneDimension(b - 1, l);
      assert Pow2(1) == 2 * Pow2(0) == 2;
      DigitOneDimension(h, l, b - 1);
    }
  }

  /** On a line the curve is the line: both transforms are the identity. */
  lemma OneDimension(x: nat, b: nat)
    requires x < Pow2(b)
    ensures AxesOf([x], b) == [x] && TransposeOf([x], b) == [x]
  {
    hide AxesOf, TransposeOf, Hilbert, Unpack, Vol;
    HilbertOneDimension(b, 0);
    HilbertOneDimension(b, x);
    UnpackOneDimension(b, x);
    ComputesHilbert(1, b, x);
    TransformsInverse([x], b);
  }
}
