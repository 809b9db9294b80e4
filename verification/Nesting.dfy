/** Dropping low bits of a curve point gives the point of the coarser curve, and what follows:
    points close on the curve are close in the grid. */
module Nesting {
  import opened Words
  import opened Transform
  import opened Packing
  import opened Curve

  function ShrAll(X: seq<nat>, k: nat): (Y: seq<nat>)
    ensures |Y| == |X|
  {
    seq(|X|, i requires 0 <= i < |X| => Shr(X[i], k))
  }

  lemma MulTwice(p: nat, q: nat)
    ensures p * (2 * q) == 2 * (p * q)
  {}

  lemma MulAssociative(p: nat, q: nat, r: nat)
    ensures p * (q * r) == (p * q) * r
  {}

  // ---- words ---------------------------------------------------------------------

  lemma {:induction false} ShrParts(x: nat, k: nat)
    ensures x == Shr(x, k) * Pow2(k) + Lo(x, k)
    ensures Lo(x, k) < Pow2(k)
  {
    if k > 0 {
      ShrParts(x / 2, k - 1);
      MulTwice(Shr(x / 2, k - 1), Pow2(k - 1));
    }
  }

  lemma {:induction false} Pow2Sum(a: nat, k: nat)
    ensures Pow2(a + k) == Pow2(a) * Pow2(k)
  {
    if k > 0 {
      Pow2Sum(a, k - 1);
      MulTwice(Pow2(a), Pow2(k - 1));
    }
  }

  lemma ShrRange(x: nat, a: nat, k: nat)
    requires x < Pow2(a + k)
    ensures Shr(x, k) < Pow2(a)
  {
    ShrParts(x, k);
    Pow2Sum(a, k);
    if Shr(x, k) >= Pow2(a) { MulMonotone(Pow2(a), Shr(x, k), Pow2(k)); }
  }

  lemma {:induction false} ShrMirror(x: nat, a: nat, k: nat)
    requires x < Pow2(a + k)
    ensures Shr(Mirror(x, a + k), k) == Mirror(Shr(x, k), a)
  {
    if k > 0 {
      assert (Pow2(a + k) - 1 - x) / 2 == Pow2(a + k - 1) - 1 - x / 2;
      ShrMirror(x / 2, a, k - 1);
    }
  }

  lemma {:induction false} ShrPlace(bit: bool, x: nat, a: nat, k: nat)
    ensures Shr(Place(bit, x, a + k), k) == Place(bit, Shr(x, k), a)
  {
    if k > 0 {
      assert Place(bit, x, a + k) / 2 == Place(bit, x / 2, a + k - 1);
      ShrPlace(bit, x / 2, a, k - 1);
    }
  }

  // ---- positions -------------------------------------------------------------------

  lemma {:induction false} VolSum(n: nat, a: nat, k: nat)
    ensures Vol(n, a + k) == Vol(n, a) * Vol(n, k)
  {
    if a > 0 {
      VolSum(n, a - 1, k);
      MulAssociative(Pow2(n), Vol(n, a - 1), Vol(n, k));
    }
  }

  lemma QuotOfDigits(h: nat, l: nat, u: nat, v: nat)
    requires u >= 1 && v >= 1 && l < u * v
    ensures Quot(l, v) < u
    ensures Quot(h * (u * v) + l, v) == h * u + Quot(l, v)
    ensures Quot(u * v - 1 - l, v) == u - 1 - Quot(l, v)
  {
    hide Quot, Rem;
    var q, r := Quot(l, v), Rem(l, v);
    QuotRem(l, v);
    QuotBound(l, u, v);
    assert h * (u * v) + l == (h * u + q) * v + r;
    QuotUnique(h * u + q, r, v);
    assert u * v - 1 - l == (u - 1 - q) * v + (v - 1 - r) by {
      assert u * v == (u - 1 - q) * v + q * v + v;
    }
    QuotUnique(u - 1 - q, v - 1 - r, v);
  }

  lemma QuotInner(h: nat, l: nat, u: nat, v: nat)
    requires u >= 1 && v >= 1 && l < u * v
    ensures Quot(l, v) < u && Quot(Inner(h, l, u * v), v) == Inner(h, Quot(l, v), u)
  {
    hide Quot;
    QuotOfDigits(h, l, u, v);
  }

  // ---- nesting ----------------------------------------------------------------------

  lemma {:induction false} ShrTurn(g: seq<bool>, p: seq<nat>, a: nat, k: nat, i: nat)
    requires i < |p| == |g| && InRange(p, a + k)
    ensures ShrAll(Turn(g, a + k, p, i), k) == Turn(g, a, ShrAll(p, k), i)
    decreases i
  {
    hide Mirror, Shr, Pow2;
    ShrMirror(p[0], a, k);
    var q := TurnStep(g, a + k, p, i);
    assert ShrAll(q, k) == TurnStep(g, a, ShrAll(p, k), i);
    if i > 0 {
      TurnStepInRange(g, a + k, p, i);
      ShrTurn(g, q, a, k, i - 1);
    }
  }

  lemma ShrFit(h: nat, p: seq<nat>, a: nat, k: nat)
    requires p != [] && InRange(p, a + k)
    ensures ShrAll(Fit(h, p, a + k), k) == Fit(h, ShrAll(p, k), a)
  {
    hide Shr, Place, Corner, Turn;
    var n, g := |p|, Corner(|p|, h);
    var q := Turn(g, a + k, p, n - 1);
    ShrTurn(g, p, a, k, n - 1);
    forall i | 0 <= i < n ensures Shr(Place(g[i], q[i], a + k), k) == Place(g[i], Shr(q[i], k), a) {
      ShrPlace(g[i], q[i], a, k);
    }
    assert ShrAll(PlaceAll(g, q, a + k), k) == PlaceAll(g, ShrAll(q, k), a);
  }

  lemma ShrAllInRange(p: seq<nat>, a: nat, k: nat)
    requires InRange(p, a + k)
    ensures InRange(ShrAll(p, k), a)
  {
    forall i | 0 <= i < |p| ensures Shr(p[i], k) < Pow2(a) { ShrRange(p[i], a, k); }
  }

  lemma BlockOf(n: nat, a: nat, k: nat, H: nat)
    requires H < Vol(n, a + k)
    ensures Quot(H, Vol(n, k)) < Vol(n, a)
  {
    VolSum(n, a, k);
    QuotBound(H, Vol(n, a), Vol(n, k));
  }

  lemma {:induction false} InRangeZero(p: seq<nat>)
    requires InRange(p, 0)
    ensures p == Origin(|p|)
  {
    forall i | 0 <= i < |p| ensures p[i] == 0 { assert p[i] < Pow2(0); }
  }

  /** Without the low k bits of its coordinates, point H of the order-(a+k) curve is the point of
      the order-a curve numbered by H without its low n*k bits. */
  lemma {:induction false} Nested(n: nat, a: nat, k: nat, H: nat)
    requires n >= 1 && H < Vol(n, a + k)
    ensures Quot(H, Vol(n, k)) < Vol(n, a)
    ensures ShrAll(Hilbert(n, a + k, H), k) == Hilbert(n, a, Quot(H, Vol(n, k)))
    decreases a
  {
    hide Fit, Quot, Rem, ShrAll, Hilbert;
    BlockOf(n, a, k, H);
    HilbertInRange(n, a + k, H);
    if a > 0 {
      var u, v, w := Vol(n, a - 1), Vol(n, k), Vol(n, a - 1 + k);
      VolSum(n, a - 1, k);
      DigitBound(n, a + k, H);
      var h, l := Quot(H, w), Rem(H, w);
      QuotOfDigits(h, l, u, v);
      QuotInner(h, l, u, v);
      HilbertFit(n, a + k, H, h, l, w);
      HilbertFit(n, a, Quot(H, v), h, Quot(l, v), u);
      HilbertInRange(n, a - 1 + k, Inner(h, l, w));
      ShrFit(h, Hilbert(n, a - 1 + k, Inner(h, l, w)), a - 1, k);
      Nested(n, a - 1, k, Inner(h, l, w));
    } else {
      ShrAllInRange(Hilbert(n, k, H), 0, k);
      InRangeZero(ShrAll(Hilbert(n, k, H), k));
      HilbertInRange(n, 0, 0);
      InRangeZero(Hilbert(n, 0, 0));
      assert Quot(H, Vol(n, k)) == 0;
    }
  }

  // ---- locality ----------------------------------------------------------------------

  function Gap(x: nat, y: nat): nat {
    if x < y then y - x else x - y
  }

  lemma GapFromBlocks(x: nat, y: nat, k: nat)
    requires Gap(Shr(x, k), Shr(y, k)) <= 1
    ensures Gap(x, y) < Pow2(k + 1)
  {
    hide Shr, Lo;
    ShrParts(x, k);
    ShrParts(y, k);
    var p, q, r := Shr(x, k), Shr(y, k), Pow2(k);
    if p == q + 1 { Distribute(q, r); } else if q == p + 1 { Distribute(p, r); }
  }

  lemma BlocksOfGap(H: nat, G: nat, v: nat)
    requires v >= 1 && H <= G < H + v
    ensures Quot(H, v) <= Quot(G, v) <= Quot(H, v) + 1
  {
    hide Quot, Rem;
    QuotRem(H, v);
    QuotRem(G, v);
    var q, q' := Quot(H, v), Quot(G, v);
    if q' >= q + 2 { MulMonotone(q + 2, q', v); Distribute(q + 1, v); Distribute(q, v); }
    if q' < q { MulMonotone(q' + 1, q, v); Distribute(q', v); }
  }

  /** Fewer than 2^(n*k) steps along the curve move every coordinate by less than 2^(k+1). */
  lemma CloseOnCurve(n: nat, a: nat, k: nat, H: nat, G: nat, i: nat)
    requires n >= 1 && i < n && H < Vol(n, a + k) && G < Vol(n, a + k)
    requires Gap(H, G) < Vol(n, k)
    ensures Gap(Hilbert(n, a + k, H)[i], Hilbert(n, a + k, G)[i]) < Pow2(k + 1)
  {
    hide Hilbert, Quot, Vol, Shr;
    if G < H {
      CloseOnCurve(n, a, k, G, H, i);
    } else {
      var v := Vol(n, k);
      Nested(n, a, k, H);
      Nested(n, a, k, G);
      BlocksOfGap(H, G, v);
      var p, q := Hilbert(n, a + k, H), Hilbert(n, a + k, G);
      var P, Q := ShrAll(p, k), ShrAll(q, k);
      if Quot(G, v) == Quot(H, v) + 1 {
        Adjacent(n, a, Quot(H, v));
        assert Neighbours(P, Q);
      }
      assert Gap(P[i], Q[i]) <= 1;
      GapFromBlocks(p[i], q[i], k);
    }
  }

  // ---- distance in the grid against distance along the curve ------------------------------

  /** Sum of the coordinate gaps of the first i axes. */
  function Manhattan(p: seq<nat>, q: seq<nat>, i: nat): nat
    requires i <= |p| && |p| == |q|
  {
    if i == 0 then 0 else Gap(p[i - 1], q[i - 1]) + Manhattan(p, q, i - 1)
  }

  lemma {:induction false} ManhattanTriangle(p: seq<nat>, q: seq<nat>, r: seq<nat>, i: nat)
    requires i <= |p| == |q| == |r|
    ensures Manhattan(p, r, i) <= Manhattan(p, q, i) + Manhattan(q, r, i)
  {
    if i > 0 { ManhattanTriangle(p, q, r, i - 1); }
  }

  lemma {:induction false} ManhattanOfNeighbours(p: seq<nat>, q: seq<nat>, a: nat, i: nat)
    requires NeighboursAlong(p, q, a) && i <= |p|
    ensures Manhattan(p, q, i) == if a < i then 1 else 0
  {
    if i > 0 { ManhattanOfNeighbours(p, q, a, i - 1); }
  }

  lemma {:induction false} ManhattanSelf(p: seq<nat>, i: nat)
    requires i <= |p|
    ensures Manhattan(p, p, i) == 0
  {
    if i > 0 { ManhattanSelf(p, i - 1); }
  }

  /** The grid distance of two curve points is at most their distance along the curve. */
  lemma {:induction false} NoFurtherThanAlongCurve(n: nat, b: nat, H: nat, G: nat)
    requires n >= 1 && H <= G < Vol(n, b)
    ensures Manhattan(Hilbert(n, b, H), Hilbert(n, b, G), n) <= G - H
    decreases G
  {
    hide Hilbert, Vol, Manhattan;
    var p, r := Hilbert(n, b, H), Hilbert(n, b, G);
    if H == G {
      ManhattanSelf(p, n);
    } else {
      var q := Hilbert(n, b, G - 1);
      NoFurtherThanAlongCurve(n, b, H, G - 1);
      Adjacent(n, b, G - 1);
      var a: nat :| NeighboursAlong(q, r, a);
      ManhattanOfNeighbours(q, r, a, n);
      ManhattanTriangle(p, q, r, n);
    }
  }

  function Sum(p: seq<nat>, i: nat): nat
    requires i <= |p|
  {
    if i == 0 then 0 else p[i - 1] + Sum(p, i - 1)
  }

  lemma {:induction false} SumOfNeighbours(p: seq<nat>, q: seq<nat>, a: nat, i: nat)
    requires NeighboursAlong(p, q, a) && i <= |p|
    ensures Sum(q, i) + (if a < i then p[a] else 0) == Sum(p, i) + (if a < i then q[a] else 0)
  {
    if i > 0 { SumOfNeighbours(p, q, a, i - 1); }
  }

  lemma {:induction false} SumOfOrigin(n: nat, i: nat)
    requires i <= n
    ensures Sum(Origin(n), i) == 0
  {
    if i > 0 { SumOfOrigin(n, i - 1); }
  }

  /** The coordinates of point H add up to a number of the same parity as H. */
  lemma {:induction false} SumParity(n: nat, b: nat, H: nat)
    requires n >= 1 && H < Vol(n, b)
    ensures Sum(Hilbert(n, b, H), n) % 2 == H % 2
  {
    hide Hilbert, Vol, Sum;
    if H == 0 {
      StartPoint(n, b);
      SumOfOrigin(n, n);
    } else {
      SumParity(n, b, H - 1);
      Adjacent(n, b, H - 1);
      var p, q := Hilbert(n, b, H - 1), Hilbert(n, b, H);
      var a: nat :| NeighboursAlong(p, q, a);
      SumOfNeighbours(p, q, a, n);
    }
  }
}
