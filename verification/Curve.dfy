/** The n-dimensional Hilbert curve defined by self-similarity, without words or bit masks,
    and its geometry: end points and unit steps. */
module Curve {
  import opened Words
  import opened Transform
  import opened Packing

  /** The subcube, one bit per axis, that holds the part of the curve with top digit h. */
  function Corner(n: nat, h: nat): (g: seq<bool>)
    ensures |g| == n
  {
    seq(n, i requires 0 <= i < n => Bit(h, n - 1 - i) != Bit(h, n - i))
  }

  /** Reflection of the interval of length 1 << k; nothing outside it moves. */
  function Mirror(x: nat, k: nat): nat {
    if x < Pow2(k) then Pow2(k) - 1 - x else x
  }

  /** Reflects axis 0 of the cube of side 1 << k, or exchanges axis 0 with axis i. */
  function TurnStep(g: seq<bool>, k: nat, p: seq<nat>, i: nat): (q: seq<nat>)
    requires i < |p| == |g|
    ensures |q| == |p|
  {
    if g[i] then p[0 := Mirror(p[0], k)] else p[0 := p[i]][i := p[0]]
  }

  /** The symmetry of the cube of side 1 << k that fits a smaller curve into subcube g. */
  function Turn(g: seq<bool>, k: nat, p: seq<nat>, i: nat): (q: seq<nat>)
    requires i < |p| == |g|
    ensures |q| == |p|
    decreases i
  {
    if i == 0 then TurnStep(g, k, p, 0) else Turn(g, k, TurnStep(g, k, p, i), i - 1)
  }

  /** The point p of the cube of side 1 << k, moved into subcube g of the cube twice as wide. */
  function PlaceAll(g: seq<bool>, p: seq<nat>, k: nat): (q: seq<nat>)
    requires |g| == |p|
    ensures |q| == |p|
  {
    seq(|p|, i requires 0 <= i < |p| => Place(g[i], p[i], k))
  }

  /** Position within a part of the curve that is v positions long: parts with an odd digit
      are run through backwards. */
  function Inner(h: nat, l: nat, v: nat): (m: nat)
    requires l < v
    ensures m < v
  {
    if h % 2 == 1 then v - 1 - l else l
  }

  /** One part of the order-(k+1) curve: the order-k point p fitted into the subcube of digit h. */
  function Fit(h: nat, p: seq<nat>, k: nat): (q: seq<nat>)
    requires p != []
    ensures |q| == |p|
  {
    var g := Corner(|p|, h);
    PlaceAll(g, Turn(g, k, p, |p| - 1), k)
  }

  /** Point number H of the order-b Hilbert curve in n dimensions. */
  function Hilbert(n: nat, b: nat, H: nat): (p: seq<nat>)
    requires n >= 1 && H < Vol(n, b)
    ensures |p| == n
    decreases b
  {
    if b == 0 then Origin(n)
    else
      var v := Vol(n, b - 1);
      Fit(Quot(H, v), Hilbert(n, b - 1, Inner(Quot(H, v), Rem(H, v), v)), b - 1)
  }

  /** The defining equation, by digit and remainder. */
  lemma HilbertFit(n: nat, b: nat, H: nat, h: nat, l: nat, v: nat)
    requires n >= 1 && b >= 1 && v == Vol(n, b - 1)
    requires h < Pow2(n) && l < v && H == h * v + l
    ensures H < Vol(n, b)
    ensures Hilbert(n, b, H) == Fit(h, Hilbert(n, b - 1, Inner(h, l, v)), b - 1)
  {
    hide Fit, Quot, Rem;
    DigitsInVol(n, b, h, l);
  }

  lemma TurnStepInRange(g: seq<bool>, k: nat, p: seq<nat>, i: nat)
    requires i < |p| == |g| && InRange(p, k)
    ensures InRange(TurnStep(g, k, p, i), k)
  {}

  lemma {:induction false} TurnInRange(g: seq<bool>, k: nat, p: seq<nat>, i: nat)
    requires i < |p| == |g| && InRange(p, k)
    ensures InRange(Turn(g, k, p, i), k)
    decreases i
  {
    if i > 0 { TurnInRange(g, k, TurnStep(g, k, p, i), i - 1); }
  }

  lemma FitInRange(h: nat, p: seq<nat>, k: nat)
    requires p != [] && InRange(p, k)
    ensures InRange(Fit(h, p, k), k + 1)
  {
    var g := Corner(|p|, h);
    var q := Turn(g, k, p, |p| - 1);
    TurnInRange(g, k, p, |p| - 1);
    forall i | 0 <= i < |p| ensures PlaceAll(g, q, k)[i] < Pow2(k + 1) { PlaceParts(g[i], q[i], k); }
  }

  /** The curve stays in the cube of side 1 << b. */
  lemma {:induction false} HilbertInRange(n: nat, b: nat, H: nat)
    requires n >= 1 && H < Vol(n, b)
    ensures InRange(Hilbert(n, b, H), b)
    decreases b
  {
    if b > 0 {
      var v := Vol(n, b - 1);
      var m := Inner(Quot(H, v), Rem(H, v), v);
      HilbertInRange(n, b - 1, m);
      FitInRange(Quot(H, v), Hilbert(n, b - 1, m), b - 1);
    }
  }

  // ---- neighbouring grid points ------------------------------------------------------

  ghost predicate NeighboursAlong(p: seq<nat>, q: seq<nat>, i: nat) {
    && i < |p| == |q|
    && (p[i] == q[i] + 1 || q[i] == p[i] + 1)
    && forall j :: 0 <= j < |p| && j != i ==> p[j] == q[j]
  }

  /** p and q differ along exactly one axis, and there by exactly one. */
  ghost predicate Neighbours(p: seq<nat>, q: seq<nat>) {
    exists i: nat :: NeighboursAlong(p, q, i)
  }

  lemma NeighboursSymmetric(p: seq<nat>, q: seq<nat>)
    requires Neighbours(p, q)
    ensures Neighbours(q, p)
  {
    var i: nat :| NeighboursAlong(p, q, i);
    assert NeighboursAlong(q, p, i);
  }

  lemma TurnStepKeepsNeighbours(g: seq<bool>, k: nat, p: seq<nat>, q: seq<nat>, i: nat)
    requires i < |p| == |q| == |g| && InRange(p, k) && InRange(q, k) && Neighbours(p, q)
    ensures Neighbours(TurnStep(g, k, p, i), TurnStep(g, k, q, i))
  {
    var a: nat :| NeighboursAlong(p, q, a);
    var a' := if g[i] then a else if a == 0 then i else if a == i then 0 else a;
    assert NeighboursAlong(TurnStep(g, k, p, i), TurnStep(g, k, q, i), a');
  }

  lemma {:induction false} TurnKeepsNeighbours(g: seq<bool>, k: nat, p: seq<nat>, q: seq<nat>, i: nat)
    requires i < |p| == |q| == |g| && InRange(p, k) && InRange(q, k) && Neighbours(p, q)
    ensures Neighbours(Turn(g, k, p, i), Turn(g, k, q, i))
    decreases i
  {
    TurnStepKeepsNeighbours(g, k, p, q, i);
    if i > 0 { TurnKeepsNeighbours(g, k, TurnStep(g, k, p, i), TurnStep(g, k, q, i), i - 1); }
  }

  lemma FitKeepsNeighbours(h: nat, p: seq<nat>, q: seq<nat>, k: nat)
    requires p != [] && |p| == |q| && InRange(p, k) && InRange(q, k) && Neighbours(p, q)
    ensures Neighbours(Fit(h, p, k), Fit(h, q, k))
  {
    var g, n := Corner(|p|, h), |p|;
    TurnKeepsNeighbours(g, k, p, q, n - 1);
    var p', q' := Turn(g, k, p, n - 1), Turn(g, k, q, n - 1);
    var a: nat :| NeighboursAlong(p', q', a);
    assert NeighboursAlong(PlaceAll(g, p', k), PlaceAll(g, q', k), a);
  }

  // ---- end points ------------------------------------------------------------------------

  /** The far end of axis 0. */
  function FarEnd(n: nat, k: nat): (p: seq<nat>)
    requires n >= 1
    ensures |p| == n
  {
    Origin(n)[0 := Pow2(k) - 1]
  }

  /** Turning the origin by axes i, ..., j + 1 leads to the far end when g[j + 1] is the
      last of the bits g[j + 1 .. i + 1] that is set. */
  lemma {:induction false} TurnOrigin(g: seq<bool>, k: nat, i: nat, j: nat)
    requires j < i < |g| && g[j + 1] && forall t :: j + 1 < t <= i ==> !g[t]
    ensures Turn(g, k, Origin(|g|), i) == Turn(g, k, FarEnd(|g|, k), j)
    decreases i
  {
    var o := Origin(|g|);
    if i == j + 1 {
      assert TurnStep(g, k, o, i) == FarEnd(|g|, k);
    } else {
      assert TurnStep(g, k, o, i) == o;
      TurnOrigin(g, k, i - 1, j);
    }
  }

  lemma {:induction false} TurnOriginStays(g: seq<bool>, k: nat, i: nat)
    requires i < |g| && forall t :: 0 < t <= i ==> !g[t]
    ensures Turn(g, k, Origin(|g|), i) == if g[0] then FarEnd(|g|, k) else Origin(|g|)
    decreases i
  {
    var o := Origin(|g|);
    if i > 0 {
      assert TurnStep(g, k, o, i) == o;
      TurnOriginStays(g, k, i - 1);
    } else {
      assert o[0 := o[0]][0 := o[0]] == o;
    }
  }

  lemma FirstDigit(n: nat)
    ensures forall i :: 0 <= i < n ==> !Corner(n, 0)[i]
  {
    forall i | 0 <= i < n ensures !Corner(n, 0)[i] {
      ZeroBit(n - 1 - i);
      ZeroBit(n - i);
    }
  }

  lemma LastDigit(n: nat, h: nat)
    requires n >= 1 && h + 1 == Pow2(n)
    ensures h % 2 == 1
    ensures forall i :: 0 <= i < n ==> Corner(n, h)[i] == (i == 0)
  {
    forall i | 0 <= i < n ensures Corner(n, h)[i] == (i == 0) {
      OnesBit(n, n - 1 - i);
      OnesBit(n, n - i);
    }
  }

  lemma FitOriginFirst(n: nat, k: nat)
    requires n >= 1
    ensures Fit(0, Origin(n), k) == Origin(n)
  {
    var g := Corner(n, 0);
    FirstDigit(n);
    TurnOriginStays(g, k, n - 1);
    assert PlaceAll(g, Origin(n), k) == Origin(n);
  }

  lemma FitOriginLast(n: nat, h: nat, k: nat)
    requires n >= 1 && h + 1 == Pow2(n)
    ensures Fit(h, Origin(n), k) == FarEnd(n, k + 1)
  {
    var g := Corner(n, h);
    LastDigit(n, h);
    TurnOriginStays(g, k, n - 1);
    assert PlaceAll(g, FarEnd(n, k), k) == FarEnd(n, k + 1);
  }

  lemma {:induction false} StartPoint(n: nat, b: nat)
    requires n >= 1
    ensures Hilbert(n, b, 0) == Origin(n)
  {
    hide Fit, Quot, Rem;
    if b > 0 {
      StartPoint(n, b - 1);
      HilbertFit(n, b, 0, 0, 0, Vol(n, b - 1));
      FitOriginFirst(n, b - 1);
    }
  }

  /** The curve runs from the origin to the far end of axis 0. */
  lemma EndPoints(n: nat, b: nat, last: nat)
    requires n >= 1 && last + 1 == Vol(n, b)
    ensures Hilbert(n, b, 0) == Origin(n)
    ensures Hilbert(n, b, last) == FarEnd(n, b)
  {
    hide Fit, Quot, Rem;
    StartPoint(n, b);
    if b > 0 {
      var v, h := Vol(n, b - 1), Pow2(n) - 1;
      Distribute(h, v);
      HilbertFit(n, b, last, h, v - 1, v);
      LastDigit(n, h);
      StartPoint(n, b - 1);
      FitOriginLast(n, h, b - 1);
    } else {
      assert Origin(n)[0 := 0] == Origin(n);
    }
  }

  // ---- from one part of the curve to the next ------------------------------------------------

  lemma TurnUnfold(g: seq<bool>, k: nat, p: seq<nat>, i: nat)
    requires i < |p| == |g|
    ensures Turn(g, k, p, i) == if i == 0 then TurnStep(g, k, p, 0) else Turn(g, k, TurnStep(g, k, p, i), i - 1)
  {}

  lemma TurnStepFrame(g: seq<bool>, k: nat, p: seq<nat>, i: nat, j: nat, c: nat)
    requires i < j < |p| == |g|
    ensures TurnStep(g, k, p[j := c], i) == TurnStep(g, k, p, i)[j := c]
  {}

  /** A turn by axes up to i neither reads nor moves a later axis. */
  lemma {:induction false} TurnFrame(g: seq<bool>, k: nat, p: seq<nat>, i: nat, j: nat, c: nat)
    requires i < j < |p| == |g|
    ensures Turn(g, k, p[j := c], i) == Turn(g, k, p, i)[j := c]
    decreases i
  {
    hide Turn, TurnStep;
    TurnUnfold(g, k, p, i);
    TurnUnfold(g, k, p[j := c], i);
    TurnStepFrame(g, k, p, i, j, c);
    if i > 0 { TurnFrame(g, k, TurnStep(g, k, p, i), i - 1, j, c); }
  }

  /** Nor does it look at later bits of g. */
  lemma {:induction false} TurnAgrees(g: seq<bool>, g': seq<bool>, k: nat, p: seq<nat>, i: nat)
    requires i < |p| == |g| == |g'|
    requires forall t :: 0 <= t <= i ==> g[t] == g'[t]
    ensures Turn(g, k, p, i) == Turn(g', k, p, i)
    decreases i
  {
    hide Turn;
    TurnUnfold(g, k, p, i);
    TurnUnfold(g', k, p, i);
    assert TurnStep(g, k, p, i) == TurnStep(g', k, p, i);
    if i > 0 { TurnAgrees(g, g', k, TurnStep(g, k, p, i), i - 1); }
  }

  lemma TurnStepFarEnd(g: seq<bool>, k: nat, j: nat)
    requires j < |g|
    ensures TurnStep(g, k, FarEnd(|g|, k), j) == Origin(|g|)[j := if g[j] then 0 else Pow2(k) - 1]
  {
    assert FarEnd(|g|, k)[0] == Pow2(k) - 1;
  }

  /** Turned by axes up to j, the far end lies where the origin does, except along axis j. */
  lemma TurnFarEndAt(g: seq<bool>, k: nat, j: nat)
    requires j < |g|
    ensures var o := Origin(|g|);
      Turn(g, k, FarEnd(|g|, k), j)
        == (if j == 0 then o else Turn(g, k, o, j - 1))[j := if g[j] then 0 else Pow2(k) - 1]
  {
    hide Turn, TurnStep, FarEnd, Origin;
    TurnUnfold(g, k, FarEnd(|g|, k), j);
    TurnStepFarEnd(g, k, j);
    if j > 0 { TurnFrame(g, k, Origin(|g|), j - 1, j, if g[j] then 0 else Pow2(k) - 1); }
  }

  lemma SideBySide(g: seq<bool>, g': seq<bool>, p: seq<nat>, k: nat, j: nat)
    requires j < |p| == |g| == |g'| && !g[j] && g'[j]
    requires forall t :: 0 <= t < |g| && t != j ==> g[t] == g'[t]
    ensures NeighboursAlong(PlaceAll(g, p[j := Pow2(k) - 1], k), PlaceAll(g', p[j := 0], k), j)
  {}

  /** Two subcubes that differ along axis j only are entered and left side by side. */
  lemma TurnFarEnd(g: seq<bool>, g': seq<bool>, k: nat, j: nat)
    requires j < |g| == |g'| && !g[j] && g'[j]
    requires forall t :: 0 <= t < |g| && t != j ==> g[t] == g'[t]
    ensures var e := FarEnd(|g|, k);
      NeighboursAlong(PlaceAll(g, Turn(g, k, e, j), k), PlaceAll(g', Turn(g', k, e, j), k), j)
  {
    hide FarEnd, Origin, PlaceAll, NeighboursAlong, Turn;
    TurnFarEndAt(g, k, j);
    TurnFarEndAt(g', k, j);
    var o := Origin(|g|);
    if j > 0 { TurnAgrees(g, g', k, o, j - 1); }
    SideBySide(g, g', if j == 0 then o else Turn(g, k, o, j - 1), k, j);
  }

  /** Bit t of h and of h + 1, when adding one carries up to bit m. */
  ghost predicate CarryAt(h: nat, m: nat, t: nat) {
    if t < m then Bit(h, t) && !Bit(h + 1, t)
    else if t == m then !Bit(h, t) && Bit(h + 1, t)
    else Bit(h, t) == Bit(h + 1, t)
  }

  lemma CarryHere(h: nat, t: nat)
    requires h % 2 == 0
    ensures CarryAt(h, 0, t)
  {
    hide Bit;
    BitZero(h);
    BitZero(h + 1);
    if t > 0 {
      BitHalf(h, t);
      BitHalf(h + 1, t);
    }
  }

  lemma CarryOn(h: nat, m: nat, t: nat)
    requires h % 2 == 1 && m > 0 && (t > 0 ==> CarryAt(h / 2, m - 1, t - 1))
    ensures CarryAt(h, m, t)
  {
    hide Bit;
    BitZero(h);
    BitZero(h + 1);
    if t > 0 {
      assert (h + 1) / 2 == h / 2 + 1;
      BitHalf(h, t);
      BitHalf(h + 1, t);
    }
  }

  /** Adding one to h carries up to some bit m, which is bit 0 exactly when h is even. */
  lemma {:induction false} Carry(h: nat) returns (m: nat)
    ensures forall t: nat :: CarryAt(h, m, t)
    ensures m == 0 <==> h % 2 == 0
  {
    hide CarryAt;
    if h % 2 == 0 {
      m := 0;
      forall t: nat ensures CarryAt(h, m, t) { CarryHere(h, t); }
    } else {
      var m' := Carry(h / 2);
      m := m' + 1;
      forall t: nat ensures CarryAt(h, m, t) {
        if t > 0 { assert CarryAt(h / 2, m', t - 1); }
        CarryOn(h, m, t);
      }
    }
  }

  /** Consecutive subcubes share a face: their corners differ along one axis j; and when h is
      odd, axis j + 1 is set in both and the later axes are clear. */
  lemma NextCorner(n: nat, h: nat) returns (j: nat)
    requires n >= 1 && h + 1 < Pow2(n)
    ensures j < n && Corner(n, h)[j] != Corner(n, h + 1)[j]
    ensures forall t :: 0 <= t < n && t != j ==> Corner(n, h)[t] == Corner(n, h + 1)[t]
    ensures h % 2 == 0 ==> j == n - 1
    ensures h % 2 == 1 ==> j + 1 < n && Corner(n, h)[j + 1] && forall t :: j + 1 < t < n ==> !Corner(n, h)[t]
  {
    hide Bit;
    var m := Carry(h);
    assert CarryAt(h, m, m);
    if m >= n { HighBitClear(h + 1, n, m); }
    j := n - 1 - m;
    forall t | 0 <= t < n
      ensures (Corner(n, h)[t] != Corner(n, h + 1)[t]) <==> t == j
      ensures t > j ==> Corner(n, h)[t] == (t == j + 1)
    {
      assert CarryAt(h, m, n - 1 - t) && CarryAt(h, m, n - t);
    }
  }

  lemma FitsMeet(h: nat, p: seq<nat>, k: nat, j: nat)
    requires j < |p|
    requires var n := |p|; var g, g' := Corner(n, h), Corner(n, h + 1);
      && g[j] != g'[j]
      && (forall t :: 0 <= t < n && t != j ==> g[t] == g'[t])
      && Turn(g, k, p, n - 1) == Turn(g, k, FarEnd(n, k), j)
      && Turn(g', k, p, n - 1) == Turn(g', k, FarEnd(n, k), j)
    ensures Neighbours(Fit(h, p, k), Fit(h + 1, p, k))
  {
    var g, g' := Corner(|p|, h), Corner(|p|, h + 1);
    var q, q' := Fit(h, p, k), Fit(h + 1, p, k);
    if g[j] {
      TurnFarEnd(g', g, k, j);
      assert NeighboursAlong(q', q, j);
      NeighboursSymmetric(q', q);
    } else {
      TurnFarEnd(g, g', k, j);
      assert NeighboursAlong(q, q', j);
    }
  }

  lemma MeetingPoint(n: nat, h: nat, k: nat, p: seq<nat>)
    requires n >= 1 && h + 1 < Pow2(n)
    requires p == if h % 2 == 0 then FarEnd(n, k) else Origin(n)
    ensures Neighbours(Fit(h, p, k), Fit(h + 1, p, k))
  {
    hide Corner, Turn, Fit;
    var j := NextCorner(n, h);
    if h % 2 == 1 {
      var g, g' := Corner(n, h), Corner(n, h + 1);
      assert forall t :: j < t < n ==> g'[t] == g[t];
      TurnOrigin(g, k, n - 1, j);
      TurnOrigin(g', k, n - 1, j);
    }
    FitsMeet(h, p, k, j);
  }

  /** Where a part ends the next one begins: in the same point of its subcube before it is fitted,
      and so at its neighbour after. */
  lemma Crossing(n: nat, h: nat, k: nat, v: nat)
    requires n >= 1 && h + 1 < Pow2(n) && v == Vol(n, k)
    ensures Neighbours(Fit(h, Hilbert(n, k, Inner(h, v - 1, v)), k), Fit(h + 1, Hilbert(n, k, Inner(h + 1, 0, v)), k))
  {
    hide Fit, Hilbert;
    var m := if h % 2 == 0 then v - 1 else 0;
    assert m == Inner(h, v - 1, v) == Inner(h + 1, 0, v);
    EndPoints(n, k, v - 1);
    MeetingPoint(n, h, k, Hilbert(n, k, m));
  }

  lemma InnerStep(h: nat, l: nat, v: nat)
    requires l + 1 < v
    ensures if h % 2 == 1 then Inner(h, l, v) == Inner(h, l + 1, v) + 1 else Inner(h, l + 1, v) == Inner(h, l, v) + 1
  {}

  lemma AdjacentInside(n: nat, b: nat, H: nat, h: nat, l: nat, v: nat)
    requires n >= 1 && b >= 1 && v == Vol(n, b - 1)
    requires h < Pow2(n) && l + 1 < v && H == h * v + l
    requires var m := if h % 2 == 1 then Inner(h, l + 1, v) else Inner(h, l, v);
      m + 1 < v && Neighbours(Hilbert(n, b - 1, m), Hilbert(n, b - 1, m + 1))
    ensures H + 1 < Vol(n, b) && Neighbours(Hilbert(n, b, H), Hilbert(n, b, H + 1))
  {
    hide Hilbert, Fit;
    var m, m' := Inner(h, l, v), Inner(h, l + 1, v);
    InnerStep(h, l, v);
    HilbertFit(n, b, H, h, l, v);
    HilbertFit(n, b, H + 1, h, l + 1, v);
    HilbertInRange(n, b - 1, m);
    HilbertInRange(n, b - 1, m');
    var p, q := Hilbert(n, b - 1, m), Hilbert(n, b - 1, m');
    if h % 2 == 1 { NeighboursSymmetric(q, p); }
    FitKeepsNeighbours(h, p, q, b - 1);
  }

  lemma AdjacentAcross(n: nat, b: nat, H: nat, h: nat, v: nat)
    requires n >= 1 && b >= 1 && v == Vol(n, b - 1)
    requires H == h * v + (v - 1) && H + 1 < Vol(n, b)
    ensures Neighbours(Hilbert(n, b, H), Hilbert(n, b, H + 1))
  {
    hide Hilbert, Fit;
    Distribute(h, v);
    if h + 1 >= Pow2(n) { MulMonotone(Pow2(n), h + 1, v); }
    HilbertFit(n, b, H, h, v - 1, v);
    HilbertFit(n, b, H + 1, h + 1, 0, v);
    Crossing(n, h, b - 1, v);
  }

  /** Consecutive points of the curve are neighbours in the grid. */
  lemma {:induction false} Adjacent(n: nat, b: nat, H: nat)
    requires n >= 1 && H + 1 < Vol(n, b)
    ensures Neighbours(Hilbert(n, b, H), Hilbert(n, b, H + 1))
    decreases b
  {
    hide Hilbert, Neighbours;
    var v := Vol(n, b - 1);
    DigitBound(n, b, H);
    var h, l := Quot(H, v), Rem(H, v);
    if l + 1 < v {
      InnerStep(h, l, v);
      var m := if h % 2 == 1 then Inner(h, l + 1, v) else Inner(h, l, v);
      Adjacent(n, b - 1, m);
      AdjacentInside(n, b, H, h, l, v);
    } else {
      AdjacentAcross(n, b, H, h, v);
    }
  }
}
