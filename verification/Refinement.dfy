/** TransposetoAxes computes the Hilbert curve: applied to the unpacked bits of H it yields
    point H of the self-similar curve. */
module Refinement {
  import opened Words
  import opened Transform
  import opened Packing
  import opened Curve

  // ---- the passes act on each bit level as a symmetry of the cube ----------------------

  lemma StepIsTurnStep(g: seq<bool>, p: seq<nat>, k: nat, i: nat)
    requires i < |p| == |g| && InRange(p, k)
    ensures Step(PlaceAll(g, p, k), k, i) == PlaceAll(g, TurnStep(g, k, p, i), k)
  {
    hide Place, FlipLow, Splice, Bit;
    var X, q := PlaceAll(g, p, k), TurnStep(g, k, p, i);
    PlaceParts(g[i], p[i], k);
    PlaceFlip(g[0], p[0], k);
    PlaceSplice(g[0], p[0], g[i], p[i], k);
    PlaceSplice(g[i], p[i], g[0], p[0], k);
    assert forall j :: 0 <= j < |p| ==> Step(X, k, i)[j] == PlaceAll(g, q, k)[j];
  }

  lemma {:induction false} PassIsTurn(g: seq<bool>, p: seq<nat>, k: nat, i: nat)
    requires i < |p| == |g| && InRange(p, k)
    ensures PassDown(PlaceAll(g, p, k), k, i) == PlaceAll(g, Turn(g, k, p, i), k)
    decreases i
  {
    hide Step, TurnStep, PlaceAll;
    StepIsTurnStep(g, p, k, i);
    if i > 0 {
      TurnStepInRange(g, k, p, i);
      PassIsTurn(g, TurnStep(g, k, p, i), k, i - 1);
    }
  }

  // ---- lower passes see only lower bits --------------------------------------------------

  lemma StepLo(X: seq<nat>, k: nat, i: nat, m: nat)
    requires i < |X| && k < m
    ensures LoAll(Step(X, k, i), m) == Step(LoAll(X, m), k, i)
  {
    hide Lo, FlipLow, Splice, Bit;
    LoBit(X[i], m, k);
    LoFlipLow(X[0], k, m);
    LoSplice(X[0], X[i], k, m);
    LoSplice(X[i], X[0], k, m);
    assert forall j :: 0 <= j < |X| ==> LoAll(Step(X, k, i), m)[j] == Step(LoAll(X, m), k, i)[j];
  }

  lemma {:induction false} PassLo(X: seq<nat>, k: nat, i: nat, m: nat)
    requires i < |X| && k < m
    ensures LoAll(PassDown(X, k, i), m) == PassDown(LoAll(X, m), k, i)
    decreases i
  {
    hide Step, LoAll;
    StepLo(X, k, i, m);
    if i > 0 { PassLo(Step(X, k, i), k, i - 1, m); }
  }

  lemma {:induction false} UndoLo(X: seq<nat>, b: nat, m: nat)
    requires X != [] && b <= m
    ensures LoAll(Undo(X, b), m) == Undo(LoAll(X, m), b)
  {
    hide PassDown, LoAll;
    if b > 0 {
      UndoLo(X, b - 1, m);
      PassLo(Undo(X, b - 1), b - 1, |X| - 1, m);
    }
  }

  // ---- the Gray phase on the top digit and on the rest -------------------------------------

  lemma UnpackDigitBit(h: nat, x: seq<nat>, k: nat, i: nat, m: nat)
    requires InRange(x, k) && i < |x|
    ensures Bit(UnpackDigit(h, x, k)[i], m) == if m == k then Bit(h, |x| - 1 - i) else m < k && Bit(x[i], m)
  {
    hide Bit, Lo, Place;
    var X := UnpackDigit(h, x, k);
    UnpackDigitParts(h, x, k);
    if m > k {
      HighBitClear(X[i], k + 1, m);
    } else if m < k {
      assert Lo(X[i], k) == LoAll(X, k)[i];
      LoBit(X[i], k, m);
    }
  }

  /** The top Gray digit of h . x is the corner of h. */
  lemma GrayTop(h: nat, x: seq<nat>, k: nat, i: nat)
    requires InRange(x, k) && i < |x| && h < Pow2(|x|)
    ensures Bit(GrayDecode(UnpackDigit(h, x, k))[i], k) == Corner(|x|, h)[i]
  {
    hide Bit, UnpackDigit, Xor, Shr;
    var n, X := |x|, UnpackDigit(h, x, k);
    UnpackDigitBit(h, x, k, i, k);
    if i > 0 {
      UnpackDigitBit(h, x, k, i - 1, k);
      XorBit(X[i], X[i - 1], k);
    } else {
      UnpackDigitBit(h, x, k, n - 1, k + 1);
      ShrBit(X[n - 1], 1, k);
      XorBit(X[0], Shr(X[n - 1], 1), k);
      HighBitClear(h, n, n);
    }
  }

  /** All words of a k-bit position counted from the other end are complements. */
  function Flipped(flip: bool, x: seq<nat>, k: nat): (y: seq<nat>)
    ensures |y| == |x|
  {
    seq(|x|, i requires 0 <= i < |x| => if flip then FlipLow(x[i], k) else x[i])
  }

  lemma FlippedBit(flip: bool, x: seq<nat>, k: nat, i: nat, m: nat)
    requires InRange(x, k) && i < |x|
    ensures Bit(Flipped(flip, x, k)[i], m) == (m < k && (flip != Bit(x[i], m)))
  {
    hide Bit, FlipLow;
    FlipLowBit(x[i], k, m);
    if m >= k { HighBitClear(x[i], k, m); }
  }

  /** Below the top digit the Gray code is that of the rest, counted backwards when h is odd:
      complementing every word changes only the top bit of axis 0, which h's lowest bit reaches. */
  lemma GrayRestBit(h: nat, x: seq<nat>, k: nat, i: nat, m: nat)
    requires InRange(x, k) && i < |x| && m < k
    ensures Bit(GrayDecode(UnpackDigit(h, x, k))[i], m) == Bit(GrayDecode(Flipped(h % 2 == 1, x, k))[i], m)
  {
    hide UnpackDigit, Flipped, Xor, Shr;
    var n, X, Y := |x|, UnpackDigit(h, x, k), Flipped(h % 2 == 1, x, k);
    UnpackDigitBit(h, x, k, i, m);
    FlippedBit(h % 2 == 1, x, k, i, m);
    if i > 0 {
      UnpackDigitBit(h, x, k, i - 1, m);
      FlippedBit(h % 2 == 1, x, k, i - 1, m);
      XorBit(X[i], X[i - 1], m);
      XorBit(Y[i], Y[i - 1], m);
    } else {
      UnpackDigitBit(h, x, k, n - 1, m + 1);
      FlippedBit(h % 2 == 1, x, k, n - 1, m + 1);
      ShrBit(X[n - 1], 1, m);
      ShrBit(Y[n - 1], 1, m);
      XorBit(X[0], Shr(X[n - 1], 1), m);
      XorBit(Y[0], Shr(Y[n - 1], 1), m);
    }
  }

  lemma FlippedInRange(flip: bool, x: seq<nat>, k: nat)
    requires InRange(x, k)
    ensures InRange(Flipped(flip, x, k), k)
    ensures flip ==> forall i :: 0 <= i < |x| ==> Flipped(flip, x, k)[i] == Pow2(k) - 1 - x[i]
  {
    forall i | 0 <= i < |x| ensures FlipLow(x[i], k) == Pow2(k) - 1 - x[i] { FlipLowInRange(x[i], k); }
  }

  lemma GrayRest(h: nat, x: seq<nat>, k: nat)
    requires InRange(x, k) && x != []
    ensures LoAll(GrayDecode(UnpackDigit(h, x, k)), k) == GrayDecode(Flipped(h % 2 == 1, x, k))
  {
    hide UnpackDigit, Flipped, GrayDecode, Bit, Lo;
    var D, E := GrayDecode(UnpackDigit(h, x, k)), GrayDecode(Flipped(h % 2 == 1, x, k));
    FlippedInRange(h % 2 == 1, x, k);
    GrayKeepsRange(Flipped(h % 2 == 1, x, k), k, k);
    forall i | 0 <= i < |x| ensures LoAll(D, k)[i] == E[i] {
      forall m: nat ensures Bit(Lo(D[i], k), m) == Bit(E[i], m) {
        LoBit(D[i], k, m);
        if m < k { GrayRestBit(h, x, k, i, m); } else { HighBitClear(E[i], k, m); }
      }
      SameBits(Lo(D[i], k), E[i]);
    }
  }

  // ---- counting backwards -----------------------------------------------------------------

  lemma FlipDigit(n: nat, h: nat, i: nat)
    requires h < Pow2(n) && i < n
    ensures Bit(Pow2(n) - 1 - h, i) == !Bit(h, i)
  {
    FlipLowInRange(h, n);
    FlipLowBit(h, n, i);
  }

  lemma FlippedDigit(n: nat, h: nat, h': nat, x: seq<nat>, k: nat)
    requires n == |x| && InRange(x, k) && h + h' + 1 == Pow2(n)
    ensures UnpackDigit(h', Flipped(true, x, k), k) == Flipped(true, UnpackDigit(h, x, k), k + 1)
  {
    UnpackDigitParts(h, x, k);
    FlippedInRange(true, x, k);
    FlippedInRange(true, UnpackDigit(h, x, k), k + 1);
    forall i | 0 <= i < n
      ensures UnpackDigit(h', Flipped(true, x, k), k)[i] == Flipped(true, UnpackDigit(h, x, k), k + 1)[i]
    {
      FlipDigit(n, h, n - 1 - i);
    }
  }

  lemma FlippedOrigin(n: nat)
    ensures Flipped(true, Origin(n), 0) == Origin(n)
  {}

  lemma BackwardsDigits(n: nat, b: nat, H: nat, H': nat) returns (h': nat, l': nat)
    requires b >= 1 && H + H' + 1 == Vol(n, b)
    ensures var v := Vol(n, b - 1);
      && h' == Quot(H', v) && l' == Rem(H', v)
      && Quot(H, v) + h' + 1 == Pow2(n) && Rem(H, v) + l' + 1 == v
  {
    hide Pow2, Quot, Rem;
    var v, p := Vol(n, b - 1), Pow2(n);
    DigitBound(n, b, H);
    var h, l := Quot(H, v), Rem(H, v);
    h', l' := p - 1 - h, v - 1 - l;
    assert p * v == h' * v + h * v + v by { assert p == h' + h + 1; }
    QuotUnique(h', l', v);
  }

  /** The words of the position counted from the other end of the curve are the complements. */
  lemma {:induction false} UnpackBackwards(n: nat, b: nat, H: nat, H': nat)
    requires H + H' + 1 == Vol(n, b)
    ensures Unpack(n, b, H') == Flipped(true, Unpack(n, b, H), b)
    decreases b
  {
    hide Flipped, UnpackDigit, Quot, Rem, Pow2;
    if b > 0 {
      var v := Vol(n, b - 1);
      var h, l := Quot(H, v), Rem(H, v);
      var h', l' := BackwardsDigits(n, b, H, H');
      UnpackBackwards(n, b - 1, l, l');
      UnpackRange(n, b - 1, l);
      FlippedDigit(n, h, h', Unpack(n, b - 1, l), b - 1);
    } else {
      FlippedOrigin(n);
    }
  }

  lemma UnpackInner(n: nat, b: nat, h: nat, l: nat, v: nat)
    requires v == Vol(n, b) && l < v
    ensures Unpack(n, b, Inner(h, l, v)) == Flipped(h % 2 == 1, Unpack(n, b, l), b)
  {
    if h % 2 == 1 {
      UnpackBackwards(n, b, l, v - 1 - l);
    } else {
      assert Flipped(false, Unpack(n, b, l), b) == Unpack(n, b, l);
    }
  }

  // ---- the refinement ------------------------------------------------------------------------

  /** One level: the lower passes run the lower curve, the last pass fits it into its subcube. */
  lemma UndoDigit(h: nat, x: seq<nat>, k: nat)
    requires x != [] && InRange(x, k) && h < Pow2(|x|)
    requires InRange(AxesOf(Flipped(h % 2 == 1, x, k), k), k)
    ensures AxesOf(UnpackDigit(h, x, k), k + 1) == Fit(h, AxesOf(Flipped(h % 2 == 1, x, k), k), k)
  {
    hide UnpackDigit, Flipped, GrayDecode, PassDown, Bit, Lo, Turn, Corner;
    var n, D := |x|, GrayDecode(UnpackDigit(h, x, k));
    var p := AxesOf(Flipped(h % 2 == 1, x, k), k);
    var U, g := Undo(D, k), Corner(n, h);
    assert InRange(U, k + 1) by {
      UnpackDigitParts(h, x, k);
      GrayKeepsRange(UnpackDigit(h, x, k), k, k + 1);
      PassesKeepRange(D, k, k + 1);
    }
    assert LoAll(U, k) == p by {
      UndoLo(D, k, k);
      GrayRest(h, x, k);
    }
    forall i | 0 <= i < n ensures U[i] == PlaceAll(g, p, k)[i] {
      GrayTop(h, x, k, i);
      PassesKeepHighBits(D, k, i, k);
      PlaceOfParts(U[i], k);
    }
    assert U == PlaceAll(g, p, k);
    PassIsTurn(g, p, k, n - 1);
  }

  lemma DecodeZero(n: nat)
    requires n >= 1
    ensures AxesOf(Origin(n), 0) == Origin(n)
  {
    assert GrayDecode(Origin(n)) == Origin(n);
  }

  lemma {:induction false} ComputesHilbert(n: nat, b: nat, H: nat)
    requires n >= 1 && H < Vol(n, b)
    ensures AxesOf(Unpack(n, b, H), b) == Hilbert(n, b, H)
    decreases b
  {
    hide UnpackDigit, Flipped, Undo, Fit, Quot, Rem, Bit, GrayDecode;
    if b > 0 {
      var k, v := b - 1, Vol(n, b - 1);
      DigitBound(n, b, H);
      var h, l := Quot(H, v), Rem(H, v);
      var m := Inner(h, l, v);
      ComputesHilbert(n, k, m);
      HilbertInRange(n, k, m);
      UnpackRange(n, k, l);
      UnpackInner(n, k, h, l, v);
      UndoDigit(h, Unpack(n, k, l), k);
    } else {
      DecodeZero(n);
    }
  }
}
