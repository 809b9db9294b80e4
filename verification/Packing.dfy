/** The Hilbert integer: the bits of the n transposed words, interleaved. */
module Packing {
  import opened Words
  import opened Transform

  /** H / v, under a name so that proofs can hide the division. */
  function Quot(H: nat, v: nat): nat
    requires v >= 1
  {
    H / v
  }

  /** H % v, likewise. */
  function Rem(H: nat, v: nat): (r: nat)
    requires v >= 1
    ensures r < v
  {
    H % v
  }

  /** Number of points of the n-dimensional grid of side 1 << b. */
  function Vol(n: nat, b: nat): (v: nat)
    ensures v >= 1
  {
    if b == 0 then 1 else Pow2(n) * Vol(n, b - 1)
  }

  /** The bits k of all words as one n-bit number, axis 0 first. */
  function Digit(X: seq<nat>, k: nat): nat {
    if X == [] then 0
    else 2 * Digit(X[..|X| - 1], k) + (if Bit(X[|X| - 1], k) then 1 else 0)
  }

  /** The sum over all axes i and bits k < b of (X[i] >> k & 1) << (n*k + n-1-i). */
  function Pack(X: seq<nat>, b: nat): nat {
    if b == 0 then 0 else Digit(X, b - 1) * Vol(|X|, b - 1) + Pack(X, b - 1)
  }

  function Origin(n: nat): (p: seq<nat>)
    ensures |p| == n
  {
    seq(n, _ => 0)
  }

  /** Digit h in front of the k-bit words x. */
  function UnpackDigit(h: nat, x: seq<nat>, k: nat): (X: seq<nat>)
    ensures |X| == |x|
  {
    seq(|x|, i requires 0 <= i < |x| => Place(Bit(h, |x| - 1 - i), x[i], k))
  }

  /** The words whose interleaving is H. */
  function Unpack(n: nat, b: nat, H: nat): (X: seq<nat>)
    requires H < Vol(n, b)
    ensures |X| == n
  {
    if b == 0 then Origin(n)
    else
      var v := Vol(n, b - 1);
      UnpackDigit(Quot(H, v), Unpack(n, b - 1, Rem(H, v)), b - 1)
  }

  lemma UnpackUnfold(n: nat, b: nat, H: nat)
    requires H < Vol(n, b)
    ensures b == 0 ==> Unpack(n, b, H) == Origin(n)
    ensures b > 0 ==> var v := Vol(n, b - 1);
      Unpack(n, b, H) == UnpackDigit(Quot(H, v), Unpack(n, b - 1, Rem(H, v)), b - 1)
  {}

  // ---- digits -------------------------------------------------------------------

  lemma QuotRem(H: nat, v: nat)
    requires v >= 1
    ensures H == Quot(H, v) * v + Rem(H, v)
  {}

  lemma Distribute(q: nat, v: nat)
    ensures (q + 1) * v == q * v + v
  {}

  lemma MulMonotone(p: nat, q: nat, v: nat)
    requires p <= q
    ensures p * v <= q * v
  {}

  lemma QuotUnique(h: nat, l: nat, v: nat)
    requires l < v
    ensures Quot(h * v + l, v) == h && Rem(h * v + l, v) == l
  {
    hide Quot, Rem;
    var q, r := Quot(h * v + l, v), Rem(h * v + l, v);
    QuotRem(h * v + l, v);
    if q < h { MulMonotone(q + 1, h, v); Distribute(q, v); }
    if h < q { MulMonotone(h + 1, q, v); Distribute(h, v); }
  }

  lemma QuotBound(H: nat, p: nat, v: nat)
    requires v >= 1 && H < p * v
    ensures Quot(H, v) < p
  {
    hide Quot, Rem;
    QuotRem(H, v);
    if Quot(H, v) >= p { MulMonotone(p, Quot(H, v), v); }
  }

  /** Top digit and remainder of a position on the order-b curve. */
  lemma DigitBound(n: nat, b: nat, H: nat)
    requires b >= 1 && H < Vol(n, b)
    ensures var v := Vol(n, b - 1); Quot(H, v) < Pow2(n) && H == Quot(H, v) * v + Rem(H, v)
  {
    hide Quot, Rem;
    QuotRem(H, Vol(n, b - 1));
    QuotBound(H, Pow2(n), Vol(n, b - 1));
  }

  lemma DigitsInVol(n: nat, b: nat, h: nat, l: nat)
    requires b >= 1 && h < Pow2(n) && l < Vol(n, b - 1)
    ensures h * Vol(n, b - 1) + l < Vol(n, b)
    ensures var v := Vol(n, b - 1); Quot(h * v + l, v) == h && Rem(h * v + l, v) == l
  {
    var v := Vol(n, b - 1);
    MulMonotone(h + 1, Pow2(n), v);
    Distribute(h, v);
    QuotUnique(h, l, v);
  }

  lemma {:induction false} DigitRange(X: seq<nat>, k: nat)
    ensures Digit(X, k) < Pow2(|X|)
  {
    if X != [] { DigitRange(X[..|X| - 1], k); }
  }

  lemma {:induction false} DigitBit(X: seq<nat>, k: nat, i: nat)
    requires i < |X|
    ensures Bit(Digit(X, k), |X| - 1 - i) == Bit(X[i], k)
  {
    var Y := X[..|X| - 1];
    assert Digit(X, k) / 2 == Digit(Y, k);
    if i < |X| - 1 {
      DigitBit(Y, k, i);
    }
  }

  lemma {:induction false} DigitOf(X: seq<nat>, k: nat, h: nat)
    requires h < Pow2(|X|)
    requires forall i :: 0 <= i < |X| ==> Bit(X[i], k) == Bit(h, |X| - 1 - i)
    ensures Digit(X, k) == h
  {
    if X != [] {
      var Y := X[..|X| - 1];
      forall i | 0 <= i < |Y| ensures Bit(Y[i], k) == Bit(h / 2, |Y| - 1 - i) {
        assert Bit(X[i], k) == Bit(h, |X| - 1 - i);
      }
      DigitOf(Y, k, h / 2);
      assert Bit(X[|X| - 1], k) == Bit(h, 0);
    }
  }

  // ---- packing and unpacking are inverse --------------------------------------------

  function LoAll(X: seq<nat>, m: nat): (Y: seq<nat>)
    ensures |Y| == |X|
  {
    seq(|X|, i requires 0 <= i < |X| => Lo(X[i], m))
  }

  lemma LoAllInRange(X: seq<nat>, m: nat)
    ensures InRange(LoAll(X, m), m)
    ensures InRange(X, m) ==> LoAll(X, m) == X
  {
    forall i | 0 <= i < |X| ensures Lo(X[i], m) < Pow2(m) && (X[i] < Pow2(m) ==> Lo(X[i], m) == X[i]) {
      LoInRange(X[i], m);
    }
  }

  lemma UnpackDigitParts(h: nat, x: seq<nat>, k: nat)
    requires InRange(x, k)
    ensures var X := UnpackDigit(h, x, k);
      && InRange(X, k + 1)
      && LoAll(X, k) == x
      && forall i :: 0 <= i < |x| ==> Bit(X[i], k) == Bit(h, |x| - 1 - i)
  {
    forall i | 0 <= i < |x|
      ensures var X := UnpackDigit(h, x, k);
        X[i] < Pow2(k + 1) && Lo(X[i], k) == x[i] && Bit(X[i], k) == Bit(h, |x| - 1 - i)
    {
      PlaceParts(Bit(h, |x| - 1 - i), x[i], k);
    }
  }

  lemma {:induction false} PackRange(X: seq<nat>, b: nat)
    ensures Pack(X, b) < Vol(|X|, b)
  {
    if b > 0 {
      PackRange(X, b - 1);
      DigitRange(X, b - 1);
      DigitsInVol(|X|, b, Digit(X, b - 1), Pack(X, b - 1));
    }
  }

  lemma {:induction false} UnpackRange(n: nat, b: nat, H: nat)
    requires H < Vol(n, b)
    ensures InRange(Unpack(n, b, H), b)
  {
    if b > 0 {
      DigitBound(n, b, H);
      var h, l := Quot(H, Vol(n, b - 1)), Rem(H, Vol(n, b - 1));
      UnpackRange(n, b - 1, l);
      UnpackDigitParts(h, Unpack(n, b - 1, l), b - 1);
    }
  }

  /** The interleaving reads only the low b bits of the words. */
  lemma {:induction false} PackLo(X: seq<nat>, b: nat, m: nat)
    requires b <= m
    ensures Pack(LoAll(X, m), b) == Pack(X, b)
  {
    if b > 0 {
      PackLo(X, b - 1, m);
      DigitRange(X, b - 1);
      forall i | 0 <= i < |X|
        ensures Bit(LoAll(X, m)[i], b - 1) == Bit(Digit(X, b - 1), |X| - 1 - i)
      {
        LoBit(X[i], m, b - 1);
        DigitBit(X, b - 1, i);
      }
      DigitOf(LoAll(X, m), b - 1, Digit(X, b - 1));
    }
  }

  lemma {:induction false} PackUnpack(n: nat, b: nat, H: nat)
    requires H < Vol(n, b)
    ensures Pack(Unpack(n, b, H), b) == H
  {
    hide Quot, Rem, Digit, UnpackDigit;
    if b > 0 {
      DigitBound(n, b, H);
      var v := Vol(n, b - 1);
      var h, l := Quot(H, v), Rem(H, v);
      var x, X := Unpack(n, b - 1, l), Unpack(n, b, H);
      UnpackRange(n, b - 1, l);
      UnpackDigitParts(h, x, b - 1);
      DigitOf(X, b - 1, h);
      PackLo(X, b - 1, b - 1);
      PackUnpack(n, b - 1, l);
    }
  }

  lemma DigitRestores(X: seq<nat>, k: nat)
    requires InRange(X, k + 1)
    ensures UnpackDigit(Digit(X, k), LoAll(X, k), k) == X
  {
    forall i | 0 <= i < |X| ensures UnpackDigit(Digit(X, k), LoAll(X, k), k)[i] == X[i] {
      DigitBit(X, k, i);
      PlaceOfParts(X[i], k);
    }
  }

  lemma {:induction false} UnpackPack(X: seq<nat>, b: nat)
    requires InRange(X, b)
    ensures Pack(X, b) < Vol(|X|, b) && Unpack(|X|, b, Pack(X, b)) == X
    decreases b
  {
    hide Quot, Rem, Digit, LoAll, UnpackDigit;
    PackRange(X, b);
    if b > 0 {
      var x, h, v := LoAll(X, b - 1), Digit(X, b - 1), Vol(|X|, b - 1);
      LoAllInRange(X, b - 1);
      UnpackPack(x, b - 1);
      PackLo(X, b - 1, b - 1);
      var l := Pack(X, b - 1);
      DigitRange(X, b - 1);
      DigitsInVol(|X|, b, h, l);
      DigitRestores(X, b - 1);
    } else {
      assert X == Origin(|X|) by {
        forall i | 0 <= i < |X| ensures X[i] == 0 { assert X[i] < Pow2(0); }
      }
    }
  }
}
