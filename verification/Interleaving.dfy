/** The Hilbert integer bit by bit: where each bit of each axis goes, and that its Gray code is
    what the first phase of TransposetoAxes computes. */
module Interleaving {
  import opened Words
  import opened Transform
  import opened Packing
  import opened Curve
  import opened Ordering

  lemma {:induction false} SumBit(h: nat, l: nat, m: nat, j: nat)
    requires l < Pow2(m)
    ensures Bit(h * Pow2(m) + l, j) == if j < m then Bit(l, j) else Bit(h, j - m)
  {
    if m > 0 {
      var p := Pow2(m - 1);
      assert h * Pow2(m) == 2 * (h * p) by { assert h * (2 * p) == 2 * (h * p); }
      assert (h * Pow2(m) + l) / 2 == h * p + l / 2;
      if j > 0 { SumBit(h, l / 2, m - 1, j - 1); }
    } else {
      assert h * Pow2(0) + l == h;
    }
  }

  lemma MulOrder(n: nat, k: nat, m: nat)
    requires k < m
    ensures n * k + n <= n * m
  {
    MulMonotone(k + 1, m, n);
    Distribute(k, n);
  }

  /** Bit k of axis i is bit n*k + (n-1-i) of the Hilbert integer. */
  lemma {:induction false} PackBit(X: seq<nat>, b: nat, k: nat, i: nat)
    requires k < b && i < |X|
    ensures Bit(Pack(X, b), |X| * k + (|X| - 1 - i)) == Bit(X[i], k)
    decreases b
  {
    hide Bit, Digit, Pow2;
    var n, m := |X|, b - 1;
    VolIsPower(n, m);
    PackRange(X, m);
    SumBit(Digit(X, m), Pack(X, m), n * m, n * k + (n - 1 - i));
    if k < m {
      MulOrder(n, k, m);
      PackBit(X, m, k, i);
    } else {
      DigitBit(X, m, i);
    }
  }

  lemma PackBitAt(X: seq<nat>, b: nat, j: nat) returns (k: nat, i: nat)
    requires X != [] && j < |X| * b
    ensures k < b && i < |X| && j == |X| * k + (|X| - 1 - i)
    ensures Bit(Pack(X, b), j) == Bit(X[i], k)
  {
    hide Pack, Bit, Quot, Rem;
    var n := |X|;
    QuotRem(j, n);
    k := Quot(j, n);
    assert k * n == n * k && b * n == n * b;
    QuotBound(j, b, n);
    i := n - 1 - Rem(j, n);
    PackBit(X, b, k, i);
  }

  lemma PackBitBeyond(X: seq<nat>, b: nat, j: nat)
    requires j >= |X| * b
    ensures !Bit(Pack(X, b), j)
  {
    PackRange(X, b);
    VolIsPower(|X|, b);
    HighBitClear(Pack(X, b), |X| * b, j);
  }

  /** H ^ (H >> 1). */
  function Gray(H: nat): nat {
    Xor(H, Shr(H, 1))
  }

  lemma GrayBit(H: nat, j: nat)
    ensures Bit(Gray(H), j) == (Bit(H, j) != Bit(H, j + 1))
  {
    XorBit(H, Shr(H, 1), j);
    ShrBit(H, 1, j);
  }

  lemma GrayPhaseBit(X: seq<nat>, b: nat, k: nat, i: nat)
    requires k < b && i < |X| && InRange(X, b)
    ensures var j := |X| * k + (|X| - 1 - i);
      Bit(GrayDecode(X)[i], k) == (Bit(Pack(X, b), j) != Bit(Pack(X, b), j + 1))
  {
    hide Pack, Bit, Xor, Shr;
    var n := |X|;
    var j := n * k + (n - 1 - i);
    PackBit(X, b, k, i);
    if i > 0 {
      PackBit(X, b, k, i - 1);
      XorBit(X[i], X[i - 1], k);
    } else {
      assert j + 1 == n * (k + 1) by { Distribute(k, n); }
      XorBit(X[0], Shr(X[n - 1], 1), k);
      ShrBit(X[n - 1], 1, k);
      if k + 1 < b {
        PackBit(X, b, k + 1, n - 1);
      } else {
        PackBitBeyond(X, b, j + 1);
        HighBitClear(X[n - 1], b, k + 1);
      }
    }
  }

  /** The "Gray decode" phase computes H ^ (H >> 1) of the interleaved integer. */
  lemma GrayPhase(X: seq<nat>, b: nat)
    requires X != [] && InRange(X, b)
    ensures Pack(GrayDecode(X), b) == Gray(Pack(X, b))
  {
    hide Pack, Bit, GrayDecode, Gray;
    var n, H, G := |X|, Pack(X, b), Pack(GrayDecode(X), b);
    forall j: nat ensures Bit(G, j) == Bit(Gray(H), j) {
      GrayBit(H, j);
      if j < n * b {
        var k, i := PackBitAt(GrayDecode(X), b, j);
        GrayPhaseBit(X, b, k, i);
      } else {
        PackBitBeyond(GrayDecode(X), b, j);
        PackBitBeyond(X, b, j);
        PackBitBeyond(X, b, j + 1);
      }
    }
    SameBits(G, Gray(H));
  }

  /** The Gray codes of consecutive integers differ in one bit. */
  lemma GrayOneBit(H: nat) returns (m: nat)
    ensures forall j: nat :: (Bit(Gray(H), j) != Bit(Gray(H + 1), j)) <==> j == m
  {
    hide Bit, Gray;
    m := Carry(H);
    forall j: nat ensures (Bit(Gray(H), j) != Bit(Gray(H + 1), j)) <==> j == m {
      GrayBit(H, j);
      GrayBit(H + 1, j);
      assert CarryAt(H, m, j) && CarryAt(H, m, j + 1);
    }
  }

  lemma SamePosition(n: nat, k: nat, i: nat, c: nat, a: nat)
    requires i < n && a < n
    ensures n * k + (n - 1 - i) == n * c + (n - 1 - a) <==> k == c && i == a
  {
    if k < c { MulOrder(n, k, c); }
    if c < k { MulOrder(n, c, k); }
  }

  /** After the "Gray decode" phase, consecutive Hilbert integers differ in one bit of one axis. */
  lemma GrayPhaseOneBit(n: nat, b: nat, H: nat) returns (a: nat, c: nat)
    requires n >= 1 && H + 1 < Vol(n, b)
    ensures a < n && c < b
    ensures var D, E := GrayDecode(Unpack(n, b, H)), GrayDecode(Unpack(n, b, H + 1));
      forall i, k: nat :: 0 <= i < n ==> ((Bit(D[i], k) != Bit(E[i], k)) <==> i == a && k == c)
  {
    hide Pack, Bit, GrayDecode, Gray, Unpack;
    var X, Y := Unpack(n, b, H), Unpack(n, b, H + 1);
    var D, E := GrayDecode(X), GrayDecode(Y);
    UnpackRange(n, b, H);
    UnpackRange(n, b, H + 1);
    PackUnpack(n, b, H);
    PackUnpack(n, b, H + 1);
    GrayPhase(X, b);
    GrayPhase(Y, b);
    GrayKeepsRange(X, b, b);
    GrayKeepsRange(Y, b, b);
    var m := GrayOneBit(H);
    if m >= n * b {
      PackBitBeyond(D, b, m);
      PackBitBeyond(E, b, m);
    }
    c, a := PackBitAt(D, b, m);
    forall i, k: nat | 0 <= i < n
      ensures (Bit(D[i], k) != Bit(E[i], k)) <==> i == a && k == c
    {
      if k < b {
        PackBit(D, b, k, i);
        PackBit(E, b, k, i);
        SamePosition(n, k, i, c, a);
      } else {
        HighBitClear(D[i], b, k);
        HighBitClear(E[i], b, k);
      }
    }
  }
}
