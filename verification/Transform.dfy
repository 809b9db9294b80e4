/** What the two in-place transforms compute, as functions on the sequence of words. */
module Transform {
  import opened Words

  /** One round of the inner loop for Q = 1 << k and axis i: axis i's bit k decides
      between inverting the low k bits of axis 0 and exchanging those of axes 0 and i.
      With i = 0 the exchange does nothing, which is the lone "invert" line. */
  function Step(X: seq<nat>, k: nat, i: nat): (Y: seq<nat>)
    requires i < |X|
    ensures |Y| == |X|
  {
    if Bit(X[i], k) then X[0 := FlipLow(X[0], k)]
    else X[0 := Splice(X[0], X[i], k)][i := Splice(X[i], X[0], k)]
  }

  /** Rounds i, i - 1, ..., 0. */
  function PassDown(X: seq<nat>, k: nat, i: nat): (Y: seq<nat>)
    requires i < |X|
    ensures |Y| == |X|
    decreases i
  {
    if i == 0 then Step(X, k, 0) else PassDown(Step(X, k, i), k, i - 1)
  }

  /** Rounds 0, 1, ..., i. */
  function PassUp(X: seq<nat>, k: nat, i: nat): (Y: seq<nat>)
    requires i < |X|
    ensures |Y| == |X|
  {
    if i == 0 then Step(X, k, 0) else Step(PassUp(X, k, i - 1), k, i)
  }

  /** "Undo excess work": passes Q = 2, 4, ..., 1 << (b-1). The pass for Q = 1 changes nothing. */
  function Undo(X: seq<nat>, b: nat): (Y: seq<nat>)
    requires X != []
    ensures |Y| == |X|
  {
    if b == 0 then X else PassDown(Undo(X, b - 1), b - 1, |X| - 1)
  }

  /** "Inverse undo": passes Q = 1 << (b-1), ..., 4, 2. */
  function Redo(X: seq<nat>, b: nat): (Y: seq<nat>)
    requires X != []
    ensures |Y| == |X|
    decreases b
  {
    if b == 0 then X else Redo(PassUp(X, b - 1, |X| - 1), b - 1)
  }

  /** Axis i after the "Gray decode" phase. */
  function DecodedWord(X: seq<nat>, i: nat): nat
    requires i < |X|
  {
    if i == 0 then Xor(X[0], Shr(X[|X| - 1], 1)) else Xor(X[i], X[i - 1])
  }

  /** "Gray decode by H ^ (H/2)". */
  function GrayDecode(X: seq<nat>): (Y: seq<nat>)
    requires X != []
    ensures |Y| == |X|
  {
    seq(|X|, i requires 0 <= i < |X| => DecodedWord(X, i))
  }

  /** X[0] ^ ... ^ X[i]. */
  function XorUpTo(X: seq<nat>, i: nat): nat
    requires i < |X|
  {
    if i == 0 then X[0] else Xor(X[i], XorUpTo(X, i - 1))
  }

  /** The doubling loop x ^= x >> s for s, 2s, 4s, ... while below b. */
  function Fold(x: nat, s: nat, b: nat): nat
    requires s >= 1
    decreases b - s
  {
    if s >= b then x else Fold(Xor(x, Shr(x, s)), 2 * s, b)
  }

  /** Axis i after the "Gray encode" phase: the last axis is folded, and every other one
      takes in the change that this made. */
  function EncodedWord(X: seq<nat>, b: nat, i: nat): nat
    requires i < |X|
  {
    var x := XorUpTo(X, |X| - 1);
    var y := Fold(x, 1, b);
    if i == |X| - 1 then y else Xor(XorUpTo(X, i), Xor(x, y))
  }

  /** "Gray encode (inverse of decode)". */
  function GrayEncode(X: seq<nat>, b: nat): (Y: seq<nat>)
    requires X != []
    ensures |Y| == |X|
  {
    seq(|X|, i requires 0 <= i < |X| => EncodedWord(X, b, i))
  }

  function AxesOf(X: seq<nat>, b: nat): (Y: seq<nat>)
    requires X != []
    ensures |Y| == |X|
  {
    Undo(GrayDecode(X), b)
  }

  function TransposeOf(X: seq<nat>, b: nat): (Y: seq<nat>)
    requires X != []
    ensures |Y| == |X|
  {
    GrayEncode(Redo(X, b), b)
  }

  ghost predicate InRange(X: seq<nat>, w: nat) {
    forall i :: 0 <= i < |X| ==> X[i] < Pow2(w)
  }

  // ---- the pass for Q = 1 does nothing --------------------------------------------

  lemma {:induction false} PassZero(X: seq<nat>, i: nat)
    requires i < |X|
    ensures PassDown(X, 0, i) == X == PassUp(X, 0, i)
  {
    assert Step(X, 0, i) == X;
    if i > 0 { PassZero(X, i - 1); }
  }

  // ---- every pass is undone by the opposite pass ------------------------------------

  /** A round for Q = 1 << k leaves the bits from k on of every word as they were. */
  lemma StepKeepsHighBits(X: seq<nat>, k: nat, i: nat, j: nat, m: nat)
    requires i < |X| && j < |X| && m >= k
    ensures Bit(Step(X, k, i)[j], m) == Bit(X[j], m)
  {
    FlipLowBit(X[0], k, m);
    SpliceBit(X[0], X[i], k, m);
    SpliceBit(X[i], X[0], k, m);
  }

  lemma StepTwice(X: seq<nat>, k: nat, i: nat)
    requires i < |X|
    ensures Step(Step(X, k, i), k, i) == X
  {
    StepKeepsHighBits(X, k, i, i, k);
    FlipLowTwice(X[0], k);
    SpliceTwice(X[0], X[i], k);
    SpliceTwice(X[i], X[0], k);
  }

  lemma {:induction false} PassesInverse(X: seq<nat>, k: nat, i: nat)
    requires i < |X|
    ensures PassDown(PassUp(X, k, i), k, i) == X
    ensures PassUp(PassDown(X, k, i), k, i) == X
    decreases i
  {
    hide Step;
    if i == 0 {
      StepTwice(X, k, 0);
    } else {
      StepTwice(PassUp(X, k, i - 1), k, i);
      PassesInverse(X, k, i - 1);
      PassesInverse(Step(X, k, i), k, i - 1);
      StepTwice(X, k, i);
    }
  }

  lemma {:induction false} PassKeepsHighBits(X: seq<nat>, k: nat, i: nat, j: nat, m: nat)
    requires i < |X| && j < |X| && m >= k
    ensures Bit(PassDown(X, k, i)[j], m) == Bit(X[j], m) == Bit(PassUp(X, k, i)[j], m)
    decreases i
  {
    StepKeepsHighBits(X, k, i, j, m);
    if i > 0 {
      PassKeepsHighBits(X, k, i - 1, j, m);
      PassKeepsHighBits(Step(X, k, i), k, i - 1, j, m);
      StepKeepsHighBits(PassUp(X, k, i - 1), k, i, j, m);
    }
  }

  lemma {:induction false} UndoRedo(X: seq<nat>, b: nat)
    requires X != []
    ensures Undo(Redo(X, b), b) == X
    ensures Redo(Undo(X, b), b) == X
    decreases b
  {
    hide PassUp, PassDown;
    if b > 0 {
      UndoRedo(PassUp(X, b - 1, |X| - 1), b - 1);
      PassesInverse(X, b - 1, |X| - 1);
      PassesInverse(Undo(X, b - 1), b - 1, |X| - 1);
      UndoRedo(X, b - 1);
    }
  }

  /** The passes below Q = 1 << b leave the bits from b - 1 on of every word as they were. */
  lemma {:induction false} PassesKeepHighBits(X: seq<nat>, b: nat, j: nat, m: nat)
    requires j < |X| && m + 1 >= b
    ensures Bit(Undo(X, b)[j], m) == Bit(X[j], m) == Bit(Redo(X, b)[j], m)
    decreases b
  {
    hide Bit, PassUp, PassDown;
    if b > 0 {
      PassesKeepHighBits(X, b - 1, j, m);
      PassesKeepHighBits(PassUp(X, b - 1, |X| - 1), b - 1, j, m);
      PassKeepsHighBits(Undo(X, b - 1), b - 1, |X| - 1, j, m);
      PassKeepsHighBits(X, b - 1, |X| - 1, j, m);
    }
  }

  // ---- the log-step loop computes a windowed parity ----------------------------------

  /** Exclusive or of bits j, ..., j + w - 1 of x. */
  predicate Parity(x: nat, j: nat, w: nat) {
    w > 0 && (Bit(x, j + w - 1) != Parity(x, j, w - 1))
  }

  /** The shift at which the doubling loop stops: the first of s, 2s, 4s, ... not below b. */
  function Window(s: nat, b: nat): (w: nat)
    requires s >= 1
    ensures w >= b && w >= s
    decreases b - s
  {
    if s >= b then s else Window(2 * s, b)
  }

  /** The doubling loop stops at the first power of two, from 2^a on, that is not below b. */
  lemma {:induction false} WindowIsPower(a: nat, b: nat) returns (e: nat)
    ensures e >= a && Window(Pow2(a), b) == Pow2(e) >= b
    ensures e > a ==> Pow2(e - 1) < b
    decreases b - Pow2(a)
  {
    e := a;
    if Pow2(a) < b { e := WindowIsPower(a + 1, b); }
  }

  lemma {:induction false} ParitySplit(x: nat, j: nat, v: nat, w: nat)
    ensures Parity(x, j, v + w) == (Parity(x, j, v) != Parity(x, j + v, w))
  {
    if w > 0 { ParitySplit(x, j, v, w - 1); }
  }

  lemma {:induction false} FoldInvariant(x: nat, y: nat, s: nat, b: nat, j: nat)
    requires s >= 1
    requires forall k: nat :: Bit(y, k) == Parity(x, k, s)
    ensures Bit(Fold(y, s, b), j) == Parity(x, j, Window(s, b))
    decreases b - s
  {
    if s < b {
      var z := Xor(y, Shr(y, s));
      forall k: nat ensures Bit(z, k) == Parity(x, k, 2 * s) {
        XorBit(y, Shr(y, s), k);
        ShrBit(y, s, k);
        ParitySplit(x, k, s, s);
      }
      FoldInvariant(x, z, 2 * s, b, j);
    }
  }

  /** Bit j of the folded word is the parity of the bits of x from j on, as far as the window reaches. */
  lemma FoldBit(x: nat, b: nat, j: nat)
    ensures Bit(Fold(x, 1, b), j) == Parity(x, j, Window(1, b))
  {
    forall k: nat ensures Bit(x, k) == Parity(x, k, 1) {
      assert !Parity(x, k, 0);
    }
    FoldInvariant(x, x, 1, b, j);
  }

  /** Where no bits lie beyond the window, the loop inverts x -> x ^ (x >> 1), and only there. */
  lemma FoldInvertsGray(x: nat, b: nat)
    ensures var y := Fold(x, 1, b);
      Xor(x, y) == Shr(y, 1) <==> Shr(x, Window(1, b)) == 0
  {
    var w := Window(1, b);
    var y := Fold(x, 1, b);
    forall j: nat
      ensures (Bit(Xor(x, y), j) != Bit(Shr(y, 1), j)) == Bit(Shr(x, w), j)
    {
      XorBit(x, y, j);
      ShrBit(y, 1, j);
      FoldBit(x, b, j);
      FoldBit(x, b, j + 1);
      ParitySplit(x, j, 1, w);
      assert Parity(x, j, 1) == Bit(x, j) by { assert !Parity(x, j, 0); }
      assert Parity(x, j, w + 1) == (Bit(x, j + w) != Parity(x, j, w));
      ShrBit(x, w, j);
    }
    if Xor(x, y) == Shr(y, 1) {
      forall j: nat ensures Bit(Shr(x, w), j) == Bit(0, j) { ZeroBit(j); }
      SameBits(Shr(x, w), 0);
    }
    if Shr(x, w) == 0 {
      forall j: nat ensures Bit(Xor(x, y), j) == Bit(Shr(y, 1), j) { ZeroBit(j); }
      SameBits(Xor(x, y), Shr(y, 1));
    }
  }

  lemma {:induction false} ParityOfGray(y: nat, j: nat, w: nat)
    ensures Parity(Xor(y, Shr(y, 1)), j, w) == (Bit(y, j) != Bit(y, j + w))
  {
    if w > 0 {
      ParityOfGray(y, j, w - 1);
      XorBit(y, Shr(y, 1), j + w - 1);
      ShrBit(y, 1, j + w - 1);
    }
  }

  lemma FoldOfGray(y: nat, b: nat)
    ensures Fold(Xor(y, Shr(y, 1)), 1, b) == y <==> Shr(y, Window(1, b)) == 0
  {
    var w := Window(1, b);
    var z := Fold(Xor(y, Shr(y, 1)), 1, b);
    forall j: nat ensures (Bit(z, j) != Bit(y, j)) == Bit(Shr(y, w), j) {
      FoldBit(Xor(y, Shr(y, 1)), b, j);
      ParityOfGray(y, j, w);
      ShrBit(y, w, j);
    }
    if z == y {
      forall j: nat ensures Bit(Shr(y, w), j) == Bit(0, j) { ZeroBit(j); }
      SameBits(Shr(y, w), 0);
    }
    if Shr(y, w) == 0 {
      forall j: nat ensures Bit(z, j) == Bit(y, j) { ZeroBit(j); }
      SameBits(z, y);
    }
  }

  // ---- the Gray phases invert each other exactly within the window ---------------------

  lemma XorSwap(u: nat, v: nat, t: nat)
    ensures Xor(Xor(u, t), Xor(v, t)) == Xor(u, v)
  {
    forall j: nat ensures Bit(Xor(Xor(u, t), Xor(v, t)), j) == Bit(Xor(u, v), j) {
      XorBit(Xor(u, t), Xor(v, t), j);
      XorBit(u, t, j);
      XorBit(v, t, j);
      XorBit(u, v, j);
    }
    SameBits(Xor(Xor(u, t), Xor(v, t)), Xor(u, v));
  }

  /** Gray encoding leaves every axis but the first decodable. */
  lemma DecodeEncodeTail(X: seq<nat>, b: nat, i: nat)
    requires 0 < i < |X|
    ensures GrayDecode(GrayEncode(X, b))[i] == X[i]
  {
    hide Fold, Xor;
    var E := GrayEncode(X, b);
    var x, u, v := XorUpTo(X, |X| - 1), XorUpTo(X, i - 1), XorUpTo(X, i);
    var y := Fold(x, 1, b);
    var t := Xor(x, y);
    assert E[i] == Xor(v, t) by { if i == |X| - 1 { XorCancels(y, x); } }
    var e0, e1 := E[i - 1], E[i];
    assert GrayDecode(E)[i] == Xor(e1, e0);
    assert e0 == Xor(u, t);
    assert Xor(v, u) == X[i] by { XorCancels(X[i], u); }
    assert Xor(e1, e0) == X[i] by { XorSwap(v, u, t); }
  }

  lemma DecodeEncodeHead(X: seq<nat>, b: nat)
    requires X != []
    ensures GrayDecode(GrayEncode(X, b))[0] == X[0] <==> Shr(XorUpTo(X, |X| - 1), Window(1, b)) == 0
  {
    var n := |X|;
    var x := XorUpTo(X, n - 1);
    var y := Fold(x, 1, b);
    var t := Xor(x, y);
    FoldInvertsGray(x, b);
    // the new X[0] is X[0] ^ t ^ (y >> 1)
    assert GrayEncode(X, b)[0] == Xor(X[0], t) by {
      if n == 1 { XorCancels(y, x); }
    }
    XorCancels(X[0], t);
    if Xor(Xor(X[0], t), Shr(y, 1)) == X[0] {
      XorCancels(Shr(y, 1), Xor(X[0], t));
      XorCancels(t, X[0]);
      assert Xor(Xor(X[0], t), X[0]) == Shr(y, 1);
      XorCommutes(Xor(X[0], t), X[0]);
    }
  }

  lemma DecodeEncode(X: seq<nat>, b: nat)
    requires X != []
    ensures GrayDecode(GrayEncode(X, b)) == X <==> Shr(XorUpTo(X, |X| - 1), Window(1, b)) == 0
  {
    DecodeEncodeHead(X, b);
    forall i | 0 < i < |X| ensures GrayDecode(GrayEncode(X, b))[i] == X[i] { DecodeEncodeTail(X, b, i); }
  }

  lemma {:induction false} XorUpToDecoded(X: seq<nat>, i: nat)
    requires i < |X|
    ensures XorUpTo(GrayDecode(X), i) == Xor(X[i], Shr(X[|X| - 1], 1))
  {
    if i > 0 {
      XorUpToDecoded(X, i - 1);
      var t := Shr(X[|X| - 1], 1);
      forall j: nat ensures Bit(Xor(Xor(X[i], X[i - 1]), Xor(X[i - 1], t)), j) == Bit(Xor(X[i], t), j) {
        XorBit(Xor(X[i], X[i - 1]), Xor(X[i - 1], t), j);
        XorBit(X[i], X[i - 1], j);
        XorBit(X[i - 1], t, j);
        XorBit(X[i], t, j);
      }
      SameBits(Xor(Xor(X[i], X[i - 1]), Xor(X[i - 1], t)), Xor(X[i], t));
    }
  }

  lemma EncodeDecodeAt(X: seq<nat>, b: nat, i: nat)
    requires i < |X|
    requires var y := X[|X| - 1]; var t := Shr(y, 1);
      Fold(Xor(y, t), 1, b) == y && Xor(Xor(y, t), y) == t
    ensures GrayEncode(GrayDecode(X), b)[i] == X[i]
  {
    hide Fold, Shr, XorUpTo, Xor;
    var D, y := GrayDecode(X), X[|X| - 1];
    var t := Shr(y, 1);
    XorUpToDecoded(X, |X| - 1);
    XorUpToDecoded(X, i);
    XorCancels(X[i], t);
    var x := XorUpTo(D, |D| - 1);
    assert x == Xor(y, t);
    assert GrayEncode(D, b)[i] == if i == |X| - 1 then y else Xor(Xor(X[i], t), t);
  }

  lemma EncodeDecode(X: seq<nat>, b: nat)
    requires X != []
    ensures GrayEncode(GrayDecode(X), b) == X <==> Shr(X[|X| - 1], Window(1, b)) == 0
  {
    var n, D := |X|, GrayDecode(X);
    var y := X[n - 1];
    var t := Shr(y, 1);
    XorUpToDecoded(X, n - 1);
    FoldOfGray(y, b);
    if Shr(y, Window(1, b)) == 0 {
      assert Xor(Xor(y, t), y) == t by {
        XorCommutes(y, t);
        XorCancels(t, y);
      }
      forall i | 0 <= i < n ensures GrayEncode(D, b)[i] == X[i] { EncodeDecodeAt(X, b, i); }
    } else {
      var x := XorUpTo(D, n - 1);
      assert x == Xor(y, t);
      assert GrayEncode(D, b)[n - 1] == Fold(x, 1, b);
    }
  }

  // ---- the round trips -------------------------------------------------------------------

  lemma {:induction false} XorUpToHighBits(X: seq<nat>, Y: seq<nat>, i: nat, m: nat)
    requires i < |X| == |Y|
    requires forall j :: 0 <= j < |X| ==> Bit(X[j], m) == Bit(Y[j], m)
    ensures Bit(XorUpTo(X, i), m) == Bit(XorUpTo(Y, i), m)
  {
    if i > 0 {
      XorUpToHighBits(X, Y, i - 1, m);
      XorBit(X[i], XorUpTo(X, i - 1), m);
      XorBit(Y[i], XorUpTo(Y, i - 1), m);
    }
  }

  lemma WindowUntouched(X: seq<nat>, b: nat)
    requires X != []
    ensures Shr(XorUpTo(Redo(X, b), |X| - 1), Window(1, b)) == Shr(XorUpTo(X, |X| - 1), Window(1, b))
  {
    hide Bit, Shr, XorUpTo, Window, Redo;
    var w, R := Window(1, b), Redo(X, b);
    var x, r := XorUpTo(X, |X| - 1), XorUpTo(R, |X| - 1);
    forall m: nat ensures Bit(Shr(r, w), m) == Bit(Shr(x, w), m) {
      ShrBit(r, w, m);
      ShrBit(x, w, m);
      forall j | 0 <= j < |X| ensures Bit(R[j], w + m) == Bit(X[j], w + m) {
        PassesKeepHighBits(X, b, j, w + m);
      }
      XorUpToHighBits(R, X, |X| - 1, w + m);
    }
    SameBits(Shr(r, w), Shr(x, w));
  }

  lemma UndoRestores(X: seq<nat>, D: seq<nat>, b: nat)
    requires X != [] && |D| == |X|
    ensures Undo(D, b) == X <==> D == Redo(X, b)
  {
    UndoRedo(X, b);
    UndoRedo(D, b);
  }

  /** TransposetoAxes after AxestoTranspose restores the words exactly when the exclusive or
      of all of them has no bits beyond the window of the log-step loop. */
  lemma AxesRoundTrip(X: seq<nat>, b: nat)
    requires X != []
    ensures AxesOf(TransposeOf(X, b), b) == X <==> Shr(XorUpTo(X, |X| - 1), Window(1, b)) == 0
  {
    hide Shr, XorUpTo, Window, Undo, Redo, GrayDecode, GrayEncode;
    var R := Redo(X, b);
    var T := TransposeOf(X, b);
    assert T == GrayEncode(R, b);
    DecodeEncode(R, b);
    WindowUntouched(X, b);
    UndoRestores(X, GrayDecode(T), b);
    assert AxesOf(T, b) == Undo(GrayDecode(T), b);
  }

  /** AxestoTranspose after TransposetoAxes restores the words exactly when the last one has
      no bits beyond that window. */
  lemma TransposeRoundTrip(X: seq<nat>, b: nat)
    requires X != []
    ensures TransposeOf(AxesOf(X, b), b) == X <==> Shr(X[|X| - 1], Window(1, b)) == 0
  {
    UndoRedo(GrayDecode(X), b);
    EncodeDecode(X, b);
  }

  // ---- ranges ----------------------------------------------------------------------------

  ghost predicate NoBit(X: seq<nat>, m: nat) {
    forall j :: 0 <= j < |X| ==> !Bit(X[j], m)
  }

  lemma RangeIsNoBits(X: seq<nat>, w: nat)
    ensures InRange(X, w) ==> forall m: nat :: m >= w ==> NoBit(X, m)
    ensures (forall m: nat :: m >= w ==> NoBit(X, m)) ==> InRange(X, w)
  {
    if InRange(X, w) {
      forall m: nat, j | m >= w && 0 <= j < |X| ensures !Bit(X[j], m) { HighBitClear(X[j], w, m); }
    }
    if forall m: nat :: m >= w ==> NoBit(X, m) {
      forall j | 0 <= j < |X| ensures X[j] < Pow2(w) {
        forall m: nat | m >= w ensures !Bit(X[j], m) { assert NoBit(X, m); }
        InRangeByBits(X[j], w);
      }
    }
  }

  lemma {:induction false} XorUpToNoBit(X: seq<nat>, i: nat, m: nat)
    requires i < |X| && NoBit(X, m)
    ensures !Bit(XorUpTo(X, i), m)
  {
    if i > 0 {
      XorUpToNoBit(X, i - 1, m);
      XorBit(X[i], XorUpTo(X, i - 1), m);
    }
  }

  lemma {:induction false} ParityNone(x: nat, j: nat, w: nat)
    requires forall m: nat :: m >= j ==> !Bit(x, m)
    ensures !Parity(x, j, w)
  {
    if w > 0 { ParityNone(x, j, w - 1); }
  }

  lemma GrayKeepsRange(X: seq<nat>, b: nat, w: nat)
    requires X != [] && InRange(X, w)
    ensures InRange(GrayDecode(X), w) && InRange(GrayEncode(X, b), w)
  {
    var n, D, E := |X|, GrayDecode(X), GrayEncode(X, b);
    var x := XorUpTo(X, n - 1);
    var y := Fold(x, 1, b);
    RangeIsNoBits(X, w);
    forall m: nat | m >= w ensures !Bit(x, m) { XorUpToNoBit(X, n - 1, m); }
    forall m: nat | m >= w ensures NoBit(D, m) && NoBit(E, m) {
      assert NoBit(X, m) && NoBit(X, m + 1);
      ParityNone(x, m, Window(1, b));
      FoldBit(x, b, m);
      XorBit(x, y, m);
      ShrBit(X[n - 1], 1, m);
      XorBit(X[0], Shr(X[n - 1], 1), m);
      forall j | 0 <= j < n ensures !Bit(D[j], m) && !Bit(E[j], m) {
        if j > 0 { XorBit(X[j], X[j - 1], m); }
        XorUpToNoBit(X, j, m);
        XorBit(XorUpTo(X, j), Xor(x, y), m);
      }
    }
    RangeIsNoBits(D, w);
    RangeIsNoBits(E, w);
  }

  lemma PassesKeepRange(X: seq<nat>, b: nat, w: nat)
    requires X != [] && InRange(X, w) && b <= w + 1
    ensures InRange(Undo(X, b), w) && InRange(Redo(X, b), w)
  {
    RangeIsNoBits(X, w);
    forall m: nat | m >= w ensures NoBit(Undo(X, b), m) && NoBit(Redo(X, b), m) {
      assert NoBit(X, m);
      forall j | 0 <= j < |X| ensures !Bit(Undo(X, b)[j], m) && !Bit(Redo(X, b)[j], m) {
        PassesKeepHighBits(X, b, j, m);
      }
    }
    RangeIsNoBits(Undo(X, b), w);
    RangeIsNoBits(Redo(X, b), w);
  }

  /** w-bit words stay w-bit words, so nothing is lost in a machine word of w >= b bits. */
  lemma TransformsKeepRange(X: seq<nat>, b: nat, w: nat)
    requires X != [] && InRange(X, w) && b <= w + 1
    ensures InRange(AxesOf(X, b), w) && InRange(TransposeOf(X, b), w)
  {
    GrayKeepsRange(X, b, w);
    PassesKeepRange(GrayDecode(X), b, w);
    PassesKeepRange(X, b, w);
    GrayKeepsRange(Redo(X, b), b, w);
  }

  /** On b-bit coordinates the two transforms are two-sided inverses. */
  lemma TransformsInverse(X: seq<nat>, b: nat)
    requires X != [] && InRange(X, b)
    ensures AxesOf(TransposeOf(X, b), b) == X
    ensures TransposeOf(AxesOf(X, b), b) == X
  {
    var x, w := XorUpTo(X, |X| - 1), Window(1, b);
    RangeIsNoBits(X, b);
    forall m: nat | m >= b ensures !Bit(x, m) { XorUpToNoBit(X, |X| - 1, m); }
    InRangeByBits(x, b);
    Pow2Monotone(b, w);
    RangeByShift(x, w);
    RangeByShift(X[|X| - 1], w);
    AxesRoundTrip(X, b);
    TransposeRoundTrip(X, b);
  }

  lemma FirstOnly(x: nat)
    ensures XorUpTo([x, 0, 0], 2) == x
  {
    hide Xor;
    XorZero(x);
    assert XorUpTo([x, 0, 0], 1) == Xor(0, XorUpTo([x, 0, 0], 0));
  }

  /** With 5 bits and 3 axes: 256 lies beyond the window of 8 bits and is not restored, in either
      direction; 32 is out of range too, but inside the window, and is restored. */
  lemma OutsideTheWindow()
    ensures AxesOf(TransposeOf([256, 0, 0], 5), 5) != [256, 0, 0]
    ensures TransposeOf(AxesOf([0, 0, 256], 5), 5) != [0, 0, 256]
    ensures AxesOf(TransposeOf([32, 0, 0], 5), 5) == [32, 0, 0]
  {
    hide AxesOf, TransposeOf, Xor, Shr;
    assert Window(1, 5) == Window(2, 5) == Window(4, 5) == Window(8, 5) == 8;
    assert Pow2(8) == 4 * Pow2(6) == 16 * Pow2(4) == 64 * Pow2(2) == 256 * Pow2(0) == 256;
    FirstOnly(256);
    FirstOnly(32);
    RangeByShift(256, 8);
    RangeByShift(32, 8);
    AxesRoundTrip([256, 0, 0], 5);
    AxesRoundTrip([32, 0, 0], 5);
    TransposeRoundTrip([0, 0, 256], 5);
  }
}
