/** The two transforms of skilling.c, updating the array of axis words in place. Each phase
    of a transform is a method of its own. */
module Skilling {
  import opened Words
  import opened Transform

  /** "invert" for axis 0 and Q = 1 << k. */
  method Invert(X: array<nat>, n: nat, Q: nat, ghost k: nat)
    requires 0 < n <= X.Length && Q == Pow2(k)
    modifies X
    ensures X[..n] == Step(old(X[..n]), k, 0)
    ensures X[n..] == old(X[n..])
  {
    MaskTest(X[0], k);
    InvertIsFlipLow(X[0], k);
    SpliceTwice(X[0], X[0], k);
    if And(X[0], Q) != 0 {
      X[0] := Xor(X[0], Q - 1);
    }
  }

  /** "invert" or "exchange" for axis i > 0 and Q = 1 << k. */
  method InvertOrExchange(X: array<nat>, n: nat, i: nat, Q: nat, ghost k: nat)
    requires 0 < i < n <= X.Length && Q == Pow2(k)
    modifies X
    ensures X[..n] == Step(old(X[..n]), k, i)
    ensures X[n..] == old(X[n..])
  {
    var P := Q - 1;
    MaskTest(X[i], k);
    if And(X[i], Q) != 0 {
      InvertIsFlipLow(X[0], k);
      X[0] := Xor(X[0], P);
    } else {
      ExchangeIsSplice(X[0], X[i], k);
      ExchangeIsSplice(X[i], X[0], k);
      XorCommutes(X[0], X[i]);
      var t := And(Xor(X[0], X[i]), P);
      X[0] := Xor(X[0], t);
      X[i] := Xor(X[i], t);
    }
  }

  /** Every axis but the first takes in the axis before it. */
  method XorDownwards(X: array<nat>, n: nat)
    requires 1 <= n <= X.Length
    modifies X
    ensures X[0] == old(X[0])
    ensures forall j :: 0 < j < n ==> X[j] == DecodedWord(old(X[..n]), j)
    ensures X[n..] == old(X[n..])
  {
    ghost var X0 := X[..n];
    var i := n - 1;
    while i != 0
      invariant 0 <= i < n
      invariant forall j :: 0 <= j <= i ==> X[j] == X0[j]
      invariant forall j :: i < j < n ==> X[j] == DecodedWord(X0, j)
      invariant X[n..] == old(X[n..])
    {
      X[i] := Xor(X[i], X[i - 1]);
      i := i - 1;
    }
  }

  /** "Gray decode by H ^ (H/2)". */
  method GrayDecodePhase(X: array<nat>, n: nat)
    requires 1 <= n <= X.Length
    modifies X
    ensures X[..n] == GrayDecode(old(X[..n]))
    ensures X[n..] == old(X[n..])
  {
    hide Xor, Shr;
    ghost var X0 := X[..n];
    var t := Shr(X[n - 1], 1);
    XorDownwards(X, n);
    X[0] := Xor(X[0], t);
    assert forall j :: 0 <= j < n ==> X[j] == DecodedWord(X0, j);
    assert X[..n] == GrayDecode(X0);
  }

  /** One pass of "undo excess work". */
  method UndoPass(X: array<nat>, n: nat, Q: nat, ghost k: nat)
    requires 1 <= n <= X.Length && Q == Pow2(k)
    modifies X
    ensures X[..n] == PassDown(old(X[..n]), k, n - 1)
    ensures X[n..] == old(X[n..])
  {
    var i := n - 1;
    while i != 0
      invariant 0 <= i < n
      invariant PassDown(X[..n], k, i) == PassDown(old(X[..n]), k, n - 1)
      invariant X[n..] == old(X[n..])
    {
      InvertOrExchange(X, n, i, Q, k);
      i := i - 1;
    }
    Invert(X, n, Q, k);
  }

  /** Hilbert transpose to axis coordinates. */
  method TransposeToAxes(X: array<nat>, b: nat, n: nat)
    requires 1 <= b && 1 <= n <= X.Length
    modifies X
    ensures X[..n] == AxesOf(old(X[..n]), b)
    ensures X[n..] == old(X[n..])
  {
    hide PassDown, GrayDecode;
    GrayDecodePhase(X, n);
    ghost var G := X[..n];
    var M := 2 * Pow2(b - 1);
    var Q := 2;
    ghost var k := 1;
    assert Undo(G, k) == G by { PassZero(G, n - 1); }
    while Q != M
      invariant 1 <= k <= b && Q == Pow2(k)
      invariant X[..n] == Undo(G, k)
      invariant X[n..] == old(X[n..])
      decreases b - k
    {
      UndoPass(X, n, Q, k);
      Q := 2 * Q;
      k := k + 1;
    }
    assert k == b by { if k < b { Pow2Monotone(k + 1, b); } }
  }

  /** One pass of "inverse undo". */
  method RedoPass(X: array<nat>, n: nat, Q: nat, ghost k: nat)
    requires 1 <= n <= X.Length && Q == Pow2(k)
    modifies X
    ensures X[..n] == PassUp(old(X[..n]), k, n - 1)
    ensures X[n..] == old(X[n..])
  {
    Invert(X, n, Q, k);
    var i := 1;
    while i < n
      invariant 1 <= i <= n
      invariant X[..n] == PassUp(old(X[..n]), k, i - 1)
      invariant X[n..] == old(X[n..])
    {
      InvertOrExchange(X, n, i, Q, k);
      i := i + 1;
    }
  }

  /** The doubling loop: shifts the last axis onto itself by 1, 2, 4, ... while below b. */
  method FoldLastAxis(X: array<nat>, b: nat, n: nat)
    requires 1 <= n <= X.Length
    modifies X
    ensures X[..n] == old(X[..n])[n - 1 := Fold(old(X[n - 1]), 1, b)]
    ensures X[n..] == old(X[n..])
  {
    ghost var x := X[n - 1];
    var i := 1;
    while i < b
      invariant 1 <= i
      invariant Fold(X[n - 1], i, b) == Fold(x, 1, b)
      invariant X[..n - 1] == old(X[..n - 1])
      invariant X[n..] == old(X[n..])
      decreases b - i
    {
      X[n - 1] := Xor(X[n - 1], Shr(X[n - 1], i));
      i := 2 * i;
    }
    assert forall j :: 0 <= j < n - 1 ==> X[..n - 1][j] == X[j];
  }

  /** Every axis takes in, by exclusive or, the axes before it. */
  method XorUpwards(X: array<nat>, n: nat)
    requires 1 <= n <= X.Length
    modifies X
    ensures forall j :: 0 <= j < n ==> X[j] == XorUpTo(old(X[..n]), j)
    ensures X[n..] == old(X[n..])
  {
    ghost var R := X[..n];
    var i := 1;
    while i < n
      invariant 1 <= i <= n
      invariant forall j :: 0 <= j < i ==> X[j] == XorUpTo(R, j)
      invariant forall j :: i <= j < n ==> X[j] == R[j]
      invariant X[n..] == old(X[n..])
    {
      X[i] := Xor(X[i], X[i - 1]);
      i := i + 1;
    }
  }

  /** Every axis but the last takes in t. */
  method XorOntoOthers(X: array<nat>, n: nat, t: nat)
    requires 1 <= n <= X.Length
    modifies X
    ensures forall j :: 0 <= j < n - 1 ==> X[j] == Xor(old(X[j]), t)
    ensures X[n - 1..] == old(X[n - 1..])
  {
    var i: int := n - 2;
    while i >= 0
      invariant -1 <= i <= n - 2
      invariant forall j :: i < j < n - 1 ==> X[j] == Xor(old(X[j]), t)
      invariant forall j :: 0 <= j <= i ==> X[j] == old(X[j])
      invariant X[n - 1..] == old(X[n - 1..])
    {
      X[i] := Xor(X[i], t);
      i := i - 1;
    }
  }

  /** "Gray encode (inverse of decode)". */
  method GrayEncodePhase(X: array<nat>, b: nat, n: nat)
    requires 1 <= n <= X.Length
    modifies X
    ensures X[..n] == GrayEncode(old(X[..n]), b)
    ensures X[n..] == old(X[n..])
  {
    ghost var R := X[..n];
    XorUpwards(X, n);
    var t := X[n - 1];
    ghost var Y := X[..n];
    FoldLastAxis(X, b, n);
    t := Xor(t, X[n - 1]);
    ghost var Z := X[n - 1..];
    assert X[..n - 1] == Y[..n - 1];
    assert forall j :: 0 <= j < n - 1 ==> X[j] == X[..n - 1][j] == XorUpTo(R, j);
    XorOntoOthers(X, n, t);
    assert X[n - 1] == Z[0] && X[n..] == Z[1..];
    assert forall j :: 0 <= j < n ==> X[j] == EncodedWord(R, b, j);
    assert X[..n] == GrayEncode(R, b);
  }

  /** Axis coordinates to Hilbert transpose. */
  method AxesToTranspose(X: array<nat>, b: nat, n: nat)
    requires 1 <= b && 1 <= n <= X.Length
    modifies X
    ensures X[..n] == TransposeOf(old(X[..n]), b)
    ensures X[n..] == old(X[n..])
  {
    hide PassUp, GrayEncode;
    var Q := Pow2(b - 1);
    ghost var k := b - 1;
    while Q > 1
      invariant 0 <= k < b && Q == Pow2(k)
      invariant Redo(X[..n], k + 1) == Redo(old(X[..n]), b)
      invariant X[n..] == old(X[n..])
      decreases k
    {
      RedoPass(X, n, Q, k);
      Q := Q / 2;
      k := k - 1;
    }
    assert k == 0;
    PassZero(X[..n], n - 1);
    GrayEncodePhase(X, b, n);
  }

  /** The validation that main keeps disabled: transforming forth and back. */
  method RoundTrip(X: array<nat>, b: nat, n: nat)
    requires 1 <= b && 1 <= n <= X.Length
    modifies X
    ensures X[..n] == old(X[..n]) <==> Shr(XorUpTo(old(X[..n]), n - 1), Window(1, b)) == 0
    ensures InRange(old(X[..n]), b) ==> X[..n] == old(X[..n])
    ensures X[n..] == old(X[n..])
  {
    hide AxesOf, TransposeOf, XorUpTo, Window, Shr;
    ghost var X0 := X[..n];
    AxesToTranspose(X, b, n);
    TransposeToAxes(X, b, n);
    AxesRoundTrip(X0, b);
    if InRange(X0, b) { TransformsInverse(X0, b); }
  }
}
