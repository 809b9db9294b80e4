/** Unsigned words as natural numbers, read bit by bit: the operators that the
    transforms use (exclusive or, and, right shift) and the masked updates they build. */
module Words {

  /** 1 << k. */
  function Pow2(k: nat): (p: nat)
    ensures p >= 1
  {
    if k == 0 then 1 else 2 * Pow2(k - 1)
  }

  /** Bit k of x. */
  predicate Bit(x: nat, k: nat) {
    if k == 0 then x % 2 == 1 else Bit(x / 2, k - 1)
  }

  function Xor(x: nat, y: nat): nat
    decreases x + y
  {
    if x == 0 && y == 0 then 0 else (x % 2 + y % 2) % 2 + 2 * Xor(x / 2, y / 2)
  }

  function And(x: nat, y: nat): nat {
    if x == 0 then 0 else (x % 2) * (y % 2) + 2 * And(x / 2, y / 2)
  }

  /** x >> k. */
  function Shr(x: nat, k: nat): nat {
    if k == 0 then x else Shr(x / 2, k - 1)
  }

  /** The low k bits of x. */
  function Lo(x: nat, k: nat): nat {
    if k == 0 then 0 else x % 2 + 2 * Lo(x / 2, k - 1)
  }

  /** x with its low k bits complemented. */
  function FlipLow(x: nat, k: nat): nat {
    if k == 0 then x else 1 - x % 2 + 2 * FlipLow(x / 2, k - 1)
  }

  /** x with its low k bits replaced by those of y. */
  function Splice(x: nat, y: nat, k: nat): nat {
    if k == 0 then x else y % 2 + 2 * Splice(x / 2, y / 2, k - 1)
  }

  /** The k-bit word x with bit k put in front. */
  function Place(bit: bool, x: nat, k: nat): nat {
    (if bit then Pow2(k) else 0) + x
  }

  // ---- words are determined by their bits -------------------------------------

  lemma {:induction false} SameBits(x: nat, y: nat)
    requires forall k: nat :: Bit(x, k) == Bit(y, k)
    ensures x == y
    decreases x + y
  {
    assert Bit(x, 0) == Bit(y, 0);
    if x + y > 0 {
      forall k: nat ensures Bit(x / 2, k) == Bit(y / 2, k) {
        assert Bit(x, k + 1) == Bit(y, k + 1);
      }
      SameBits(x / 2, y / 2);
    }
  }

  lemma BitZero(x: nat)
    ensures Bit(x, 0) == (x % 2 == 1)
  {}

  lemma BitHalf(x: nat, k: nat)
    requires k > 0
    ensures Bit(x, k) == Bit(x / 2, k - 1)
  {}

  lemma {:induction false} ZeroBit(k: nat)
    ensures !Bit(0, k)
  {
    if k > 0 { ZeroBit(k - 1); }
  }

  lemma {:induction false} XorBit(x: nat, y: nat, k: nat)
    ensures Bit(Xor(x, y), k) == (Bit(x, k) != Bit(y, k))
  {
    if k > 0 { XorBit(x / 2, y / 2, k - 1); }
  }

  lemma {:induction false} AndBit(x: nat, y: nat, k: nat)
    ensures Bit(And(x, y), k) == (Bit(x, k) && Bit(y, k))
  {
    if x == 0 {
      ZeroBit(k);
    } else if k > 0 {
      assert And(x, y) / 2 == And(x / 2, y / 2);
      AndBit(x / 2, y / 2, k - 1);
    }
  }

  lemma {:induction false} ShrBit(x: nat, s: nat, k: nat)
    ensures Bit(Shr(x, s), k) == Bit(x, s + k)
  {
    if s > 0 { ShrBit(x / 2, s - 1, k); }
  }

  lemma {:induction false} LoBit(x: nat, m: nat, k: nat)
    ensures Bit(Lo(x, m), k) == (k < m && Bit(x, k))
  {
    if m == 0 { ZeroBit(k); } else if k > 0 { LoBit(x / 2, m - 1, k - 1); }
  }

  lemma {:induction false} FlipLowBit(x: nat, m: nat, k: nat)
    ensures Bit(FlipLow(x, m), k) == ((k < m) != Bit(x, k))
  {
    if m > 0 && k > 0 { FlipLowBit(x / 2, m - 1, k - 1); }
  }

  lemma {:induction false} SpliceBit(x: nat, y: nat, m: nat, k: nat)
    ensures Bit(Splice(x, y, m), k) == Bit(if k < m then y else x, k)
  {
    if m > 0 && k > 0 { SpliceBit(x / 2, y / 2, m - 1, k - 1); }
  }

  // ---- the masked updates of the C code ---------------------------------------

  lemma {:induction false} AndZero(x: nat)
    ensures And(x, 0) == 0
  {
    if x > 0 { AndZero(x / 2); }
  }

  /** Testing a word against the single-bit mask Q = 1 << k reads bit k. */
  lemma {:induction false} MaskTest(x: nat, k: nat)
    ensures And(x, Pow2(k)) != 0 <==> Bit(x, k)
  {
    if x == 0 {
      ZeroBit(k);
    } else if k > 0 {
      MaskTest(x / 2, k - 1);
    } else {
      AndZero(x / 2);
    }
  }

  lemma {:induction false} OnesBit(k: nat, j: nat)
    ensures Bit(Pow2(k) - 1, j) == (j < k)
  {
    if k == 0 {
      ZeroBit(j);
    } else {
      assert (Pow2(k) - 1) / 2 == Pow2(k - 1) - 1;
      if j > 0 { OnesBit(k - 1, j - 1); }
    }
  }

  /** X ^= P with P = (1 << k) - 1 complements the low k bits. */
  lemma InvertIsFlipLow(x: nat, k: nat)
    ensures Xor(x, Pow2(k) - 1) == FlipLow(x, k)
  {
    hide Bit, Xor, FlipLow, Pow2;
    var ones := Pow2(k) - 1;
    forall j: nat ensures Bit(Xor(x, ones), j) == Bit(FlipLow(x, k), j) {
      XorBit(x, ones, j);
      OnesBit(k, j);
      FlipLowBit(x, k, j);
    }
    SameBits(Xor(x, ones), FlipLow(x, k));
  }

  lemma {:induction false} XorZero(x: nat)
    ensures Xor(x, 0) == x == Xor(0, x)
  {
    if x > 0 { XorZero(x / 2); }
  }

  /** t = (x ^ y) & P; x ^= t copies the low k bits of y into x. */
  lemma {:induction false} ExchangeIsSplice(x: nat, y: nat, k: nat)
    ensures Xor(x, And(Xor(x, y), Pow2(k) - 1)) == Splice(x, y, k)
  {
    var t := And(Xor(x, y), Pow2(k) - 1);
    forall j: nat ensures Bit(Xor(x, t), j) == Bit(Splice(x, y, k), j) {
      XorBit(x, t, j);
      AndBit(Xor(x, y), Pow2(k) - 1, j);
      XorBit(x, y, j);
      OnesBit(k, j);
      SpliceBit(x, y, k, j);
    }
    SameBits(Xor(x, t), Splice(x, y, k));
  }

  lemma XorCommutes(x: nat, y: nat)
    ensures Xor(x, y) == Xor(y, x)
  {
    forall j: nat ensures Bit(Xor(x, y), j) == Bit(Xor(y, x), j) {
      XorBit(x, y, j);
      XorBit(y, x, j);
    }
    SameBits(Xor(x, y), Xor(y, x));
  }

  lemma XorCancels(x: nat, y: nat)
    ensures Xor(Xor(x, y), y) == x
    ensures Xor(y, Xor(y, x)) == x
  {
    forall j: nat
      ensures Bit(Xor(Xor(x, y), y), j) == Bit(x, j) && Bit(Xor(y, Xor(y, x)), j) == Bit(x, j)
    {
      XorBit(Xor(x, y), y, j);
      XorBit(x, y, j);
      XorBit(y, Xor(y, x), j);
      XorBit(y, x, j);
    }
    SameBits(Xor(Xor(x, y), y), x);
    SameBits(Xor(y, Xor(y, x)), x);
  }

  lemma FlipLowTwice(x: nat, k: nat)
    ensures FlipLow(FlipLow(x, k), k) == x
  {
    hide Bit, FlipLow;
    forall j: nat ensures Bit(FlipLow(FlipLow(x, k), k), j) == Bit(x, j) {
      FlipLowBit(FlipLow(x, k), k, j);
      FlipLowBit(x, k, j);
    }
    SameBits(FlipLow(FlipLow(x, k), k), x);
  }

  lemma SpliceTwice(x: nat, y: nat, k: nat)
    ensures Splice(Splice(x, y, k), Splice(y, x, k), k) == x
    ensures Splice(x, x, k) == x
  {
    hide Bit, Splice;
    var z := Splice(Splice(x, y, k), Splice(y, x, k), k);
    forall j: nat ensures Bit(z, j) == Bit(x, j) && Bit(Splice(x, x, k), j) == Bit(x, j) {
      SpliceBit(Splice(x, y, k), Splice(y, x, k), k, j);
      SpliceBit(x, y, k, j);
      SpliceBit(y, x, k, j);
      SpliceBit(x, x, k, j);
    }
    SameBits(z, x);
    SameBits(Splice(x, x, k), x);
  }

  // ---- ranges -------------------------------------------------------------------

  lemma {:induction false} RangeByShift(x: nat, m: nat)
    ensures x < Pow2(m) <==> Shr(x, m) == 0
  {
    if m > 0 { RangeByShift(x / 2, m - 1); }
  }

  /** A word without bits from m on is below 1 << m. */
  lemma InRangeByBits(x: nat, m: nat)
    requires forall k: nat :: k >= m ==> !Bit(x, k)
    ensures x < Pow2(m)
  {
    forall k: nat ensures Bit(Shr(x, m), k) == Bit(0, k) {
      ShrBit(x, m, k);
      ZeroBit(k);
    }
    SameBits(Shr(x, m), 0);
    RangeByShift(x, m);
  }

  lemma {:induction false} HighBitClear(x: nat, m: nat, k: nat)
    requires x < Pow2(m) && k >= m
    ensures !Bit(x, k)
  {
    if m == 0 { ZeroBit(k); } else { HighBitClear(x / 2, m - 1, k - 1); }
  }

  lemma {:induction false} Pow2Monotone(a: nat, b: nat)
    requires a <= b
    ensures Pow2(a) <= Pow2(b)
  {
    if a < b { Pow2Monotone(a, b - 1); }
  }

  lemma {:induction false} LoInRange(x: nat, k: nat)
    ensures Lo(x, k) < Pow2(k)
    ensures x < Pow2(k) ==> Lo(x, k) == x
  {
    if k > 0 { LoInRange(x / 2, k - 1); }
  }

  /** On a k-bit word the complement is the reflection x -> 2^k - 1 - x. */
  lemma {:induction false} FlipLowInRange(x: nat, k: nat)
    requires x < Pow2(k)
    ensures FlipLow(x, k) == Pow2(k) - 1 - x
  {
    if k > 0 { FlipLowInRange(x / 2, k - 1); }
  }

  /** A (k+1)-bit word is its bit k in front of its low k bits, and the updates act
      on the low part alone. */
  lemma {:induction false} PlaceParts(bit: bool, x: nat, k: nat)
    requires x < Pow2(k)
    ensures Place(bit, x, k) < Pow2(k + 1)
    ensures Bit(Place(bit, x, k), k) == bit
    ensures Lo(Place(bit, x, k), k) == x
  {
    if k > 0 {
      assert Place(bit, x, k) / 2 == Place(bit, x / 2, k - 1);
      PlaceParts(bit, x / 2, k - 1);
    }
  }

  lemma {:induction false} PlaceFlip(bit: bool, x: nat, k: nat)
    requires x < Pow2(k)
    ensures FlipLow(Place(bit, x, k), k) == Place(bit, Pow2(k) - 1 - x, k)
  {
    if k > 0 {
      assert Place(bit, x, k) / 2 == Place(bit, x / 2, k - 1);
      PlaceFlip(bit, x / 2, k - 1);
    }
  }

  lemma {:induction false} PlaceSplice(bit: bool, x: nat, other: bool, y: nat, k: nat)
    requires x < Pow2(k) && y < Pow2(k)
    ensures Splice(Place(bit, x, k), Place(other, y, k), k) == Place(bit, y, k)
  {
    if k > 0 {
      assert Place(bit, x, k) / 2 == Place(bit, x / 2, k - 1);
      assert Place(other, y, k) / 2 == Place(other, y / 2, k - 1);
      PlaceSplice(bit, x / 2, other, y / 2, k - 1);
    }
  }

  lemma {:induction false} PlaceOfParts(x: nat, k: nat)
    requires x < Pow2(k + 1)
    ensures x == Place(Bit(x, k), Lo(x, k), k)
  {
    if k > 0 { PlaceOfParts(x / 2, k - 1); }
  }

  // ---- truncation ---------------------------------------------------------------

  lemma LoFlipLow(x: nat, k: nat, m: nat)
    requires k <= m
    ensures Lo(FlipLow(x, k), m) == FlipLow(Lo(x, m), k)
  {
    hide Bit, Lo, FlipLow;
    forall j: nat ensures Bit(Lo(FlipLow(x, k), m), j) == Bit(FlipLow(Lo(x, m), k), j) {
      LoBit(FlipLow(x, k), m, j);
      FlipLowBit(x, k, j);
      FlipLowBit(Lo(x, m), k, j);
      LoBit(x, m, j);
    }
    SameBits(Lo(FlipLow(x, k), m), FlipLow(Lo(x, m), k));
  }

  lemma LoSplice(x: nat, y: nat, k: nat, m: nat)
    requires k <= m
    ensures Lo(Splice(x, y, k), m) == Splice(Lo(x, m), Lo(y, m), k)
  {
    forall j: nat ensures Bit(Lo(Splice(x, y, k), m), j) == Bit(Splice(Lo(x, m), Lo(y, m), k), j) {
      LoBit(Splice(x, y, k), m, j);
      SpliceBit(x, y, k, j);
      SpliceBit(Lo(x, m), Lo(y, m), k, j);
      LoBit(x, m, j);
      LoBit(y, m, j);
    }
    SameBits(Lo(Splice(x, y, k), m), Splice(Lo(x, m), Lo(y, m), k));
  }
}
