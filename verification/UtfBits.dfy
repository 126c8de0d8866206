/** The shifts, masks and marks of src/convertutf.cpp are the quotients, remainders and sums of Utf. */
module UtfBits {
  import opened BitStrings
  import opened Utf
  import W = BinMaps

  const BYTE_MASK := 0xBF
  const BYTE_MARK := 0x80
  const HALF_SHIFT := 10
  const HALF_MASK := 0x3FF

  // ---- One bit at a time ----

  lemma AndOnce(x: nat, y: nat)
    ensures W.And(x, y) == (if x % 2 + y % 2 == 2 then 1 else 0) + 2 * W.And(x / 2, y / 2)
  {
    if x > 0 {
      var a, b := x % 2, y % 2;
      assert W.And(x, y) == a * b + 2 * W.And(x / 2, y / 2);
      hide W.And;
      assert a * b == if a + b == 2 then 1 else 0 by { BitProduct(a, b); }
    }
  }

  lemma BitProduct(a: nat, b: nat)
    requires a < 2 && b < 2
    ensures a * b == if a + b == 2 then 1 else 0
  {
  }

  lemma OrOnce(x: nat, y: nat)
    ensures W.Or(x, y) == (if x % 2 + y % 2 > 0 then 1 else 0) + 2 * W.Or(x / 2, y / 2)
  {
  }

  lemma AndStep(x: nat, z: nat)
    ensures W.And(x, 2 * z + 1) == x % 2 + 2 * W.And(x / 2, z)
    ensures W.And(x, 2 * z) == 2 * W.And(x / 2, z)
  {
    hide W.And;
    AndOnce(x, 2 * z + 1);
    AndOnce(x, 2 * z);
  }

  lemma OrStep(x: nat, y: nat)
    ensures W.Or(x, 2 * y) == x % 2 + 2 * W.Or(x / 2, y)
    ensures W.Or(x, 2 * y + 1) == 1 + 2 * W.Or(x / 2, y)
  {
    hide W.Or;
    OrOnce(x, 2 * y);
    OrOnce(x, 2 * y + 1);
  }

  lemma AndZero(x: nat)
    ensures W.And(x, 0) == 0
  {
    if x > 0 { AndZero(x / 2); }
  }

  lemma NoBits(x: nat)
    ensures Pow2(0) == 1 && Low(x, 0) == 0 && Shl(x, 0) == x
  {
  }

  lemma OneMoreBit(x: nat, n: nat, mark: nat)
    ensures Pow2(n + 1) == 2 * Pow2(n) && Low(x, n + 1) == x % 2 + 2 * Low(x / 2, n) && Shl(mark, n + 1) == 2 * Shl(mark, n)
  {
  }

  /** A mask of ones keeps a remainder. */
  lemma {:induction false} MaskIsRemainder(x: nat, n: nat)
    ensures W.And(x, Pow2(n) - 1) == Low(x, n)
  {
    hide *;
    if n == 0 {
      NoBits(x);
      AndZero(x);
    } else {
      OneMoreBit(x, n - 1, 0);
      MaskIsRemainder(x / 2, n - 1);
      AndStep(x, Pow2(n - 1) - 1);
    }
  }

  /** A mark above the bits of a value is added to it. */
  lemma {:induction false} MarkIsSum(x: nat, n: nat, mark: nat)
    requires x < Pow2(n)
    ensures W.Or(x, Shl(mark, n)) == x + Shl(mark, n)
  {
    if n == 0 {
      OrZero(mark);
    } else {
      OrStep(x, Shl(mark, n - 1));
      MarkIsSum(x / 2, n - 1, mark);
    }
  }

  lemma {:induction false} OrZero(y: nat)
    ensures W.Or(0, y) == y
  {
    if y > 0 { OrZero(y / 2); }
  }

  /** The low n bits and the mark above bit n: what masking the marked value leaves. */
  lemma {:induction false} MarkedLow(x: nat, n: nat)
    ensures W.And(W.Or(x, Shl(2, n)), Pow2(n) - 1 + Shl(2, n)) == Low(x, n) + Shl(2, n)
  {
    hide *;
    if n == 0 {
      MarkedOnly(x);
      NoBits(x);
      NoBits(2);
    } else {
      OneMoreBit(x, n - 1, 2);
      MarkedLow(x / 2, n - 1);
      MarkedStep(x, Shl(2, n - 1), Pow2(n - 1) - 1 + Shl(2, n - 1));
    }
  }

  lemma MarkedStep(x: nat, mark: nat, mask: nat)
    ensures W.And(W.Or(x, 2 * mark), 2 * mask + 1) == x % 2 + 2 * W.And(W.Or(x / 2, mark), mask)
  {
    hide W.Or, W.And;
    OrStep(x, mark);
    AndStep(W.Or(x, 2 * mark), mask);
  }

  lemma MarkedOnly(x: nat)
    ensures W.And(W.Or(x, 2), 2) == 2
  {
    hide W.Or, W.And;
    var marked := W.Or(x / 2 / 2, 0);
    OrStep(x, 1);
    OrStep(x / 2, 0);
    AndStep(x % 2 + 2 * (1 + 2 * marked), 1);
    AndStep(1 + 2 * marked, 0);
    AndZero(marked);
    assert (x % 2 + 2 * (1 + 2 * marked)) / 2 == 1 + 2 * marked && (1 + 2 * marked) / 2 == marked;
  }

  /** Shifting by n splits a value into quotient and remainder. */
  lemma ShiftSplits(v: nat, n: nat)
    ensures v == Low(v, n) + Pow2(n) * Shr(v, n) && Low(v, n) < Pow2(n)
  {
    ShiftsDivide(v, n);
    ShiftMultiplies(Shr(v, n), n);
  }

  lemma SmallPowers()
    ensures Pow2(3) == 8 && Pow2(4) == 16 && Pow2(5) == 32 && Pow2(6) == 0x40 && Pow2(10) == 0x400
  {
  }

  // ---- The expressions of the code ----

  /** (ch | byteMark) & byteMask, and ch >>= 6. */
  lemma TrailingByteIsMark(ch: nat)
    ensures W.And(W.Or(ch, BYTE_MARK), BYTE_MASK) == Mark(ch) && Shr(ch, 6) == ch / 0x40
  {
    SmallPowers();
    hide W.And, W.Or, Low, Shr, Shl, Pow2;
    MarkedLow(ch, 6);
    ShiftSplits(ch, 6);
    ShiftMultiplies(2, 6);
    var q, r := Shr(ch, 6), Low(ch, 6);
    assert ch == r + 0x40 * q && r < 0x40;
  }

  /** ch | firstByteMark[n], where the shifts have left as many bits as the mark leaves free. */
  lemma FirstByteIsSum(ch: nat, n: nat)
    requires 1 <= n <= 4 && (n == 2 ==> ch < 0x20) && (n == 3 ==> ch < 0x10) && (n == 4 ==> ch < 0x08)
    ensures W.Or(ch, FirstByteMark(n)) == ch + FirstByteMark(n)
  {
    hide W.Or;
    SmallPowers();
    if n == 1 {
      OrNothing(ch);
    } else if n == 2 {
      MarkIsSum(ch, 5, 6);
      ShiftMultiplies(6, 5);
    } else if n == 3 {
      MarkIsSum(ch, 4, 14);
      ShiftMultiplies(14, 4);
    } else {
      MarkIsSum(ch, 3, 30);
      ShiftMultiplies(30, 3);
    }
  }

  lemma {:induction false} OrNothing(x: nat)
    ensures W.Or(x, 0) == x
  {
    if x > 0 { OrNothing(x / 2); }
  }

  /** ch >> halfShift and ch & halfMask. */
  lemma HalvesAreQuotients(ch: nat)
    ensures Shr(ch, HALF_SHIFT) == ch / 0x400 && W.And(ch, HALF_MASK) == ch % 0x400
  {
    SmallPowers();
    ShiftSplits(ch, 10);
    MaskIsRemainder(ch, 10);
  }

  /** ch <<= 6 and (ch - highStart) << halfShift. */
  lemma ShiftsUp(ch: nat)
    ensures Shl(ch, 6) == ch * 0x40 && Shl(ch, HALF_SHIFT) == ch * 0x400
  {
    SmallPowers();
    ShiftMultiplies(ch, 6);
    ShiftMultiplies(ch, 10);
  }
}
