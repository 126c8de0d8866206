/** The bit maps of the allocator's bins: 32-bit words on which the program works with masks and
    negation, and what those tricks mean for single bits. */
module BinMaps {
  import opened BitStrings

  const BINS := 32
  const WORDS := 0x1_0000_0000

  type BinMap = x: nat | x < 0x1_0000_0000

  /** Bit `i` of a word. */
  predicate Has(x: nat, i: nat) {
    if i == 0 then x % 2 == 1 else Has(x / 2, i - 1)
  }

  // ---- The operators ----

  /** x & y. */
  function And(x: nat, y: nat): nat {
    if x == 0 then 0 else x % 2 * (y % 2) + 2 * And(x / 2, y / 2)
  }

  /** x | y. */
  function Or(x: nat, y: nat): nat
    decreases x + y
  {
    if x + y == 0 then 0 else (if x % 2 + y % 2 > 0 then 1 else 0) + 2 * Or(x / 2, y / 2)
  }

  /** ~x, of a word of n bits. */
  function Not(x: nat, n: nat): nat {
    if n == 0 then 0 else 1 - x % 2 + 2 * Not(x / 2, n - 1)
  }

  /** -x, of a word of n bits. */
  function Neg(x: nat, n: nat): nat
    requires x < Pow2(n)
  {
    if x == 0 then 0 else Pow2(n) - x
  }

  // ---- The macros ----

  /** idx2bit. */
  function IdxToBit(i: nat): (b: BinMap)
    requires i < BINS
  {
    Word32();
    Pow2Below(i, 32);
    Pow2(i)
  }

  function Mark(map0: BinMap, i: nat): nat
    requires i < BINS
  {
    Or(map0, IdxToBit(i))
  }

  function Clear(map0: BinMap, i: nat): nat
    requires i < BINS
  {
    And(map0, Not(IdxToBit(i), 32))
  }

  function LeastBit(x: BinMap): nat {
    Word32();
    And(x, Neg(x, 32))
  }

  /** x << 1 in a 32-bit word. */
  function Twice(x: BinMap): BinMap {
    2 * x % WORDS
  }

  function LeftBits(x: BinMap): nat {
    Word32();
    Or(Twice(x), Neg(Twice(x), 32))
  }

  /** compute_bit2idx: the number of trailing zeros. */
  function BitToIdx(x: nat): nat
    requires x > 0
  {
    if x % 2 == 1 then 0 else 1 + BitToIdx(x / 2)
  }

  // ---- Powers ----

  lemma Word32()
    ensures Pow2(32) == WORDS
  {
    assert Pow2(8) == 0x100;
    assert Pow2(16) == 0x1_0000;
    assert Pow2(24) == 0x100_0000;
  }

  lemma {:induction false} Pow2Below(i: nat, n: nat)
    requires i < n
    ensures 2 * Pow2(i) <= Pow2(n)
    decreases n
  {
    if i < n - 1 {
      Pow2Below(i, n - 1);
    }
  }

  // ---- Single bits ----

  lemma {:induction false} HasOfZero(i: nat)
    ensures !Has(0, i)
  {
    if i > 0 {
      HasOfZero(i - 1);
    }
  }

  lemma {:induction false} HasOfAnd(x: nat, y: nat, i: nat)
    ensures Has(And(x, y), i) <==> Has(x, i) && Has(y, i)
    decreases i
  {
    if x == 0 {
      HasOfZero(i);
    } else if i > 0 {
      assert And(x, y) / 2 == And(x / 2, y / 2);
      HasOfAnd(x / 2, y / 2, i - 1);
    }
  }

  lemma {:induction false} HasOfOr(x: nat, y: nat, i: nat)
    ensures Has(Or(x, y), i) <==> Has(x, i) || Has(y, i)
    decreases i
  {
    if x + y == 0 {
      HasOfZero(i);
    } else if i > 0 {
      assert Or(x, y) / 2 == Or(x / 2, y / 2);
      HasOfOr(x / 2, y / 2, i - 1);
    }
  }

  lemma {:induction false} HasOfNot(x: nat, n: nat, i: nat)
    requires i < n
    ensures Has(Not(x, n), i) <==> !Has(x, i)
  {
    if i > 0 {
      assert Not(x, n) / 2 == Not(x / 2, n - 1);
      HasOfNot(x / 2, n - 1, i - 1);
    }
  }

  lemma {:induction false} HasOfPow2(i: nat, j: nat)
    ensures Has(Pow2(i), j) <==> i == j
  {
    if i == 0 {
      if j > 0 {
        HasOfZero(j - 1);
      }
    } else if j > 0 {
      HasOfPow2(i - 1, j - 1);
    }
  }

  /** Above the width of a word there are no bits. */
  lemma {:induction false} HasBelow(x: nat, n: nat, i: nat)
    requires x < Pow2(n) && Has(x, i)
    ensures i < n
    decreases i
  {
    if n == 0 {
      HasOfZero(i);
    } else if i > 0 {
      HasBelow(x / 2, n - 1, i - 1);
    }
  }

  lemma {:induction false} AndBelow(x: nat, y: nat)
    ensures And(x, y) <= x
  {
    if x > 0 {
      AndBelow(x / 2, y / 2);
    }
  }

  lemma {:induction false} OrBelow(x: nat, y: nat, n: nat)
    requires x < Pow2(n) && y < Pow2(n)
    ensures Or(x, y) < Pow2(n)
  {
    if x + y > 0 {
      if n > 0 {
        OrBelow(x / 2, y / 2, n - 1);
      }
    }
  }

  // ---- Marking and clearing ----

  lemma MarkSetsOneBit(map0: BinMap, i: nat, j: nat)
    requires i < BINS
    ensures Mark(map0, i) < WORDS
    ensures Has(Mark(map0, i), j) <==> j == i || Has(map0, j)
  {
    HasOfOr(map0, Pow2(i), j);
    HasOfPow2(i, j);
    Word32();
    Pow2Below(i, 32);
    OrBelow(map0, Pow2(i), 32);
  }

  lemma ClearDropsOneBit(map0: BinMap, i: nat, j: nat)
    requires i < BINS
    ensures Clear(map0, i) < WORDS
    ensures Has(Clear(map0, i), j) <==> j != i && Has(map0, j)
  {
    HasOfAnd(map0, Not(Pow2(i), 32), j);
    AndBelow(map0, Not(Pow2(i), 32));
    HasOfPow2(i, j);
    if j < 32 {
      HasOfNot(Pow2(i), 32, j);
    } else if Has(map0, j) {
      Word32();
      HasBelow(map0, 32, j);
    }
  }

  // ---- The least bit ----

  lemma {:induction false} TrailingZeros(x: nat)
    requires x > 0
    ensures Has(x, BitToIdx(x)) && forall j: nat :: j < BitToIdx(x) ==> !Has(x, j)
  {
    if x % 2 == 0 {
      TrailingZeros(x / 2);
      forall j: nat | j < BitToIdx(x) ensures !Has(x, j) {
        if j > 0 {
          assert !Has(x / 2, j - 1);
        }
      }
    }
  }

  /** A word and its complement have no bit in common. */
  lemma {:induction false} AndOfComplement(x: nat, n: nat)
    requires x < Pow2(n)
    ensures And(x, Pow2(n) - 1 - x) == 0
  {
    if x > 0 && n > 0 {
      AndOfComplement(x / 2, n - 1);
      assert (Pow2(n) - 1 - x) / 2 == Pow2(n - 1) - 1 - x / 2;
      assert x % 2 + (Pow2(n) - 1 - x) % 2 == 1;
    }
  }

  /** x & -x isolates the least bit. */
  lemma {:induction false} AndOfNegation(x: nat, n: nat)
    requires 0 < x < Pow2(n)
    ensures And(x, Neg(x, n)) == Pow2(BitToIdx(x))
  {
    if x % 2 == 0 {
      AndOfNegation(x / 2, n - 1);
      assert Neg(x, n) / 2 == Neg(x / 2, n - 1);
    } else {
      assert Neg(x, n) / 2 == Pow2(n - 1) - 1 - x / 2;
      AndOfComplement(x / 2, n - 1);
    }
  }

  lemma {:induction false} BitToIdxOfPow2(i: nat)
    ensures BitToIdx(Pow2(i)) == i
  {
    if i > 0 {
      BitToIdxOfPow2(i - 1);
    }
  }

  /** compute_bit2idx of least_bit is the first bin marked. */
  lemma LeastBitIsFirst(x: BinMap)
    requires x > 0
    ensures LeastBit(x) > 0 && BitToIdx(LeastBit(x)) == BitToIdx(x)
    ensures BitToIdx(x) < BINS && Has(x, BitToIdx(x))
    ensures forall j: nat :: j < BitToIdx(x) ==> !Has(x, j)
  {
    Word32();
    AndOfNegation(x, 32);
    BitToIdxOfPow2(BitToIdx(x));
    TrailingZeros(x);
    HasBelow(x, 32, BitToIdx(x));
  }

  // ---- The bits to the left ----

  /** x | -x has every bit from the least one of x on. */
  lemma {:induction false} OrOfNegation(x: nat, n: nat, j: nat)
    requires 0 < x < Pow2(n) && j < n
    ensures Has(Or(x, Neg(x, n)), j) <==> j >= BitToIdx(x)
  {
    HasOfOr(x, Neg(x, n), j);
    if x % 2 == 0 {
      if j > 0 {
        assert Neg(x, n) / 2 == Neg(x / 2, n - 1);
        OrOfNegation(x / 2, n - 1, j - 1);
        HasOfOr(x / 2, Neg(x / 2, n - 1), j - 1);
      }
    } else if j > 0 {
      assert Neg(x, n) / 2 == Pow2(n - 1) - 1 - x / 2;
      HasOfComplement(x / 2, n - 1, j - 1);
    }
  }

  lemma {:induction false} HasOfComplement(x: nat, n: nat, j: nat)
    requires x < Pow2(n) && j < n
    ensures Has(Pow2(n) - 1 - x, j) <==> !Has(x, j)
  {
    if j > 0 {
      assert (Pow2(n) - 1 - x) / 2 == Pow2(n - 1) - 1 - x / 2;
      HasOfComplement(x / 2, n - 1, j - 1);
    }
  }

  /** left_bits of one bit: the bins after it. */
  lemma LeftBitsAreLater(i: nat, j: nat)
    requires i < BINS && j < BINS
    ensures LeftBits(IdxToBit(i)) < WORDS
    ensures Has(LeftBits(IdxToBit(i)), j) <==> j > i
  {
    Word32();
    if i == 31 {
      assert Pow2(31) == 0x8000_0000;
      HasOfZero(j);
    } else {
      Pow2Below(i + 1, 32);
      assert Twice(Pow2(i)) == Pow2(i + 1);
      OrOfNegation(Pow2(i + 1), 32, j);
      BitToIdxOfPow2(i + 1);
      OrBelow(Pow2(i + 1), Neg(Pow2(i + 1), 32), 32);
    }
  }

  // ---- Shifted maps ----

  lemma {:induction false} HasOfShr(x: nat, n: nat, j: nat)
    ensures Has(Shr(x, n), j) <==> Has(x, n + j)
  {
    if n > 0 {
      HasOfShr(x / 2, n - 1, j);
    }
  }

  lemma {:induction false} HasOfShl(x: nat, n: nat, j: nat)
    ensures Has(Shl(x, n), j) <==> j >= n && Has(x, j - n)
  {
    if n > 0 && j > 0 {
      HasOfShl(x, n - 1, j - 1);
    }
  }

  lemma {:induction false} ShlOfShr(x: nat, n: nat)
    ensures Shl(Shr(x, n), n) <= x
  {
    if n > 0 {
      ShlOfShr(x / 2, n - 1);
    }
  }

  lemma {:induction false} ZeroHasNone(x: nat)
    ensures x == 0 ==> forall j: nat :: !Has(x, j)
  {
    forall j: nat | x == 0 ensures !Has(x, j) {
      HasOfZero(j);
    }
  }

  // ---- The searches of the allocator ----

  /** left_bits(idx2bit(i)) & map: whether a bin after `i` is marked. */
  function LaterBins(map0: BinMap, i: nat): nat
    requires i < BINS
  {
    And(map0, LeftBits(IdxToBit(i)))
  }

  /** If so, compute_bit2idx of its least bit is the first such bin. */
  lemma FirstLaterBin(map0: BinMap, i: nat)
    requires i < BINS
    ensures LaterBins(map0, i) < WORDS
    ensures LaterBins(map0, i) == 0 ==> forall j: nat :: j > i ==> !Has(map0, j)
    ensures LaterBins(map0, i) > 0 ==>
              var l := LaterBins(map0, i);
              LeastBit(l) > 0 &&
              var k := BitToIdx(LeastBit(l));
              i < k < BINS && Has(map0, k) && forall j: nat :: i < j < k ==> !Has(map0, j)
  {
    var l := LaterBins(map0, i);
    AndBelow(map0, LeftBits(IdxToBit(i)));
    ZeroHasNone(l);
    forall j: nat ensures Has(l, j) <==> Has(map0, j) && j > i {
      HasOfAnd(map0, LeftBits(IdxToBit(i)), j);
      if Has(map0, j) {
        Word32();
        HasBelow(map0, 32, j);
        LeftBitsAreLater(i, j);
      }
    }
    if l > 0 {
      LeastBitIsFirst(l);
    }
  }

  /** The two low bits of smallmap >> idx, and the index picked from them. */
  lemma TwoBins(map0: BinMap, i: nat)
    ensures And(Shr(map0, i), 3) != 0 <==> Has(map0, i) || Has(map0, i + 1)
    ensures And(Not(Shr(map0, i), 32), 1) == if Has(map0, i) then 0 else 1
    ensures Shr(map0, i) == 0 ==> forall j: nat :: j >= i ==> !Has(map0, j)
  {
    hide And, Not, Shr;
    var s := Shr(map0, i);
    HasOfShr(map0, i, 0);
    HasOfShr(map0, i, 1);
    TwoLowBits(s);
    OneLowBit(Not(s, 32));
    HasOfNot(s, 32, 0);
    ZeroHasNone(s);
    forall j: nat | s == 0 && j >= i ensures !Has(map0, j) {
      HasOfShr(map0, i, j - i);
    }
  }

  lemma TwoLowBits(s: nat)
    ensures And(s, 3) != 0 <==> Has(s, 0) || Has(s, 1)
  {
    assert And(s / 2 / 2, 0) == 0 by {
      AndWithZero(s / 2 / 2);
    }
    assert s > 0 ==> And(s, 3) == s % 2 + 2 * And(s / 2, 1);
    assert s / 2 > 0 ==> And(s / 2, 1) == s / 2 % 2 + 2 * And(s / 2 / 2, 0);
  }

  lemma OneLowBit(s: nat)
    ensures And(s, 1) == if Has(s, 0) then 1 else 0
  {
    AndWithZero(s / 2);
  }

  lemma {:induction false} AndWithZero(s: nat)
    ensures And(s, 0) == 0
  {
    if s > 0 {
      AndWithZero(s / 2);
    }
  }

  /** (smallbits << idx) & left_bits(idx2bit(idx)) looks for the same bins as the whole map does. */
  lemma ShiftedBackIsLater(map0: BinMap, i: nat)
    requires i < BINS
    ensures Shl(Shr(map0, i), i) < WORDS
    ensures forall j: nat :: j > i ==> (Has(Shl(Shr(map0, i), i), j) <==> Has(map0, j))
  {
    ShlOfShr(map0, i);
    forall j: nat | j > i ensures Has(Shl(Shr(map0, i), i), j) <==> Has(map0, j) {
      HasOfShl(Shr(map0, i), i, j);
      HasOfShr(map0, i, j - i);
    }
  }
}
