/** The bins for large free chunks: which bin a size belongs to, and which sizes a bin holds. */
module SizeBins {
  import opened BitStrings

  const TREEBIN_SHIFT := 8
  const LAST_BIN := 31

  // ---- The bin of a size ----

  /** Position of the highest bit. */
  function Log2(x: nat): nat
    requires x > 0
  {
    if x == 1 then 0 else 1 + Log2(x / 2)
  }

  /** compute_tree_index, in the versions that shift a size_t. */
  function TreeIndex(s: nat): (i: nat) {
    var x := s / 256;
    if x == 0 then 0
    else if x > 0xFFFF then LAST_BIN
    else var k := Log2(x); 2 * k + Shr(s, k + 7) % 2
  }

  /** minsize_for_tree_index. */
  function MinSize(i: nat): (s: nat) {
    Pow2(i / 2 + 8) + i % 2 * Pow2(i / 2 + 7)
  }

  lemma {:induction false} Log2Bounds(x: nat)
    requires x > 0
    ensures Pow2(Log2(x)) <= x < 2 * Pow2(Log2(x))
  {
    if x > 1 {
      Log2Bounds(x / 2);
    }
  }

  lemma {:induction false} Pow2Adds(a: nat, b: nat)
    ensures Pow2(a + b) == Pow2(a) * Pow2(b)
  {
    if a > 0 {
      Pow2Adds(a - 1, b);
      Doubled(Pow2(a - 1), Pow2(b));
    }
  }

  lemma Doubled(x: nat, y: nat)
    ensures 2 * x * y == 2 * (x * y)
  {
  }

  lemma {:induction false} Pow2Grows(a: nat, b: nat)
    requires a <= b
    ensures Pow2(a) <= Pow2(b)
    decreases b
  {
    if a < b {
      Pow2Grows(a, b - 1);
    }
  }

  lemma MinSizeOf(k: nat)
    ensures MinSize(2 * k) == 2 * Pow2(k + 7)
    ensures MinSize(2 * k + 1) == 3 * Pow2(k + 7)
    ensures MinSize(2 * k + 2) == 4 * Pow2(k + 7)
  {
    MinSizeIs(2 * k, k, 0);
    MinSizeIs(2 * k + 1, k, 1);
    MinSizeIs(2 * k + 2, k + 1, 0);
    assert Pow2(k + 8) == 2 * Pow2(k + 7);
    assert Pow2(k + 9) == 2 * Pow2(k + 8);
  }

  lemma MinSizeIs(i: nat, k: nat, b: nat)
    requires i / 2 == k && i % 2 == b
    ensures MinSize(i) == if b == 0 then Pow2(k + 8) else Pow2(k + 8) + Pow2(k + 7)
  {
    hide Pow2;
  }

  lemma {:induction false} ShrOfRange(s: nat, n: nat)
    requires 2 * Pow2(n) <= s < 4 * Pow2(n)
    ensures Shr(s, n) == if s < 3 * Pow2(n) then 2 else 3
  {
    if n > 0 {
      ShrOfRange(s / 2, n - 1);
    }
  }

  /** A bin holds exactly the sizes between its least one and the least one of the next bin. */
  lemma IndexIsRange(s: nat)
    requires s >= 256
    ensures var i := TreeIndex(s);
            i <= LAST_BIN && MinSize(i) <= s && (i < LAST_BIN ==> s < MinSize(i + 1))
  {
    hide MinSize, Pow2, Log2, Shr;
    var x := s / 256;
    LastMinSize();
    if x <= 0xFFFF {
      var k := Log2(x);
      Log2Bounds(x);
      LogIsSmall(k, x);
      Pow2Adds7(k);
      MiddleIndex(s, k);
    }
  }

  lemma Pow2Adds7(k: nat)
    ensures Pow2(k + 7) == 128 * Pow2(k)
  {
    Pow2Adds(7, k);
    assert Pow2(7) == 128;
  }

  lemma MiddleIndex(s: nat, k: nat)
    requires 2 * Pow2(k + 7) <= s < 4 * Pow2(k + 7)
    ensures var i := 2 * k + Shr(s, k + 7) % 2; MinSize(i) <= s < MinSize(i + 1)
  {
    ShrOfRange(s, k + 7);
    MinSizeOf(k);
    hide MinSize, Pow2, Shr;
    if s < 3 * Pow2(k + 7) {
      assert 2 * k + Shr(s, k + 7) % 2 == 2 * k;
    } else {
      assert 2 * k + Shr(s, k + 7) % 2 == 2 * k + 1;
    }
  }

  lemma Word16()
    ensures Pow2(16) == 0x1_0000
  {
    assert Pow2(8) == 0x100;
  }

  lemma LogIsSmall(k: nat, x: nat)
    requires Pow2(k) <= x <= 0xFFFF
    ensures k < 16
  {
    Word16();
    if k >= 16 {
      Pow2Grows(16, k);
    }
  }

  lemma LastMinSize()
    ensures MinSize(LAST_BIN) == 0xC0_0000
  {
    assert Pow2(8) == 0x100;
    assert Pow2(16) == 0x1_0000;
    assert Pow2(22) == 0x40_0000;
  }

  lemma {:induction false} MinSizesGrow(i: nat, j: nat)
    requires i <= j
    ensures MinSize(i) <= MinSize(j) && (i < j ==> MinSize(i) < MinSize(j))
    decreases j
  {
    hide MinSize;
    if i < j {
      MinSizesGrow(i, j - 1);
      var k := (j - 1) / 2;
      MinSizeOf(k);
    }
  }

  /** And so the range decides the index. */
  lemma RangeIsIndex(s: nat, i: nat)
    requires s >= 256 && i <= LAST_BIN && MinSize(i) <= s && (i < LAST_BIN ==> s < MinSize(i + 1))
    ensures TreeIndex(s) == i
  {
    hide MinSize, TreeIndex;
    IndexIsRange(s);
    var j := TreeIndex(s);
    if i < j {
      MinSizesGrow(i + 1, j);
    } else if j < i {
      MinSizesGrow(j + 1, i);
    }
  }

  /** The version for GNU C on x86 keeps the shifted size in an unsigned int. */
  function GnuTreeIndex(s: nat): (i: nat) {
    var x := s / 256 % 0x1_0000_0000;
    if x == 0 then 0
    else if x > 0xFFFF then LAST_BIN
    else var k := Log2(x); 2 * k + Shr(s, k + 7) % 2
  }

  /** It picks the same bin exactly as long as the shifted size fits, or what is left of it is
      large enough by itself. */
  lemma GnuIndexAgrees(s: nat)
    ensures GnuTreeIndex(s) == TreeIndex(s) <==> s / 256 < 0x1_0000_0000 || s / 256 % 0x1_0000_0000 >= 0xC000
  {
    hide Log2, Pow2, MinSize, Shr;
    var x := s / 256 % 0x1_0000_0000;
    if s / 256 >= 0x1_0000_0000 && 0 < x <= 0xFFFF {
      // the bits that are read are the same as those of the size that the cut leaves
      var cut := 256 * x + s % 256;
      SameLowBits(s, cut, Log2(x));
      IndexIsRange(cut);
      LastMinSize();
      assert TreeIndex(cut) == GnuTreeIndex(s);
      if x >= 0xC000 {
        RangeIsIndex(cut, LAST_BIN);
      }
    }
  }

  lemma SameLowBits(s: nat, cut: nat, k: nat)
    requires s / 256 >= 0x1_0000_0000 && cut == 256 * (s / 256 % 0x1_0000_0000) + s % 256
    requires 0 < cut / 256 <= 0xFFFF && k == Log2(cut / 256)
    ensures Shr(s, k + 7) % 2 == Shr(cut, k + 7) % 2
  {
    Log2Bounds(cut / 256);
    LogIsSmall(k, cut / 256);
    Word40();
    var high := s / 256 / 0x1_0000_0000;
    ShiftMultiplies(high, 40);
    hide Shr, Shl, Pow2;
    LowBitsOfSum(high, 40, cut, k + 7);
  }

  lemma {:induction false} LowBitsOfSum(high: nat, m: nat, low: nat, n: nat)
    requires n < m
    ensures Shr(Shl(high, m) + low, n) % 2 == Shr(low, n) % 2
  {
    if n > 0 {
      assert (Shl(high, m) + low) / 2 == Shl(high, m - 1) + low / 2;
      LowBitsOfSum(high, m - 1, low / 2, n - 1);
    }
  }

  lemma Word40()
    ensures Pow2(40) == 0x100_0000_0000
  {
    Word16();
    assert Pow2(24) == 0x100_0000;
    assert Pow2(32) == 0x1_0000_0000;
  }
}
