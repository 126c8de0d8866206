/** What the searches of tmalloc_large and tmalloc_small find in the large bins: the best fitting chunk. */
module BestFit {
  import opened BinMaps
  import opened BitStrings
  import opened SizeBins
  import opened SizeTrie

  // ---- The large bins ----

  /** The sizes a bin's trie is made for; the last bin decides all bits of a size. */
  function BinLow(i: nat): nat {
    if i < LAST_BIN then MinSize(i) else 0
  }

  function BinWidth(i: nat, n: nat): nat {
    if i < LAST_BIN then i / 2 + 7 else n
  }

  /** leftshift_for_tree_index, in words of n bits. */
  function LeftShift(i: nat, n: nat): nat
    requires i <= LAST_BIN && n >= 32
  {
    if i == LAST_BIN then 0 else n - 1 - (i / 2 + TREEBIN_SHIFT - 2)
  }

  /** Every bin is a trie of sizes that belong to it, and the map marks the ones that are not empty. */
  ghost predicate LargeBins(bins: seq<Tree>, treemap: nat, n: nat) {
    && |bins| == BINS && treemap < WORDS && n >= 32
    && forall i: nat :: i < BINS ==> LargeBin(bins[i], treemap, i, n)
  }

  ghost predicate LargeBin(t: Tree, treemap: nat, i: nat, n: nat) {
    && Trie(t, BinLow(i), BinWidth(i, n))
    && (t.Node? <==> Has(treemap, i))
    && forall s: nat :: HasSize(t, s) ==> 256 <= s < Pow2(n) && TreeIndex(s) == i
  }

  /** The chunks of a bin are ordered against those of another. */
  lemma BinsAreOrdered(s: nat, z: nat)
    requires s >= 256 && z >= 256 && TreeIndex(s) < TreeIndex(z)
    ensures s < z
  {
    IndexIsRange(s);
    IndexIsRange(z);
    MinSizesGrow(TreeIndex(s) + 1, TreeIndex(z));
  }

  /** A size fits the trie of its bin. */
  lemma SizeFitsBin(s: nat, n: nat)
    requires 256 <= s < Pow2(n) && n >= 32
    ensures var i := TreeIndex(s);
            i <= LAST_BIN && BinWidth(i, n) <= n && BinLow(i) <= s < BinLow(i) + Pow2(BinWidth(i, n))
  {
    hide Pow2, MinSize, TreeIndex;
    IndexIsRange(s);
    var i := TreeIndex(s);
    if i < LAST_BIN {
      MinSizeOf(i / 2);
      assert i == 2 * (i / 2) || i == 2 * (i / 2) + 1;
    }
  }

  /** The shift of the program puts the first open bit on top. */
  lemma StartKey(s: nat, n: nat)
    requires 256 <= s < Pow2(n) && n >= 32
    ensures var i := TreeIndex(s);
            i <= LAST_BIN && Key(Low(Shl(s, LeftShift(i, n)), n), s, BinLow(i), BinWidth(i, n), n)
  {
    SizeFitsBin(s, n);
    var i := TreeIndex(s);
    if i == LAST_BIN {
      LowBelow(s, n);
    } else {
      hide TreeIndex;
      MiddleKey(s, i, i / 2 + 7, n);
    }
  }

  lemma MiddleKey(s: nat, i: nat, w: nat, n: nat)
    requires w == i / 2 + 7 < n && MinSize(i) <= s < MinSize(i) + Pow2(w)
    ensures Low(Shl(s, n - w), n) == Shl(s - MinSize(i), n - w)
  {
    MinSizeOf(i / 2);
    hide MinSize, Pow2, Shl;
    if i % 2 == 0 {
      assert i == 2 * (i / 2);
    } else {
      assert i == 2 * (i / 2) + 1;
    }
    KeyAbove(s, MinSize(i), w, n - w);
  }

  lemma KeyAbove(s: nat, lo: nat, w: nat, k: nat)
    requires (lo == 2 * Pow2(w) || lo == 3 * Pow2(w)) && lo <= s < lo + Pow2(w)
    ensures Low(Shl(s, k), w + k) == Shl(s - lo, k)
  {
    hide Pow2, Shl, Low;
    ShlOfMultiples(w, k);
    ShlBelow(s - lo, w, k);
    ShlAdds(lo, s - lo, k);
    var x, n := Shl(s - lo, k), w + k;
    LowBelow(x, n);
    LowOver(x, n);
    LowOver(Pow2(n) + x, n);
    LowOver(2 * Pow2(n) + x, n);
  }

  lemma {:induction false} ShlOfMultiples(w: nat, k: nat)
    ensures Shl(2 * Pow2(w), k) == 2 * Pow2(w + k)
    ensures Shl(3 * Pow2(w), k) == 3 * Pow2(w + k)
  {
    if k > 0 {
      ShlOfMultiples(w, k - 1);
    }
  }

  // ---- The best fit of one trie ----

  function Min(a: nat, b: nat): nat {
    if a < b then a else b
  }

  /** The least size of at least nb in a trie, or `none`. */
  function LeastFit(t: Tree, nb: nat, none: nat): nat {
    if t == Nil then none
    else Min(if t.size >= nb then Min(t.size, none) else none, Min(LeastFit(t.left, nb, none), LeastFit(t.right, nb, none)))
  }

  lemma {:induction false} LeastFitIsLeast(t: Tree, nb: nat, none: nat, s: nat)
    requires HasSize(t, s) && s >= nb
    ensures LeastFit(t, nb, none) <= s
  {
    if HasSize(t.left, s) {
      LeastFitIsLeast(t.left, nb, none, s);
    } else if HasSize(t.right, s) {
      LeastFitIsLeast(t.right, nb, none, s);
    }
  }

  lemma {:induction false} LeastFitIsThere(t: Tree, nb: nat, none: nat)
    ensures var f := LeastFit(t, nb, none); f <= none && (f == none || (HasSize(t, f) && f >= nb))
  {
    if t.Node? {
      LeastFitIsThere(t.left, nb, none);
      LeastFitIsThere(t.right, nb, none);
    }
  }

  /** Sizes that are all too small do not fit. */
  lemma NothingFits(t: Tree, nb: nat, none: nat)
    requires forall s: nat :: HasSize(t, s) ==> s < nb
    ensures LeastFit(t, nb, none) == none
  {
    LeastFitIsThere(t, nb, none);
  }

  /** Below the half that a size falls in nothing fits it. */
  lemma LeftIsTooSmall(t: Tree, lo: nat, w: nat, nb: nat, none: nat)
    requires t.Node? && w > 0 && Trie(t, lo, w) && nb >= lo + Pow2(w - 1)
    ensures LeastFit(t.left, nb, none) == none
  {
    forall s: nat | HasSize(t.left, s) ensures s < nb {
      SizesInRange(t.left, lo, w - 1, s);
    }
    NothingFits(t.left, nb, none);
  }

  /** Of two tries one after the other the first one that is not empty has the best fit, if all of
      it fits. */
  lemma FirstIsBest(a: Tree, b: Tree, nb: nat, none: nat, mid: nat)
    requires a.Node? && (forall s: nat :: HasSize(a, s) ==> nb <= s < mid) && (forall s: nat :: HasSize(b, s) ==> mid <= s)
    ensures Min(LeastFit(a, nb, none), LeastFit(b, nb, none)) == LeastFit(a, nb, none)
  {
    assert HasSize(a, a.size);
    LeastFitIsLeast(a, nb, none, a.size);
    LeastFitIsThere(a, nb, none);
    LeastFitIsThere(b, nb, none);
  }

  // ---- The searches ----

  /** Subtraction of size_t values. */
  function Sub(a: nat, b: nat, n: nat): (r: nat)
    requires a < Pow2(n) && b < Pow2(n)
    ensures r < Pow2(n)
  {
    if a >= b then a - b else Pow2(n) + a - b
  }

  /** The chunk picked so far: `v` with the remainder `rsize`, or none with the remainder -nb. */
  ghost predicate Picked(root: Tree, v: Tree, rsize: nat, nb: nat, none: nat) {
    if v == Nil then nb + rsize == none
    else v.size == nb + rsize < none && v.ring != [] && Leads(root, v.ring[0], v.size)
  }

  /** A trie that is part of another. */
  ghost predicate Part(t: Tree, root: Tree) {
    forall a: nat, s: nat :: Leads(t, a, s) ==> Leads(root, a, s)
  }

  ghost predicate AllFrom(t: Tree, low: nat, none: nat) {
    forall s: nat :: HasSize(t, s) ==> low <= s < none
  }

  /** The state of the descent along the bits of nb. */
  ghost predicate Descending(root: Tree, nb: nat, n: nat, t: Tree, lo: nat, w: nat, rst: Tree, v: Tree, rsize: nat) {
    && nb < Pow2(n) && lo <= nb < lo + Pow2(w) && Trie(t, lo, w) && Part(t, root) && AllFrom(t, 0, Pow2(n))
    && Part(rst, root) && AllFrom(rst, lo + Pow2(w), Pow2(n)) && AnyTrie(rst)
    && Picked(root, v, rsize, nb, Pow2(n))
    && LeastFit(root, nb, Pow2(n))
         == Min(nb + rsize, Min(LeastFit(t, nb, Pow2(n)), LeastFit(rst, nb, Pow2(n))))
  }

  ghost predicate AnyTrie(t: Tree) {
    exists lo: nat, w: nat :: Trie(t, lo, w)
  }

  /** What looking at a node does to the pick. */
  ghost predicate Looked(t: Tree, nb: nat, v: Tree, rsize: nat, v': Tree, rsize': nat) {
    t.Node? && if t.size >= nb && t.size - nb < rsize then v' == t && rsize' == t.size - nb else v' == v && rsize' == rsize
  }

  lemma LookedPicks(root: Tree, nb: nat, none: nat, t: Tree, v: Tree, rsize: nat, v': Tree, rsize': nat)
    requires Looked(t, nb, v, rsize, v', rsize') && Picked(root, v, rsize, nb, none) && Part(t, root)
    requires t.size < none && t.ring != []
    ensures Picked(root, v', rsize', nb, none)
    ensures nb + rsize' == Min(if t.size >= nb then t.size else none, nb + rsize)
  {
    assert Leads(t, t.ring[0], t.size);
  }

  lemma Children(t: Tree, root: Tree, low: nat, none: nat)
    requires t.Node? && Part(t, root) && AllFrom(t, low, none)
    ensures Part(t.left, root) && Part(t.right, root) && AllFrom(t.left, low, none) && AllFrom(t.right, low, none)
    ensures t.size < none
  {
    forall a: nat, s: nat | Leads(t.left, a, s) || Leads(t.right, a, s) ensures Leads(root, a, s) {
      assert Leads(t, a, s);
    }
    forall s: nat | HasSize(t.left, s) || HasSize(t.right, s) ensures low <= s < none {
      assert HasSize(t, s);
    }
    assert HasSize(t, t.size);
  }

  /** A right child comes before any right child further up. */
  lemma RightComesFirst(t: Tree, root: Tree, lo: nat, w: nat, nb: nat, none: nat, rst: Tree)
    requires w > 0 && t.Node? && Trie(t, lo, w) && nb < lo + Pow2(w - 1) && AllFrom(t, 0, none)
    requires AllFrom(rst, lo + Pow2(w), none) && AnyTrie(rst) && Part(t.right, root) && Part(rst, root)
    ensures var next := if t.right != Nil then t.right else rst;
            && Min(LeastFit(t.right, nb, none), LeastFit(rst, nb, none)) == LeastFit(next, nb, none)
            && AllFrom(next, lo + Pow2(w - 1), none) && AnyTrie(next) && Part(next, root)
  {
    var mid, w' := lo + Pow2(w - 1), w - 1;
    assert Trie(t.right, mid, w');
    LeastFitIsThere(rst, nb, none);
    forall s: nat | HasSize(t.right, s) ensures mid <= s < lo + Pow2(w) && s < none {
      SizesInRange(t.right, mid, w', s);
      assert HasSize(t, s);
    }
    if t.right != Nil {
      hide HasSize, Trie, LeastFit;
      FirstIsBest(t.right, rst, nb, none, lo + Pow2(w));
    }
  }

  /** The best of the whole, once a node was looked at, is among the pick and what is left. */
  lemma BestAfterLook(root: Tree, nb: nat, none: nat, t: Tree, rst: Tree, v: Tree, rsize: nat, v': Tree, rsize': nat)
    requires t.Node? && Looked(t, nb, v, rsize, v', rsize') && t.size < none && nb + rsize <= none
    requires LeastFit(root, nb, none) == Min(nb + rsize, Min(LeastFit(t, nb, none), LeastFit(rst, nb, none)))
    ensures LeastFit(root, nb, none)
              == Min(nb + rsize', Min(Min(LeastFit(t.left, nb, none), LeastFit(t.right, nb, none)), LeastFit(rst, nb, none)))
  {
    hide LeastFit, Min, Looked;
    var own := if t.size >= nb then t.size else none;
    FitOfNode(t, nb, none);
    LookedIsMin(t, nb, none, v, rsize, v', rsize');
    MinStep(nb + rsize, own, LeastFit(t.left, nb, none), LeastFit(t.right, nb, none), LeastFit(rst, nb, none));
  }

  lemma LookedIsMin(t: Tree, nb: nat, none: nat, v: Tree, rsize: nat, v': Tree, rsize': nat)
    requires Looked(t, nb, v, rsize, v', rsize') && t.size < none && nb + rsize <= none
    ensures nb + rsize' == Min(if t.size >= nb then t.size else none, nb + rsize)
  {
  }

  lemma FitOfNode(t: Tree, nb: nat, none: nat)
    requires t.Node? && t.size < none
    ensures LeastFit(t, nb, none)
              == Min(if t.size >= nb then t.size else none, Min(LeastFit(t.left, nb, none), LeastFit(t.right, nb, none)))
  {
  }

  lemma MinStep(p: nat, own: nat, l: nat, r: nat, c: nat)
    ensures Min(p, Min(Min(own, Min(l, r)), c)) == Min(Min(own, p), Min(Min(l, r), c))
  {
  }

  lemma MinOfThree(l: nat, r: nat, c: nat)
    ensures Min(Min(l, r), c) == Min(l, Min(r, c))
  {
  }

  lemma ChildTries(t: Tree, lo: nat, w: nat)
    requires t.Node? && w > 0 && Trie(t, lo, w)
    ensures Trie(t.left, lo, w - 1) && Trie(t.right, lo + Pow2(w - 1), w - 1)
    ensures Pow2(w) == 2 * Pow2(w - 1) && t.ring != []
  {
  }

  /** Stepping to the left child keeps the right one in mind. */
  lemma DescendLeft(root: Tree, nb: nat, n: nat, t: Tree, lo: nat, w: nat, rst: Tree, v: Tree, rsize: nat, v': Tree, rsize': nat)
    requires w > 0 && Descending(root, nb, n, t, lo, w, rst, v, rsize) && Looked(t, nb, v, rsize, v', rsize')
    requires nb < lo + Pow2(w - 1) && t.Node?
    ensures Descending(root, nb, n, t.left, lo, w - 1, if t.right != Nil then t.right else rst, v', rsize')
  {
    hide HasSize, LeastFit, In, AnyTrie, Looked, Part, AllFrom, Picked, Trie, Pow2, Min;
    var none := Pow2(n);
    PickFits(root, v, rsize, nb, none);
    ChildTries(t, lo, w);
    Children(t, root, 0, none);
    LookedPicks(root, nb, none, t, v, rsize, v', rsize');
    RightComesFirst(t, root, lo, w, nb, none, rst);
    BestAfterLook(root, nb, none, t, rst, v, rsize, v', rsize');
    MinOfThree(LeastFit(t.left, nb, none), LeastFit(t.right, nb, none), LeastFit(rst, nb, none));
  }

  lemma PickFits(root: Tree, v: Tree, rsize: nat, nb: nat, none: nat)
    requires Picked(root, v, rsize, nb, none)
    ensures nb + rsize <= none
  {
  }

  /** Stepping to the right child leaves nothing behind that fits. */
  lemma DescendRight(root: Tree, nb: nat, n: nat, t: Tree, lo: nat, w: nat, rst: Tree, v: Tree, rsize: nat, v': Tree, rsize': nat)
    requires w > 0 && Descending(root, nb, n, t, lo, w, rst, v, rsize) && Looked(t, nb, v, rsize, v', rsize')
    requires nb >= lo + Pow2(w - 1) && t.Node?
    ensures Descending(root, nb, n, t.right, lo + Pow2(w - 1), w - 1, rst, v', rsize')
  {
    hide HasSize, LeastFit, In, AnyTrie, Looked, Part, AllFrom, Picked, Trie, Pow2;
    var none := Pow2(n);
    PickFits(root, v, rsize, nb, none);
    ChildTries(t, lo, w);
    Children(t, root, 0, none);
    LookedPicks(root, nb, none, t, v, rsize, v', rsize');
    LeftIsTooSmall(t, lo, w, nb, none);
    LeastFitIsThere(t.right, nb, none);
    BestAfterLook(root, nb, none, t, rst, v, rsize, v', rsize');
  }

  lemma ChildrenDiffer(t: Tree, lo: nat, w: nat)
    requires t.Node? && Trie(t, lo, w) && w > 0 && t.right.Node?
    ensures t.left != t.right
  {
    if t.left.Node? {
      assert HasSize(t.left, t.left.size) && HasSize(t.right, t.right.size);
      SizesInRange(t.left, lo, w - 1, t.left.size);
      SizesInRange(t.right, lo + Pow2(w - 1), w - 1, t.right.size);
    }
  }

  /** The unsigned comparison of the remainders only takes nodes that fit and are better. */
  lemma RemainderLooks(root: Tree, t: Tree, nb: nat, n: nat, v: Tree, rsize: nat, v': Tree, rsize': nat)
    requires t.Node? && t.size < Pow2(n) && nb < Pow2(n) && Picked(root, v, rsize, nb, Pow2(n))
    requires if Sub(t.size, nb, n) < rsize then v' == t && rsize' == Sub(t.size, nb, n) else v' == v && rsize' == rsize
    ensures Looked(t, nb, v, rsize, v', rsize')
  {
  }

  /** What the loop of the descent relies on at a node. */
  lemma AtANode(root: Tree, nb: nat, n: nat, t: Tree, lo: nat, w: nat, rst: Tree, v: Tree, rsize: nat)
    requires t.Node? && Descending(root, nb, n, t, lo, w, rst, v, rsize) && rsize > 0
    ensures AllFrom(t, 0, Pow2(n)) && t.size < Pow2(n) && t.ring != [] && Picked(root, v, rsize, nb, Pow2(n)) && Part(t, root)
    ensures w == 0 ==> t.size == nb
    ensures w > 0 && t.right.Node? ==> t.left != t.right
    ensures LeastFit(root, nb, Pow2(n)) <= nb + rsize
  {
    assert HasSize(t, t.size);
    if w > 0 && t.right.Node? {
      ChildrenDiffer(t, lo, w);
    }
  }

  /** A search in `root` that stands at a pick and has `t` left to search, which all fits, unless
      the pick fits exactly. */
  ghost predicate LeftToSearch(root: Tree, nb: nat, none: nat, t: Tree, v: Tree, rsize: nat) {
    && Picked(root, v, rsize, nb, none) && AllFrom(t, 0, none)
    && (rsize == 0 || (Part(t, root) && AllFrom(t, nb, none) && AnyTrie(t)))
    && LeastFit(root, nb, none) == if rsize == 0 then nb else Min(nb + rsize, LeastFit(t, nb, none))
  }

  lemma ExactFit(root: Tree, nb: nat, none: nat, t: Tree, v: Tree, rsize: nat, v': Tree)
    requires Looked(t, nb, v, rsize, v', 0) && rsize > 0 && Picked(root, v, rsize, nb, none)
    requires t.size < none && t.ring != [] && Part(t, root) && AllFrom(t, 0, none)
    ensures LeftToSearch(root, nb, none, t, v', 0)
  {
    LookedPicks(root, nb, none, t, v, rsize, v', 0);
    InHasSize(root, t.ring[0], nb);
    LeastFitIsLeast(root, nb, none, nb);
    LeastFitIsThere(root, nb, none);
  }

  lemma PathEnds(root: Tree, nb: nat, n: nat, lo: nat, w: nat, rst: Tree, v: Tree, rsize: nat)
    requires Descending(root, nb, n, Nil, lo, w, rst, v, rsize)
    requires rsize > 0
    ensures LeftToSearch(root, nb, Pow2(n), rst, v, rsize)
  {
    LeastFitIsThere(rst, nb, Pow2(n));
  }

  lemma DescentStarts(root: Tree, nb: nat, n: nat)
    requires 256 <= nb < Pow2(n) && n >= 32
    requires Trie(root, BinLow(TreeIndex(nb)), BinWidth(TreeIndex(nb), n)) && AllFrom(root, 0, Pow2(n))
    ensures Descending(root, nb, n, root, BinLow(TreeIndex(nb)), BinWidth(TreeIndex(nb), n), Nil, Nil, Sub(0, nb, n))
  {
    SizeFitsBin(nb, n);
    LeastFitIsThere(root, nb, Pow2(n));
    hide MinSize, TreeIndex;
    assert Trie(Nil, 0, 0);
  }

  /** The range of the child that the top bit picks. */
  ghost function ChildLow(k: nat, lo: nat, w: nat, n: nat): nat
    requires n > 0 && w > 0
  {
    if TopBit(k, n) == 1 then lo + Pow2(w - 1) else lo
  }

  lemma DescendOne(root: Tree, nb: nat, n: nat, k: nat, t: Tree, lo: nat, w: nat, rst: Tree, v: Tree, rsize: nat,
                   t': Tree, rst': Tree, v': Tree, rsize': nat)
    requires t.Node? && Key(k, nb, lo, w, n) && Descending(root, nb, n, t, lo, w, rst, v, rsize) && rsize > 0 && n > 0
    requires Looked(t, nb, v, rsize, v', rsize') && rsize' > 0
    requires t' == if TopBit(k, n) == 1 then t.right else t.left
    requires rst' == if t.right != Nil && t.right != t' then t.right else rst
    ensures w > 0 && Descending(root, nb, n, t', ChildLow(k, lo, w, n), w - 1, rst', v', rsize')
    ensures Key(NextKey(k, n), nb, ChildLow(k, lo, w, n), w - 1, n)
  {
    AtANode(root, nb, n, t, lo, w, rst, v, rsize);
    hide Descending, Key, TopBit, NextKey, Picked, LeastFit;
    KeyPicksHalf(k, nb, lo, w, n);
    if nb < lo + Pow2(w - 1) {
      DescendLeft(root, nb, n, t, lo, w, rst, v, rsize, v', rsize');
    } else {
      DescendRight(root, nb, n, t, lo, w, rst, v, rsize, v', rsize');
    }
  }

  // ---- The smallest of a trie ----

  /** leftmost_child. */
  function LeftmostChild(t: Tree): Tree
    requires t.Node?
  {
    if t.left != Nil then t.left else t.right
  }

  /** The state of the walk to the smallest chunk: everything below fits. */
  ghost predicate Walking(root: Tree, nb: nat, none: nat, best: nat, t: Tree, v: Tree, rsize: nat) {
    && Part(t, root) && AllFrom(t, nb, none) && AnyTrie(t) && Picked(root, v, rsize, nb, none)
    && best == Min(nb + rsize, LeastFit(t, nb, none))
  }

  /** The smallest is the node itself or in its leftmost child. */
  lemma LeftmostHasBest(t: Tree, nb: nat, none: nat)
    requires t.Node? && AnyTrie(t) && AllFrom(t, nb, none)
    ensures AnyTrie(LeftmostChild(t)) && nb <= t.size < none && t.ring != []
    ensures LeastFit(t, nb, none) == Min(t.size, LeastFit(LeftmostChild(t), nb, none))
  {
    var lo: nat, w: nat :| Trie(t, lo, w);
    Children(t, t, nb, none);
    LeastFitIsThere(t.left, nb, none);
    LeastFitIsThere(t.right, nb, none);
    assert HasSize(t, t.size);
    FitOfNode(t, nb, none);
    NilLeft(t, nb, none);
    hide LeastFit;
    if w == 0 {
      assert Trie(Nil, 0, 0);
    } else {
      var mid, w' := lo + Pow2(w - 1), w - 1;
      assert Trie(t.left, lo, w') && Trie(t.right, mid, w');
      if t.left != Nil {
        LeftBeforeRight(t, lo, w', nb, none);
      }
    }
  }

  lemma LeftBeforeRight(t: Tree, lo: nat, w: nat, nb: nat, none: nat)
    requires t.Node? && t.left.Node? && AllFrom(t, nb, none)
    requires Trie(t.left, lo, w) && Trie(t.right, lo + Pow2(w), w)
    ensures Min(LeastFit(t.left, nb, none), LeastFit(t.right, nb, none)) == LeastFit(t.left, nb, none)
  {
    var mid := lo + Pow2(w);
    Children(t, t, nb, none);
    forall s: nat | HasSize(t.left, s) ensures nb <= s < mid {
      SizesInRange(t.left, lo, w, s);
    }
    forall s: nat | HasSize(t.right, s) ensures mid <= s {
      SizesInRange(t.right, mid, w, s);
    }
    FirstIsBest(t.left, t.right, nb, none, mid);
  }

  lemma WalkOne(root: Tree, nb: nat, none: nat, best: nat, t: Tree, v: Tree, rsize: nat, v': Tree, rsize': nat)
    requires Walking(root, nb, none, best, t, v, rsize) && Looked(t, nb, v, rsize, v', rsize')
    ensures Walking(root, nb, none, best, LeftmostChild(t), v', rsize')
  {
    Children(t, root, nb, none);
    LeftmostHasBest(t, nb, none);
    LookedPicks(root, nb, none, t, v, rsize, v', rsize');
    hide LeastFit, HasSize, In, AnyTrie, Part, AllFrom, Picked;
  }

  lemma WalkEnds(root: Tree, nb: nat, none: nat, best: nat, v: Tree, rsize: nat)
    requires Walking(root, nb, none, best, Nil, v, rsize)
    ensures Picked(root, v, rsize, nb, none) && nb + rsize == best
  {
  }

  // ---- The searches over all bins ----

  /** `v` is the best fit of all bins, or nothing fits. */
  ghost predicate Best(bins: seq<Tree>, nb: nat, n: nat, v: Tree, rsize: nat)
    requires |bins| == BINS
  {
    && (v == Nil ==> nb + rsize == Pow2(n))
    && (v != Nil ==> v.size == nb + rsize < Pow2(n) && v.size >= 256 && v.ring != []
                     && TreeIndex(v.size) < BINS && Leads(bins[TreeIndex(v.size)], v.ring[0], v.size))
    && forall i: nat, s: nat :: i < BINS && HasSize(bins[i], s) && s >= nb ==> v != Nil && v.size <= s
  }

  /** The first bin where something fits has the best fit of all. */
  lemma FirstBinIsBest(bins: seq<Tree>, treemap: nat, n: nat, nb: nat, i: nat, v: Tree, rsize: nat)
    requires LargeBins(bins, treemap, n) && i < BINS && v != Nil && Picked(bins[i], v, rsize, nb, Pow2(n))
    requires nb + rsize == LeastFit(bins[i], nb, Pow2(n))
    requires forall j: nat, s: nat :: j < i && HasSize(bins[j], s) ==> s < nb
    ensures Best(bins, nb, n, v, rsize)
  {
    assert LargeBin(bins[i], treemap, i, n);
    InHasSize(bins[i], v.ring[0], v.size);
    forall j: nat, s: nat | j < BINS && HasSize(bins[j], s) && s >= nb ensures v.size <= s {
      assert LargeBin(bins[j], treemap, j, n);
      if j == i {
        LeastFitIsLeast(bins[i], nb, Pow2(n), s);
      } else {
        BinsAreOrdered(v.size, s);
      }
    }
  }

  /** Bins before the bin of nb hold nothing that fits. */
  lemma EarlierBinsAreTooSmall(bins: seq<Tree>, treemap: nat, n: nat, nb: nat, j: nat, s: nat)
    requires LargeBins(bins, treemap, n) && nb >= 256 && j < BINS && j < TreeIndex(nb) && HasSize(bins[j], s)
    ensures s < nb
  {
    assert LargeBin(bins[j], treemap, j, n);
    BinsAreOrdered(s, nb);
  }

  /** Everything in a later bin fits. */
  lemma LaterBinFits(bins: seq<Tree>, treemap: nat, n: nat, nb: nat, i: nat)
    requires LargeBins(bins, treemap, n) && i < BINS && (nb < 256 || TreeIndex(nb) < i)
    ensures Part(bins[i], bins[i]) && AllFrom(bins[i], nb, Pow2(n)) && AllFrom(bins[i], 0, Pow2(n)) && AnyTrie(bins[i])
  {
    assert LargeBin(bins[i], treemap, i, n);
    forall s: nat | HasSize(bins[i], s) ensures nb <= s < Pow2(n) {
      if nb >= 256 {
        BinsAreOrdered(nb, s);
      }
    }
  }

  /** Where the search stands before the last walk: bin `i` is the first in which something may fit,
      and if nothing is left to search there, no bin has a fit. */
  ghost predicate Narrowed(bins: seq<Tree>, nb: nat, n: nat, i: nat, t: Tree, v: Tree, rsize: nat)
    requires |bins| == BINS
  {
    && i < BINS && nb < Pow2(n) && LeftToSearch(bins[i], nb, Pow2(n), t, v, rsize)
    && (forall j: nat, s: nat :: j < i && HasSize(bins[j], s) ==> s < nb)
    && (v == Nil && t == Nil ==> forall j: nat, s: nat :: j < BINS && HasSize(bins[j], s) ==> s < nb)
  }

  /** No later bin is marked. */
  lemma NoLaterBin(bins: seq<Tree>, treemap: nat, n: nat, nb: nat)
    requires LargeBins(bins, treemap, n) && 256 <= nb < Pow2(n) && TreeIndex(nb) < BINS
    requires forall s: nat :: HasSize(bins[TreeIndex(nb)], s) ==> s < nb
    requires LaterBins(treemap, TreeIndex(nb)) == 0
    ensures Narrowed(bins, nb, n, TreeIndex(nb), Nil, Nil, Pow2(n) - nb)
  {
    hide LaterBins, TreeIndex, HasSize, Trie, In, LeastFit, AnyTrie, Pow2, Part, AllFrom;
    var idx := TreeIndex(nb);
    FirstLaterBin(treemap, idx);
    EmptyUntil(bins, treemap, n, nb, idx, BINS);
    NothingFits(bins[idx], nb, Pow2(n));
    NilLeft(bins[idx], nb, Pow2(n));
  }

  lemma NilLeft(root: Tree, nb: nat, none: nat)
    ensures LeastFit(Nil, nb, none) == none && Part(Nil, root) && AllFrom(Nil, nb, none) && AllFrom(Nil, 0, none) && AnyTrie(Nil)
  {
    assert Trie(Nil, 0, 0);
  }

  /** Moving on to the next bin that is marked. */
  lemma NextBin(bins: seq<Tree>, treemap: nat, n: nat, nb: nat)
    requires LargeBins(bins, treemap, n) && 256 <= nb < Pow2(n) && TreeIndex(nb) < BINS
    requires forall s: nat :: HasSize(bins[TreeIndex(nb)], s) ==> s < nb
    requires LaterBins(treemap, TreeIndex(nb)) != 0
    ensures var later := LaterBins(treemap, TreeIndex(nb));
            later < WORDS && LeastBit(later) > 0 &&
            var i := BitToIdx(LeastBit(later));
            i < BINS && Narrowed(bins, nb, n, i, bins[i], Nil, Pow2(n) - nb)
  {
    FirstLaterBin(treemap, TreeIndex(nb));
    hide TreeIndex, LaterBins, LeastBit, BitToIdx, Narrowed;
    NextBinIs(bins, treemap, n, nb, TreeIndex(nb), BitToIdx(LeastBit(LaterBins(treemap, TreeIndex(nb)))));
  }

  lemma NextBinIs(bins: seq<Tree>, treemap: nat, n: nat, nb: nat, idx: nat, i: nat)
    requires LargeBins(bins, treemap, n) && 256 <= nb < Pow2(n) && idx == TreeIndex(nb) < i < BINS
    requires forall s: nat :: HasSize(bins[idx], s) ==> s < nb
    requires Has(treemap, i) && forall j: nat :: idx < j < i ==> !Has(treemap, j)
    ensures Narrowed(bins, nb, n, i, bins[i], Nil, Pow2(n) - nb)
  {
    hide TreeIndex, HasSize, Trie, In, LeastFit, AnyTrie, Pow2, Part, AllFrom;
    EmptyUntil(bins, treemap, n, nb, idx, i);
    LaterBinFits(bins, treemap, n, nb, i);
    LeastFitIsThere(bins[i], nb, Pow2(n));
    assert LargeBin(bins[i], treemap, i, n);
  }

  /** With no bin marked between the bin of nb and `end`, nothing before `end` fits. */
  lemma EmptyUntil(bins: seq<Tree>, treemap: nat, n: nat, nb: nat, idx: nat, end: nat)
    requires LargeBins(bins, treemap, n) && nb >= 256 && idx == TreeIndex(nb) < end <= BINS
    requires forall s: nat :: HasSize(bins[idx], s) ==> s < nb
    requires forall j: nat :: idx < j < end ==> !Has(treemap, j)
    ensures forall j: nat, s: nat :: j < end && HasSize(bins[j], s) ==> s < nb
  {
    forall j: nat, s: nat | j < end && HasSize(bins[j], s) ensures s < nb {
      assert LargeBin(bins[j], treemap, j, n);
      if j < idx {
        EarlierBinsAreTooSmall(bins, treemap, n, nb, j, s);
      }
    }
  }

  /** After the descent in the bin of nb. */
  lemma InOwnBin(bins: seq<Tree>, treemap: nat, n: nat, nb: nat, t: Tree, v: Tree, rsize: nat)
    requires LargeBins(bins, treemap, n) && 256 <= nb < Pow2(n) && TreeIndex(nb) < BINS
    requires LeftToSearch(bins[TreeIndex(nb)], nb, Pow2(n), t, v, rsize)
    ensures t != Nil || v != Nil ==> Narrowed(bins, nb, n, TreeIndex(nb), t, v, rsize)
    ensures t == Nil && v == Nil ==>
              rsize == Pow2(n) - nb && forall s: nat :: HasSize(bins[TreeIndex(nb)], s) ==> s < nb
  {
    var idx := TreeIndex(nb);
    forall j: nat, s: nat | j < idx && HasSize(bins[j], s) ensures s < nb {
      EarlierBinsAreTooSmall(bins, treemap, n, nb, j, s);
    }
    if t == Nil && v == Nil {
      forall s: nat | HasSize(bins[idx], s) ensures s < nb {
        assert LargeBin(bins[idx], treemap, idx, n);
        if s >= nb {
          LeastFitIsLeast(bins[idx], nb, Pow2(n), s);
        }
      }
    }
  }

  lemma Searched(bins: seq<Tree>, treemap: nat, n: nat, nb: nat, i: nat, t: Tree, v0: Tree, rsize0: nat, v: Tree, rsize: nat)
    requires LargeBins(bins, treemap, n) && Narrowed(bins, nb, n, i, t, v0, rsize0)
    requires Picked(bins[i], v, rsize, nb, Pow2(n)) && nb + rsize == LeastFit(bins[i], nb, Pow2(n))
    ensures Best(bins, nb, n, v, rsize)
  {
    if v != Nil {
      FirstBinIsBest(bins, treemap, n, nb, i, v, rsize);
    } else if t != Nil {
      assert HasSize(t, t.size);
      LeastFitIsLeast(t, nb, Pow2(n), t.size);
    }
  }

  lemma OwnBin(bins: seq<Tree>, treemap: nat, n: nat, nb: nat)
    requires LargeBins(bins, treemap, n) && 256 <= nb < Pow2(n)
    ensures var idx := TreeIndex(nb);
            |bins| == BINS && treemap < WORDS && n >= 32
            && idx < BINS && Trie(bins[idx], BinLow(idx), BinWidth(idx, n)) && AllFrom(bins[idx], 0, Pow2(n))
            && Picked(bins[idx], Nil, Pow2(n) - nb, nb, Pow2(n))
  {
    SizeFitsBin(nb, n);
    assert LargeBin(bins[TreeIndex(nb)], treemap, TreeIndex(nb), n);
  }

  lemma NilLeftToSearch(nb: nat, none: nat)
    requires nb < none
    ensures LeftToSearch(Nil, nb, none, Nil, Nil, none - nb)
  {
    NilLeft(Nil, nb, none);
  }

  lemma NoneBefore(bins: seq<Tree>, treemap: nat, n: nat, nb: nat, i: nat)
    requires LargeBins(bins, treemap, n) && i < BINS && forall j: nat :: j < i ==> !Has(treemap, j)
    ensures forall j: nat, s: nat :: j < i && HasSize(bins[j], s) ==> s < nb
  {
    forall j: nat | j < i ensures forall s: nat :: !HasSize(bins[j], s) {
      assert LargeBin(bins[j], treemap, j, n);
    }
  }
}
