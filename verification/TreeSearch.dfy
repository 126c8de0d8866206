/** The searches of tmalloc_large and tmalloc_small along the links of the large bins. */
module TreeSearch {
  import opened BestFit
  import opened BinMaps
  import opened BitStrings
  import opened SizeBins
  import opened SizeTrie
  import opened TrieLinks

  // ---- Pointers and the tries they stand for ----

  /** The chunk pointer `x` stands for the trie `t` of bin `i`; null for none. */
  ghost predicate Points(m: Cells, x: nat, t: Tree, i: nat) {
    if t == Nil then x == 0 else exists p: Parent :: Spells(m, x, p, t, i)
  }

  /** The chunk on top of a trie. */
  function Top(t: Tree): nat {
    if t == Nil || t.ring == [] then 0 else t.ring[0]
  }

  lemma PointsAt(m: Cells, x: nat, t: Tree, i: nat)
    requires Points(m, x, t, i)
    ensures x == Top(t) && (x == 0 <==> t == Nil)
    ensures t.Node? ==>
      && x in m && m[x].size == t.size && t.ring != []
      && Points(m, m[x].left, t.left, i) && Points(m, m[x].right, t.right, i)
      && (m[x].left == 0 <==> t.left == Nil) && (m[x].right == 0 <==> t.right == Nil)
  {
    if t.Node? {
      var p :| Spells(m, x, p, t, i);
      HeadIsThere(m, x, p, t, i);
      if t.left.Node? { HeadIsThere(m, m[x].left, Above(x), t.left, i); }
      if t.right.Node? { HeadIsThere(m, m[x].right, Above(x), t.right, i); }
    }
  }

  /** The children of a chunk are different chunks. */
  lemma ChildrenApart(m: Cells, x: nat, t: Tree, i: nat, lo: nat, w: nat)
    requires Points(m, x, t, i) && t.Node? && Trie(t, lo, w) && t.right.Node?
    ensures x in m && m[x].left != m[x].right
  {
    PointsAt(m, x, t, i);
    if t.left.Node? {
      PointsAt(m, m[x].left, t.left, i);
      PointsAt(m, m[x].right, t.right, i);
      assert HasSize(t.left, t.left.size) && HasSize(t.right, t.right.size);
      SizesInRange(t.left, lo, w - 1, t.left.size);
      SizesInRange(t.right, lo + Pow2(w - 1), w - 1, t.right.size);
    }
  }

  ghost predicate RootOk(cells: Cells, roots: seq<nat>, trees: seq<Tree>, i: nat)
    requires i < |roots| && i < |trees|
  {
    Spells(cells, roots[i], Header(i), trees[i], i)
  }

  /** The bins' headers lead to the tries. */
  ghost predicate RootsOk(cells: Cells, roots: seq<nat>, trees: seq<Tree>) {
    |roots| == |trees| == BINS && forall i: nat :: i < BINS ==> RootOk(cells, roots, trees, i)
  }

  /** leftmost_child. */
  function LeftmostOf(m: Cells, x: nat): nat
    requires x in m
  {
    if m[x].left != 0 then m[x].left else m[x].right
  }

  // ---- tmalloc_large ----

  /** The first loop of tmalloc_large: down the path of nb in the bin of nb, with the deepest right
      child not taken kept in `rst`. It ends on an exact fit, or with what is left to search. */
  method Descend(m: Cells, root: nat, nb: nat, n: nat, ghost tree: Tree)
    returns (t: nat, v: nat, rsize: nat, ghost rest: Tree, ghost pick: Tree)
    requires 256 <= nb < Pow2(n) && n >= 32 && tree.Node? && Points(m, root, tree, TreeIndex(nb))
    requires Trie(tree, BinLow(TreeIndex(nb)), BinWidth(TreeIndex(nb), n)) && AllFrom(tree, 0, Pow2(n))
    ensures LeftToSearch(tree, nb, Pow2(n), rest, pick, rsize) && Points(m, t, rest, TreeIndex(nb)) && v == Top(pick)
  {
    var i := TreeIndex(nb);
    StartKey(nb, n);
    DescentStarts(tree, nb, n);
    assert Sub(0, nb, n) > 0;
    hide *;
    var sizebits: nat := Low(Shl(nb, LeftShift(i, n)), n);
    var rst: nat := 0;
    ghost var cur, right := tree, Nil;
    ghost var lo, w := BinLow(i), BinWidth(i, n);
    t, v, rsize := root, 0, Sub(0, nb, n);
    pick := Nil;
    NothingPoints(m, i);
    while true
      invariant cur.Node? && Key(sizebits, nb, lo, w, n) && rsize > 0
      invariant Descending(tree, nb, n, cur, lo, w, right, pick, rsize)
      invariant Points(m, t, cur, i) && Points(m, rst, right, i) && v == Top(pick)
      decreases cur
    {
      AtANode(tree, nb, n, cur, lo, w, right, pick, rsize);
      TrieOf(tree, nb, n, cur, lo, w, right, pick, rsize);
      PointsAt(m, t, cur, i);
      if cur.right.Node? { ChildrenApart(m, t, cur, i, lo, w); }
      var trem := Sub(m[t].size, nb, n);
      ghost var pick0, rsize0 := pick, rsize;
      if trem < rsize {
        v, rsize := t, trem;
        pick := cur;
      }
      RemainderLooks(tree, cur, nb, n, pick0, rsize0, pick, rsize);
      if rsize == 0 {
        ExactFit(tree, nb, Pow2(n), cur, pick0, rsize0, pick);
        rest := cur;
        return;
      }
      ghost var cur0, right0 := cur, right;
      var rt := m[t].right;
      t := if TopBit(sizebits, n) == 1 then m[t].right else m[t].left;
      cur := if TopBit(sizebits, n) == 1 then cur.right else cur.left;
      if rt != 0 && rt != t {
        rst := rt;
        right := cur0.right;
      }
      DescendOne(tree, nb, n, sizebits, cur0, lo, w, right0, pick0, rsize0, cur, right, pick, rsize);
      lo, w := ChildLow(sizebits, lo, w, n), w - 1;
      PointsAt(m, t, cur, i);
      if t == 0 {
        PathEnds(tree, nb, n, lo, w, right, pick, rsize);
        t := rst;
        rest := right;
        return;
      }
      sizebits := NextKey(sizebits, n);
    }
  }

  lemma NothingPoints(m: Cells, i: nat)
    ensures Points(m, 0, Nil, i) && Top(Nil) == 0
  {
  }

  lemma TrieOf(root: Tree, nb: nat, n: nat, t: Tree, lo: nat, w: nat, rst: Tree, v: Tree, rsize: nat)
    requires Descending(root, nb, n, t, lo, w, rst, v, rsize)
    ensures Trie(t, lo, w)
  {
  }

  /** The second loop of tmalloc_large: unless the fit is exact already, down the leftmost children
      of what is left to search. */
  method WalkLeft(m: Cells, start: nat, first: nat, remainder: nat, nb: nat, n: nat, ghost i: nat,
                  ghost tree: Tree, ghost rest: Tree, ghost pick0: Tree)
    returns (v: nat, rsize: nat, ghost pick: Tree)
    requires nb < Pow2(n) && LeftToSearch(tree, nb, Pow2(n), rest, pick0, remainder)
    requires Points(m, start, rest, i) && first == Top(pick0)
    ensures Picked(tree, pick, rsize, nb, Pow2(n)) && nb + rsize == LeastFit(tree, nb, Pow2(n)) && v == Top(pick)
  {
    var t := start;
    v, rsize := first, remainder;
    ghost var cur, none := rest, Pow2(n);
    pick := pick0;
    ghost var best := Min(nb + remainder, LeastFit(rest, nb, none));
    assert remainder > 0 ==> Walking(tree, nb, none, best, cur, pick, rsize);
    PointsAt(m, t, cur, i);
    while t != 0
      invariant AllFrom(cur, 0, none) && (remainder == 0 ==> pick == pick0 && rsize == 0)
      invariant remainder > 0 ==> Walking(tree, nb, none, best, cur, pick, rsize)
      invariant Points(m, t, cur, i) && v == Top(pick) && (t == 0 <==> cur == Nil)
      decreases cur
    {
      hide Points, LeastFit, Walking, In, HasSize, Picked, Trie, Spells;
      PointsAt(m, t, cur, i);
      Children(cur, cur, 0, none);
      var trem := Sub(m[t].size, nb, n);
      ghost var was, rsize0 := pick, rsize;
      if trem < rsize {
        v, rsize := t, trem;
        pick := cur;
      }
      if remainder > 0 {
        WalkPicks(tree, nb, none, best, cur, was, rsize0);
        RemainderLooks(tree, cur, nb, n, was, rsize0, pick, rsize);
        WalkOne(tree, nb, none, best, cur, was, rsize0, pick, rsize);
      }
      t := LeftmostOf(m, t);
      cur := LeftmostChild(cur);
      PointsAt(m, t, cur, i);
    }
  }

  lemma WalkPicks(root: Tree, nb: nat, none: nat, best: nat, t: Tree, v: Tree, rsize: nat)
    requires Walking(root, nb, none, best, t, v, rsize)
    ensures Picked(root, v, rsize, nb, none)
  {
  }

  /** The next bin that is marked, if there is one. */
  method LaterBin(m: Cells, roots: seq<nat>, treemap: nat, nb: nat, n: nat, ghost trees: seq<Tree>)
    returns (t: nat, ghost i: nat, ghost rest: Tree)
    requires LargeBins(trees, treemap, n) && RootsOk(m, roots, trees) && 256 <= nb < Pow2(n)
    requires TreeIndex(nb) < BINS == |trees| && forall s: nat :: HasSize(trees[TreeIndex(nb)], s) ==> s < nb
    ensures Narrowed(trees, nb, n, i, rest, Nil, Pow2(n) - nb) && Points(m, t, rest, i)
  {
    OwnBin(trees, treemap, n, nb);
    hide *;
    var idx := TreeIndex(nb);
    t, i, rest := 0, idx, Nil;
    NothingPoints(m, idx);
    var leftbits := LaterBins(treemap, idx);
    if leftbits == 0 {
      NoLaterBin(trees, treemap, n, nb);
    } else {
      NextBin(trees, treemap, n, nb);
      var later := BitToIdx(LeastBit(leftbits));
      RootPoints(m, roots, trees, later);
      t, i, rest := roots[later], later, trees[later];
    }
  }

  /** The bin of nb, and if nothing fits there the next bin that is marked. */
  method Narrow(m: Cells, roots: seq<nat>, treemap: nat, nb: nat, n: nat, ghost trees: seq<Tree>)
    returns (t: nat, v: nat, rsize: nat, ghost i: nat, ghost rest: Tree, ghost pick: Tree)
    requires LargeBins(trees, treemap, n) && RootsOk(m, roots, trees) && 256 <= nb < Pow2(n)
    ensures Narrowed(trees, nb, n, i, rest, pick, rsize) && Points(m, t, rest, i) && v == Top(pick)
  {
    OwnBin(trees, treemap, n, nb);
    hide *;
    i := TreeIndex(nb);
    var idx := TreeIndex(nb);
    RootPoints(m, roots, trees, idx);
    PointsAt(m, roots[idx], trees[idx], idx);
    t := roots[idx];
    v, rsize := 0, Sub(0, nb, n);
    rest, pick := trees[idx], Nil;
    NothingPoints(m, idx);
    if t != 0 {
      t, v, rsize, rest, pick := Descend(m, t, nb, n, rest);
    } else {
      NilLeftToSearch(nb, Pow2(n));
      MinusIs(nb, n);
    }
    InOwnBin(trees, treemap, n, nb, rest, pick, rsize);
    PointsAt(m, t, rest, idx);
    PickIsThere(m, roots[idx], trees[idx], idx, nb, n, rest, pick, rsize);
    if t == 0 && v == 0 {
      t, i, rest := LaterBin(m, roots, treemap, nb, n, trees);
    }
  }

  lemma MinusIs(nb: nat, n: nat)
    requires 0 < nb < Pow2(n)
    ensures Sub(0, nb, n) == Pow2(n) - nb
  {
  }

  lemma RootPoints(m: Cells, roots: seq<nat>, trees: seq<Tree>, i: nat)
    requires RootsOk(m, roots, trees) && i < BINS
    ensures |roots| == |trees| == BINS && Points(m, roots[i], trees[i], i)
  {
    assert RootOk(m, roots, trees, i);
  }

  /** What is picked is a chunk, so its address is not null. */
  lemma PickIsThere(m: Cells, x: nat, root: Tree, i: nat, nb: nat, n: nat, t: Tree, v: Tree, rsize: nat)
    requires Points(m, x, root, i) && LeftToSearch(root, nb, Pow2(n), t, v, rsize)
    ensures Top(v) == 0 <==> v == Nil
  {
    if v != Nil {
      var p :| Spells(m, x, p, root, i);
      SpelledCell(m, x, p, root, i, v.ring[0], v.size);
    }
  }

  lemma BestIsThere(m: Cells, roots: seq<nat>, trees: seq<Tree>, nb: nat, n: nat, v: Tree, rsize: nat)
    requires RootsOk(m, roots, trees) && Best(trees, nb, n, v, rsize)
    ensures Top(v) == 0 <==> v == Nil
  {
    if v != Nil {
      var i := TreeIndex(v.size);
      assert RootOk(m, roots, trees, i);
      SpelledCell(m, roots[i], Header(i), trees[i], i, v.ring[0], v.size);
    }
  }

  /** tmalloc_large up to the point where it compares with the designated victim: the best fit of
      all bins. */
  method SearchLarge(m: Cells, roots: seq<nat>, treemap: nat, nb: nat, n: nat, ghost trees: seq<Tree>)
    returns (v: nat, rsize: nat, ghost pick: Tree)
    requires LargeBins(trees, treemap, n) && RootsOk(m, roots, trees) && 256 <= nb < Pow2(n)
    ensures Best(trees, nb, n, pick, rsize) && v == Top(pick) && (v == 0 <==> pick == Nil)
  {
    hide LargeBin, Best, RootsOk, Points;
    ghost var i, rest;
    var t;
    t, v, rsize, i, rest, pick := Narrow(m, roots, treemap, nb, n, trees);
    ghost var pick0, rsize0 := pick, rsize;
    v, rsize, pick := WalkLeft(m, t, v, rsize, nb, n, i, trees[i], rest, pick);
    Searched(trees, treemap, n, nb, i, rest, pick0, rsize0, pick, rsize);
    BestIsThere(m, roots, trees, nb, n, pick, rsize);
  }

  // ---- tmalloc_small ----

  /** tmalloc_small up to the split: the smallest chunk of all large bins. */
  method SearchSmall(m: Cells, roots: seq<nat>, treemap: nat, nb: nat, n: nat, ghost trees: seq<Tree>)
    returns (v: nat, rsize: nat, ghost pick: Tree)
    requires LargeBins(trees, treemap, n) && RootsOk(m, roots, trees) && 0 < nb < 256 && treemap > 0
    ensures Best(trees, nb, n, pick, rsize) && pick != Nil && v == Top(pick) && v != 0
  {
    LeastBitIsFirst(treemap);
    var i := BitToIdx(LeastBit(treemap));
    assert LargeBin(trees[i], treemap, i, n);
    assert HasSize(trees[i], trees[i].size);
    LaterBinFits(trees, treemap, n, nb, i);
    NoneBefore(trees, treemap, n, nb, i);
    RootPoints(m, roots, trees, i);
    hide *;
    v, rsize, pick := SmallestOf(m, roots[i], nb, n, i, trees[i]);
    FirstBinIsBest(trees, treemap, n, nb, i, pick, rsize);
    BestIsThere(m, roots, trees, nb, n, pick, rsize);
  }

  /** The loop of tmalloc_small: from the root down the leftmost children. */
  method SmallestOf(m: Cells, root: nat, nb: nat, n: nat, ghost i: nat, ghost tree: Tree)
    returns (v: nat, rsize: nat, ghost pick: Tree)
    requires tree.Node? && nb < Pow2(n) && AllFrom(tree, nb, Pow2(n)) && AnyTrie(tree) && Points(m, root, tree, i)
    ensures pick != Nil && Picked(tree, pick, rsize, nb, Pow2(n)) && nb + rsize == LeastFit(tree, nb, Pow2(n)) && v == Top(pick)
  {
    ghost var none, best := Pow2(n), LeastFit(tree, nb, Pow2(n));
    LeastFitIsThere(tree, nb, none);
    LeftmostHasBest(tree, nb, none);
    WalkOne(tree, nb, none, best, tree, Nil, none - nb, tree, tree.size - nb);
    PointsAt(m, root, tree, i);
    v, rsize := root, m[root].size - nb;
    var t := LeftmostOf(m, root);
    ghost var cur := LeftmostChild(tree);
    pick := tree;
    PointsAt(m, t, cur, i);
    hide *;
    while t != 0
      invariant pick != Nil && Walking(tree, nb, none, best, cur, pick, rsize)
      invariant Points(m, t, cur, i) && v == Top(pick) && (t == 0 <==> cur == Nil)
      decreases cur
    {
      PointsAt(m, t, cur, i);
      WalkFits(tree, nb, none, best, cur, pick, rsize);
      var trem := m[t].size - nb;
      ghost var was, rsize0 := pick, rsize;
      if trem < rsize {
        v, rsize := t, trem;
        pick := cur;
      }
      LookedIs(cur, nb, was, rsize0, pick, rsize);
      WalkOne(tree, nb, none, best, cur, was, rsize0, pick, rsize);
      LeftmostIs(m, t, cur);
      t := LeftmostOf(m, t);
      cur := LeftmostChild(cur);
      PointsAt(m, t, cur, i);
    }
    WalkEnds(tree, nb, none, best, pick, rsize);
  }

  lemma LookedIs(t: Tree, nb: nat, v: Tree, rsize: nat, v': Tree, rsize': nat)
    requires t.Node? && t.size >= nb
    requires if t.size - nb < rsize then v' == t && rsize' == t.size - nb else v' == v && rsize' == rsize
    ensures Looked(t, nb, v, rsize, v', rsize')
  {
  }

  lemma LeftmostIs(m: Cells, x: nat, t: Tree)
    requires x in m && t.Node? && (m[x].left == 0 <==> t.left == Nil)
    ensures LeftmostOf(m, x) == if t.left != Nil then m[x].left else m[x].right
    ensures LeftmostChild(t) == if t.left != Nil then t.left else t.right
    ensures LeftmostChild(t) == Nil || LeftmostChild(t) < t
  {
  }

  lemma WalkFits(root: Tree, nb: nat, none: nat, best: nat, t: Tree, v: Tree, rsize: nat)
    requires Walking(root, nb, none, best, t, v, rsize) && t.Node?
    ensures t.size >= nb && t.ring != []
  {
    LeftmostHasBest(t, nb, none);
  }
}
