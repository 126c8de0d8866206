/** The large bins with their links: insert_large_chunk and unlink_large_chunk as they run, field by
    field, proved to do to the tries what SizeTrie says. */
module TreeBins {
  import opened BestFit
  import opened BinMaps
  import opened BitStrings
  import opened HeapBins
  import opened SizeBins
  import opened SizeTrie
  import opened TreeSearch
  import opened TrieLinks
  import opened TrieUnlink

  function NoTries(): (s: seq<Tree>)
    ensures |s| == BINS
  {
    seq(BINS, _ => Nil)
  }

  /** A free chunk of `s` bytes as it comes to bin `i`, without children. What its other links held
      does not matter. */
  function NewCell(s: nat, i: nat): Cell {
    Cell(s, i, 0, 0, Null, 0, 0)
  }

  /** No chunk has another size. */
  ghost predicate SameHeads(m: Cells, m': Cells) {
    m'.Keys == m.Keys && forall b :: b in m ==> m'[b].size == m[b].size
  }

  lemma HeadsStay(m: Cells, m': Cells, m'': Cells)
    requires SameHeads(m, m') && SameHeads(m', m'')
    ensures SameHeads(m, m'')
  {
  }

  class TreeBins {
    /** Bits of a size_t. */
    const n: nat
    var cells: Cells
    /** treebins and treemap. */
    var roots: seq<nat>
    var treemap: nat
    /** The tries that the links spell. */
    ghost var trees: seq<Tree>

    ghost function Now(): Bins
      reads this
    {
      Bins(0, NoRings(), treemap, trees)
    }

    ghost predicate Valid()
      reads this
    {
      BinsOk(Now(), n) && RootsOk(cells, roots, trees)
    }

    /** insert_large_chunk. */
    method InsertLargeChunk(x: nat, s: nat)
      requires Valid() && x != 0 && 256 <= s < Pow2(n)
      requires forall i: nat, z: nat :: i < BINS ==> !In(trees[i], x, z)
      modifies this
      ensures Valid() && TreeIndex(s) < BINS && Now() == InsertLarge(old(Now()), x, s, n)
      ensures SameHeads(old(cells)[x := NewCell(s, TreeIndex(s))], cells)
    {
      var i := TreeIndex(s);
      ghost var b := Now();
      NotInBins(b, x, s);
      InsertLargeAdds(b, n, x, s);
      BinOf(b, n, s);
      hide *;
      cells := cells[x := NewCell(s, i)];
      Prepared(old(cells), cells, roots, trees, x, i, s);
      ghost var m := cells;
      if !Has(treemap, i) {
        treemap := Mark(treemap, i);
        roots := roots[i := x];
        cells := cells[x := cells[x].(parent := Header(i))];
        cells := cells[x := cells[x].(fd := x, bk := x)];
        FirstOfBin(m, cells, old(roots), trees, x, i, s);
        trees := trees[i := Node(s, [x], Nil, Nil)];
      } else {
        LinkAtPlace(x, s, i);
        PlacedInBin(m, roots, trees, BinLow(i), BinWidth(i, n), x, i, s);
        trees := trees[i := Insert(trees[i], BinLow(i), BinWidth(i, n), x, s)];
      }
      InsertedIs(b, Now(), x, s, n);
    }

    /** The loop that walks down to the chunk's place and links it there. */
    method LinkAtPlace(x: nat, s: nat, i: nat)
      requires i < BINS && |roots| == |trees| == BINS && i == TreeIndex(s) && 256 <= s < Pow2(n) && n >= 32
      requires RootOk(cells, roots, trees, i) && trees[i].Node? && Trie(trees[i], BinLow(i), BinWidth(i, n))
      requires Fresh(cells, trees[i], x, s, i)
      modifies `cells
      ensures Inserts(old(cells), roots[i], Header(i), trees[i], i, BinLow(i), BinWidth(i, n), x, s)
      ensures cells == Put(old(cells), PlaceFor(trees[i], BinLow(i), BinWidth(i, n), s), x)
    {
      StartKey(s, n);
      ghost var m, cur, q := cells, trees[i], Header(i);
      ghost var lo: nat, w: nat := BinLow(i), BinWidth(i, n);
      PutInserts(cells, roots[i], q, cur, i, lo, w, x, s);
      PlaceIsThere(cells, roots[i], q, cur, i, lo, w, s);
      assert x in cells;
      hide *;
      var t: nat := roots[i];
      var k: nat := Low(Shl(s, LeftShift(i, n)), n);
      while true
        invariant cells == m && Descends(m, t, q, cur, i, lo, w, s, k, n)
        invariant PlaceFor(cur, lo, w, s) == PlaceFor(trees[i], BinLow(i), BinWidth(i, n), s)
        decreases cur
      {
        DescendStep(m, t, q, cur, i, lo, w, s, k, n);
        if cells[t].size != s {
          var right := TopBit(k, n) == 1;
          var c := if right then cells[t].right else cells[t].left;
          k := NextKey(k, n);
          if c != 0 {
            cur, q, lo, w := if right then cur.right else cur.left, Above(t), if right then lo + Pow2(w - 1) else lo, w - 1;
            t := c;
          } else {
            cells := cells[t := if right then cells[t].(right := x) else cells[t].(left := x)];
            cells := cells[x := cells[x].(parent := Above(t), fd := x, bk := x)];
            PutChildIs(m, t, right, x);
            return;
          }
        } else {
          var f := cells[t].fd;
          cells := cells[t := cells[t].(fd := x)];
          cells := cells[f := cells[f].(bk := x)];
          cells := cells[x := cells[x].(fd := f, bk := t, parent := Null)];
          PutRingIs(m, t, x);
          return;
        }
      }
    }

    /** init_bins, for the large bins. */
    constructor (n: nat, cells: Cells)
      requires n >= 32
      ensures Valid() && this.n == n && this.cells == cells && treemap == 0 && trees == NoTries()
    {
      this.n, this.cells, roots, treemap := n, cells, seq(BINS, _ => 0), 0;
      trees := NoTries();
      new;
      NoneYet(n, cells);
    }

    /** unlink_large_chunk. */
    method UnlinkLargeChunk(x: nat)
      requires Valid() && x in cells && 256 <= cells[x].size < Pow2(n) && InBins(Now(), x, cells[x].size)
      modifies this
      ensures var s := old(cells)[x].size;
              Valid() && TreeIndex(s) < BINS && In(old(trees)[TreeIndex(s)], x, s) && Now() == UnlinkLarge(old(Now()), x, s)
      ensures SameHeads(old(cells), cells)
    {
      ghost var s := cells[x].size;
      ghost var b, i := Now(), TreeIndex(s);
      UnlinkLargeDrops(b, n, x, s);
      BinOf(b, n, s);
      assert RootOk(cells, roots, trees, i);
      hide *;
      UnlinkLinks(x, i, trees[i], BinLow(i), BinWidth(i, n), s);
      RootsUnlinked(old(cells), cells, old(roots), roots, trees, i, x, s);
      trees := trees[i := Remove(trees[i], x, s)];
      UnlinkedIs(b, Now(), x, s, roots[i] == 0);
    }

    /** The links of unlink_large_chunk, in the bin `i` with trie `t`. */
    method UnlinkLinks(x: nat, ghost k: nat, ghost t: Tree, ghost lo: nat, ghost w: nat, ghost s: nat)
      requires k < BINS && |roots| == BINS && treemap < WORDS
      requires Spells(cells, roots[k], Header(k), t, k) && Trie(t, lo, w) && In(t, x, s) && x in cells
      modifies `cells, `roots, `treemap
      ensures |roots| == BINS && Unlinked(old(cells), cells, old(roots)[k], roots[k], t, k, x, s)
      ensures roots == old(roots)[k := roots[k]] && SameHeads(old(cells), cells)
      ensures treemap == if roots[k] == 0 then Clear(old(treemap), k) else old(treemap)
    {
      SpelledCell(cells, roots[k], Header(k), t, k, x, s);
      RootIsThere(cells, roots[k], Header(k), t, k, x, s);
      hide *;
      ghost var m := cells;
      var i := cells[x].index;
      var xp := cells[x].parent;
      var r := CutOff(x, roots[i], t, i, lo, w, s);
      ghost var m1 := cells;
      FoundIs(m, m1, roots[i], t, i, x, s, r);
      if xp != Null {
        TakePlace(x, i, xp, r);
        HeadsStay(m, m1, cells);
      }
    }

    /** The first half: the ring is closed without x, or the leaf that will take its place is cut off. */
    method CutOff(x: nat, ghost root: nat, ghost t: Tree, ghost i: nat, ghost lo: nat, ghost w: nat, ghost s: nat) returns (r: nat)
      requires Spells(cells, root, Header(i), t, i) && Trie(t, lo, w) && In(t, x, s) && x in cells && root != 0
      modifies `cells
      ensures Found(old(cells), cells, root, t, i, x, s, r) && SameHeads(old(cells), cells)
    {
      hide *;
      ghost var m := cells;
      if cells[x].bk != x {
        RingCase(m, root, t, i, lo, w, x, s);
        var f := cells[x].fd;
        r := cells[x].bk;
        cells := cells[f := cells[f].(bk := r)];
        cells := cells[r := cells[r].(fd := f)];
        CutIs(m, x);
      } else {
        LeafCase(m, root, t, i, lo, w, x, s);
        r := CutLeafOff(x, At(t, x, s), cells[x].parent, i);
      }
    }

    /** The leaf below chunk x, cut off; 0 if there is none. */
    method CutLeafOff(x: nat, ghost sub: Tree, ghost p: Parent, ghost i: nat) returns (r: nat)
      requires Spells(cells, x, p, sub, i) && sub.Node? && (exists lo, w :: Trie(sub, lo, w))
      modifies `cells
      ensures if IsLeaf(sub) then r == 0 && cells == old(cells)
              else
                && DropNode(sub).Node? && DropNode(sub).ring != [] && r == DropNode(sub).ring[0]
                && cells == CutAt(old(cells), DropSlot(sub, x))
      ensures SameHeads(old(cells), cells)
    {
      CutKeepsHeads(cells, if IsLeaf(sub) then RightOf(x) else DropSlot(sub, x));
      ChildLinks(cells, x, p, sub, i);
      hide *;
      var rp := RightOf(x);
      r := cells[x].right;
      if r == 0 {
        rp := LeftOf(x);
        r := cells[x].left;
      }
      if r != 0 {
        ghost var cur, q := if sub.right.Node? then sub.right else sub.left, Above(x);
        while cells[r].right != 0 || cells[r].left != 0
          invariant cells == old(cells) && LeafSearch(cells, sub, x, cur, r, q, i, rp)
          decreases cur
        {
          LeafStep(cells, sub, x, cur, r, q, i, rp);
          q := Above(r);
          if cells[r].right != 0 {
            rp := RightOf(r);
            cur := cur.right;
            r := cells[r].right;
          } else {
            rp := LeftOf(r);
            cur := cur.left;
            r := cells[r].left;
          }
        }
        LeafFound(cells, sub, x, cur, r, q, i, rp);
        if rp.RightOf? {
          cells := cells[rp.a := cells[rp.a].(right := 0)];
        } else {
          cells := cells[rp.a := cells[rp.a].(left := 0)];
        }
      }
    }

    /** Chunk y, or nothing, takes the place of the first chunk of a ring. */
    method TakePlace(x: nat, i: nat, xp: Parent, y: nat)
      requires CanTake(cells, xp, x, y) && xp != Null && i < BINS && |roots| == BINS && treemap < WORDS
      requires x == roots[i] <==> !xp.Above?
      modifies `cells, `roots, `treemap
      ensures cells == Taken(old(cells), xp, x, y) && SameHeads(old(cells), cells)
      ensures roots == if x == old(roots)[i] then old(roots)[i := y] else old(roots)
      ensures treemap == if x == old(roots)[i] && y == 0 then Clear(old(treemap), i) else old(treemap)
    {
      ghost var m := cells;
      TakenKeepsHeads(m, xp, x, y);
      hide SameHeads;
      if x == roots[i] {
        roots := roots[i := y];
        if y == 0 {
          treemap := Clear(treemap, i);
        }
      } else {
        var b := xp.a;
        cells := cells[b := if cells[b].left == x then cells[b].(left := y) else cells[b].(right := y)];
      }
      assert cells == FromParent(m, xp, x, y);
      if y != 0 {
        HookUp(x, xp, y);
      }
    }

    /** Chunk y gets x's parent link and x's children. */
    method HookUp(x: nat, xp: Parent, y: nat)
      requires x in cells && y in cells && x != y
      requires (cells[x].left != 0 ==> cells[x].left in cells) && (cells[x].right != 0 ==> cells[x].right in cells)
      modifies `cells
      ensures cells == Hook(old(cells), x, y, xp)
    {
      cells := cells[y := cells[y].(parent := xp)];
      var c0 := cells[x].left;
      if c0 != 0 {
        cells := cells[y := cells[y].(left := c0)];
        cells := cells[c0 := cells[c0].(parent := Above(y))];
      }
      var c1 := cells[x].right;
      if c1 != 0 {
        cells := cells[y := cells[y].(right := c1)];
        cells := cells[c1 := cells[c1].(parent := Above(y))];
      }
    }
  }

  // ---- Insertion ----

  ghost predicate Descends(m: Cells, t: nat, q: Parent, cur: Tree, i: nat, lo: nat, w: nat, s: nat, k: nat, n: nat) {
    cur.Node? && Spells(m, t, q, cur, i) && Trie(cur, lo, w) && Key(k, s, lo, w, n) && n > 0
  }

  lemma DescendStep(m: Cells, t: nat, q: Parent, cur: Tree, i: nat, lo: nat, w: nat, s: nat, k: nat, n: nat)
    requires Descends(m, t, q, cur, i, lo, w, s, k, n)
    ensures cur.Node? && Trie(cur, lo, w) && t in m && m[t].size == cur.size && m[t].fd in m
    ensures cur.size == s ==> PlaceFor(cur, lo, w, s) == RingOf(t)
    ensures cur.size != s ==>
      && w > 0
      && var right := TopBit(k, n) == 1;
         var child, c, low := if right then cur.right else cur.left, if right then m[t].right else m[t].left, if right then lo + Pow2(w - 1) else lo;
         if c == 0 then PlaceFor(cur, lo, w, s) == if right then RightOf(t) else LeftOf(t)
         else
           && Descends(m, c, Above(t), child, i, low, w - 1, s, NextKey(k, n), n) && child.Node? && Trie(child, low, w - 1)
           && PlaceFor(cur, lo, w, s) == PlaceFor(child, low, w - 1, s)
  {
    HeadIsThere(m, t, q, cur, i);
    InsertSteps(cur, lo, w, 0, s);
    if cur.size != s {
      KeyPicksHalf(k, s, lo, w, n);
      var right := TopBit(k, n) == 1;
      if right && cur.right.Node? { HeadIsThere(m, m[t].right, Above(t), cur.right, i); }
      if !right && cur.left.Node? { HeadIsThere(m, m[t].left, Above(t), cur.left, i); }
    }
  }

  lemma PutChildIs(m: Cells, t: nat, right: bool, x: nat)
    requires t in m && x in m && x != t
    ensures var c := if right then m[t].(right := x) else m[t].(left := x);
            var m1 := m[t := c];
            Put(m, if right then RightOf(t) else LeftOf(t), x) == m1[x := m1[x].(parent := Above(t), fd := x, bk := x)]
  {
  }

  lemma PutRingIs(m: Cells, t: nat, x: nat)
    requires t in m && x in m && x != t && m[t].fd in m
    ensures var f := m[t].fd;
            var m1 := m[t := m[t].(fd := x)];
            var m2 := m1[f := m1[f].(bk := x)];
            Put(m, RingOf(t), x) == m2[x := m2[x].(fd := f, bk := t, parent := Null)]
  {
  }

  lemma NotInBins(b: Bins, x: nat, s: nat)
    requires |b.trees| == BINS && s >= 256 && forall i: nat, z: nat :: i < BINS ==> !In(b.trees[i], x, z)
    ensures !InBins(b, x, s)
  {
  }

  /** Preparing a chunk that is in no bin changes no bin. */
  lemma Prepared(m: Cells, m': Cells, roots: seq<nat>, trees: seq<Tree>, x: nat, i: nat, s: nat)
    requires RootsOk(m, roots, trees) && x != 0 && i < BINS && m' == m[x := NewCell(s, i)]
    requires forall j: nat, z: nat :: j < BINS ==> !In(trees[j], x, z)
    ensures RootsOk(m', roots, trees) && Fresh(m', trees[i], x, s, i)
  {
    forall j: nat | j < BINS ensures RootOk(m', roots, trees, j) {
      assert RootOk(m, roots, trees, j);
      forall a: nat, z: nat | In(trees[j], a, z) ensures a in m && a in m' && m'[a] == m[a] {
        SpelledCell(m, roots[j], Header(j), trees[j], j, a, z);
      }
      SpellsStays(m, m', roots[j], Header(j), trees[j], j);
    }
    forall z: nat ensures !In(trees[i], x, z) {}
  }

  /** Bins other than `i` are spelled as before if no chunk of theirs has changed. */
  lemma OtherRoots(m: Cells, m': Cells, roots: seq<nat>, trees: seq<Tree>, i: nat, root: nat, t: Tree)
    requires RootsOk(m, roots, trees) && i < BINS && Spells(m', root, Header(i), t, i)
    requires forall b :: b in m && m[b].index != i ==> b in m' && m'[b] == m[b]
    ensures RootsOk(m', roots[i := root], trees[i := t])
  {
    var roots', trees' := roots[i := root], trees[i := t];
    forall j: nat | j < BINS ensures RootOk(m', roots', trees', j) {
      if j != i {
        assert RootOk(m, roots, trees, j);
        forall a: nat, z: nat | In(trees[j], a, z) ensures a in m && a in m' && m'[a] == m[a] {
          SpelledCell(m, roots[j], Header(j), trees[j], j, a, z);
        }
        SpellsStays(m, m', roots[j], Header(j), trees[j], j);
      }
    }
  }

  lemma FirstOfBin(m: Cells, m': Cells, roots: seq<nat>, trees: seq<Tree>, x: nat, i: nat, s: nat)
    requires RootsOk(m, roots, trees) && i < BINS && Fresh(m, trees[i], x, s, i)
    requires m' == m[x := m[x].(parent := Header(i))][x := m[x].(parent := Header(i), fd := x, bk := x)]
    ensures RootsOk(m', roots[i := x], trees[i := Node(s, [x], Nil, Nil)]) && SameHeads(m, m')
  {
    assert RingAt(m', [x], 0, Header(i), s, i);
    OtherRoots(m, m', roots, trees, i, x, Node(s, [x], Nil, Nil));
  }

  lemma PlacedInBin(m: Cells, roots: seq<nat>, trees: seq<Tree>, lo: nat, w: nat, x: nat, i: nat, s: nat)
    requires RootsOk(m, roots, trees) && i < BINS && Fresh(m, trees[i], x, s, i) && lo <= s < lo + Pow2(w)
    requires trees[i].Node? && Trie(trees[i], lo, w)
    ensures Inserts(m, roots[i], Header(i), trees[i], i, lo, w, x, s)
    ensures RootsOk(Put(m, PlaceFor(trees[i], lo, w, s), x), roots, trees[i := Insert(trees[i], lo, w, x, s)])
    ensures SameHeads(m, Put(m, PlaceFor(trees[i], lo, w, s), x))
  {
    assert RootOk(m, roots, trees, i);
    PutInserts(m, roots[i], Header(i), trees[i], i, lo, w, x, s);
    PlaceIsThere(m, roots[i], Header(i), trees[i], i, lo, w, s);
    var slot := PlaceFor(trees[i], lo, w, s);
    SpelledCell(m, roots[i], Header(i), trees[i], i, slot.a, m[slot.a].size);
    SpelledCell(m, roots[i], Header(i), trees[i], i, m[slot.a].fd, m[slot.a].size);
    OtherRoots(m, Put(m, slot, x), roots, trees, i, roots[i], Insert(trees[i], lo, w, x, s));
    assert roots[i := roots[i]] == roots;
  }

  lemma InsertedIs(b: Bins, b': Bins, x: nat, s: nat, n: nat)
    requires |b.trees| == BINS && b.treemap < WORDS && TreeIndex(s) < BINS
    requires b'.small == b.small && b'.smallmap == b.smallmap
    requires var i := TreeIndex(s);
             if Has(b.treemap, i) then b'.treemap == b.treemap && b'.trees == b.trees[i := Insert(b.trees[i], BinLow(i), BinWidth(i, n), x, s)]
             else b'.treemap == Mark(b.treemap, i) && b'.trees == b.trees[i := Node(s, [x], Nil, Nil)]
    ensures b' == InsertLarge(b, x, s, n)
  {
  }

  lemma NoneYet(n: nat, cells: Cells)
    requires n >= 32
    ensures BinsOk(Bins(0, NoRings(), 0, NoTries()), n)
    ensures RootsOk(cells, seq(BINS, _ => 0), NoTries())
  {
    forall i: nat ensures !Has(0, i) { HasOfZero(i); }
    forall i: nat | i < BINS ensures LargeBin(Nil, 0, i, n) {}
    var roots: seq<nat>, trees := seq(BINS, _ => 0), NoTries();
    forall i: nat | i < BINS ensures RootOk(cells, roots, trees, i) {}
  }

  // ---- Unlinking ----

  lemma CutIs(m: Cells, x: nat)
    requires x in m && m[x].fd in m && m[x].bk in m
    ensures var f, r := m[x].fd, m[x].bk;
            var m1 := m[f := m[f].(bk := r)];
            CutRing(m, x) == m1[r := m1[r].(fd := f)] && SameHeads(m, CutRing(m, x))
  {
  }

  lemma CutKeepsHeads(m: Cells, slot: Slot)
    ensures SameHeads(m, CutAt(m, slot)) && SameHeads(m, m)
  {
  }

  lemma TakenKeepsHeads(m: Cells, xp: Parent, x: nat, y: nat)
    requires CanTake(m, xp, x, y)
    ensures SameHeads(m, Taken(m, xp, x, y))
  {
    var m1 := FromParent(m, xp, x, y);
    assert SameHeads(m, m1);
    if y != 0 {
      var m2 := m1[y := m1[y].(parent := xp)];
      var m3 := HookLeft(m2, m1[x].left, y);
      assert SameHeads(m1, m2) && SameHeads(m2, m3);
      HookKeepsHeads(m3, m1[x].right, y);
      hide SameHeads, HookLeft, HookRight, FromParent;
      HeadsStay(m, m1, m2);
      HeadsStay(m, m2, m3);
      HeadsStay(m, m3, HookRight(m3, m1[x].right, y));
    }
  }

  lemma HookKeepsHeads(m: Cells, c: nat, y: nat)
    requires y in m && (c != 0 ==> c in m)
    ensures SameHeads(m, HookRight(m, c, y))
  {
  }

  lemma RootIsThere(m: Cells, root: nat, p: Parent, t: Tree, i: nat, x: nat, s: nat)
    requires Spells(m, root, p, t, i) && In(t, x, s)
    ensures root != 0
  {
    HeadIsThere(m, root, p, t, i);
  }

  /** The links that TakePlace follows lead to chunks. */
  ghost predicate CanTake(m: Cells, xp: Parent, x: nat, y: nat) {
    && x in m && (xp.Above? ==> xp.a in m && xp.a != x)
    && (y != 0 ==> y in m && x != y && (m[x].left != 0 ==> m[x].left in m) && (m[x].right != 0 ==> m[x].right in m))
  }

  ghost function Taken(m: Cells, xp: Parent, x: nat, y: nat): Cells
    requires CanTake(m, xp, x, y)
  {
    if y == 0 then FromParent(m, xp, x, 0) else TakeOver(m, xp, x, y)
  }

  /** What is left to do after the first half: nothing for a chunk inside a ring, or to let `r` take
      the place of a first chunk. */
  ghost predicate Found(m: Cells, m1: Cells, root: nat, t: Tree, i: nat, x: nat, s: nat, r: nat) {
    x in m && root != 0 &&
    if m[x].parent == Null then Unlinked(m, m1, root, root, t, i, x, s)
    else
      && CanTake(m1, m[x].parent, x, r) && (x == root <==> !m[x].parent.Above?)
      && Unlinked(m, Taken(m1, m[x].parent, x, r), root, if x == root then r else root, t, i, x, s)
  }

  lemma FoundIs(m: Cells, m1: Cells, root: nat, t: Tree, i: nat, x: nat, s: nat, r: nat)
    requires Found(m, m1, root, t, i, x, s, r)
    ensures x in m && root != 0
    ensures if m[x].parent == Null then Unlinked(m, m1, root, root, t, i, x, s)
            else
              && CanTake(m1, m[x].parent, x, r) && (x == root <==> !m[x].parent.Above?)
              && Unlinked(m, Taken(m1, m[x].parent, x, r), root, if x == root then r else root, t, i, x, s)
  {
  }

  /** Chunk x is unlinked from the trie. */
  ghost predicate Unlinked(m: Cells, m': Cells, root: nat, root': nat, t: Tree, i: nat, x: nat, s: nat) {
    In(t, x, s) && Spells(m', root', Header(i), Remove(t, x, s), i) && Inside(m, m', t)
  }

  /** The first chunk of a ring is at the root exactly if its parent is the bin's header. */
  lemma HeadAtRoot(m: Cells, root: nat, t: Tree, i: nat, lo: nat, w: nat, x: nat, s: nat)
    requires Spells(m, root, Header(i), t, i) && Trie(t, lo, w) && In(t, x, s) && x in m
    requires At(t, x, s).ring != [] && x == At(t, x, s).ring[0]
    ensures m[x].parent != Null && (x == root <==> !m[x].parent.Above?) && (x == root <==> OnTop(t, x, s))
    ensures m[x].parent.Above? ==> m[x].parent.a in m && m[x].parent.a != x
  {
    SpelledAt(m, root, Header(i), t, i, lo, w, x, s);
    RemoveReplaces(t, x, s);
    HeadIsThere(m, root, Header(i), t, i);
    OnePlace(m, root, Header(i), t, i, lo, w, x, s);
    SpelledCell(m, root, Header(i), t, i, x, s);
  }

  lemma RingCase(m: Cells, root: nat, t: Tree, i: nat, lo: nat, w: nat, x: nat, s: nat)
    requires Spells(m, root, Header(i), t, i) && Trie(t, lo, w) && In(t, x, s) && x in m && m[x].bk != x && root != 0
    ensures m[x].fd in m && m[x].bk in m && Found(m, CutRing(m, x), root, t, i, x, s, m[x].bk)
  {
    SpelledAt(m, root, Header(i), t, i, lo, w, x, s);
    RemoveReplaces(t, x, s);
    var sub := At(t, x, s);
    if x != sub.ring[0] {
      InnerLeaves(m, root, Header(i), t, i, lo, w, x, s);
    } else {
      HeadAtRoot(m, root, t, i, lo, w, x, s);
      var lo', w' :| Trie(sub, lo', w');
      FirstLeaves(m, root, t, i, lo, w, x, s, lo', w');
    }
  }

  lemma FirstLeaves(m: Cells, root: nat, t: Tree, i: nat, lo: nat, w: nat, x: nat, s: nat, lo': nat, w': nat)
    requires Spells(m, root, Header(i), t, i) && Trie(t, lo, w) && In(t, x, s) && x in m && m[x].bk != x
    requires At(t, x, s).ring != [] && x == At(t, x, s).ring[0] && Trie(At(t, x, s), lo', w')
    requires m[x].parent.Above? ==> m[x].parent.a in m && m[x].parent.a != x
    ensures m[x].fd in m && m[x].bk in m
    ensures var xp, y, m1 := m[x].parent, m[x].bk, CutRing(m, x);
            && CanTake(m1, xp, x, y) && y != 0
            && Unlinked(m, Taken(m1, xp, x, y), root, if OnTop(t, x, s) then y else root, t, i, x, s)
  {
    var sub := At(t, x, s);
    SpelledAt(m, root, Header(i), t, i, lo, w, x, s);
    RemoveReplaces(t, x, s);
    Neighbours(m, sub.ring, m[x].parent, s, i, 0);
    RingReady(m, x, m[x].parent, sub, i, lo', w');
    UnringDrops(sub.ring, 0);
    var less := sub.(ring := Unring(sub.ring, 0));
    assert Remove(sub, x, s) == less;
    HeadReplaced(m, CutRing(m, x), root, Header(i), t, i, lo, w, x, s, less, lo', w');
    ReadyParts(CutRing(m, x), x, less, i, lo', w');
  }

  lemma LeafCase(m: Cells, root: nat, t: Tree, i: nat, lo: nat, w: nat, x: nat, s: nat)
    requires Spells(m, root, Header(i), t, i) && Trie(t, lo, w) && In(t, x, s) && x in m && m[x].bk == x && root != 0
    ensures var sub := At(t, x, s);
            && Spells(m, x, m[x].parent, sub, i) && (exists lo', w' :: Trie(sub, lo', w'))
            && if IsLeaf(sub) then Found(m, m, root, t, i, x, s, 0)
               else
                 && DropNode(sub).Node? && DropNode(sub).ring != []
                 && Found(m, CutAt(m, DropSlot(sub, x)), root, t, i, x, s, DropNode(sub).ring[0])
  {
    SpelledAt(m, root, Header(i), t, i, lo, w, x, s);
    RemoveReplaces(t, x, s);
    var sub := At(t, x, s);
    AloneInRing(m, sub.ring, m[sub.ring[0]].parent, s, i, x);
    HeadAtRoot(m, root, t, i, lo, w, x, s);
    if IsLeaf(sub) {
      HeadGone(m, root, Header(i), t, i, lo, w, x, s);
    } else {
      var lo', w' :| Trie(sub, lo', w');
      LeafTakes(m, root, t, i, lo, w, x, s, lo', w');
    }
  }

  lemma AloneInRing(m: Cells, ring: seq<nat>, p: Parent, s: nat, i: nat, x: nat)
    requires RingOk(m, ring, p, s, i) && Distinct(ring) && x in ring && x in m && m[x].bk == x
    ensures ring == [x]
  {
    var k := IndexOf(ring, x);
    assert RingAt(m, ring, k, p, s, i);
  }

  lemma LeafTakes(m: Cells, root: nat, t: Tree, i: nat, lo: nat, w: nat, x: nat, s: nat, lo': nat, w': nat)
    requires Spells(m, root, Header(i), t, i) && Trie(t, lo, w) && In(t, x, s) && x in m
    requires At(t, x, s).ring == [x] && !IsLeaf(At(t, x, s)) && Trie(At(t, x, s), lo', w')
    requires m[x].parent.Above? ==> m[x].parent.a in m && m[x].parent.a != x
    ensures var sub, xp := At(t, x, s), m[x].parent;
            && DropNode(sub).Node? && DropNode(sub).ring != []
            && var y, m1 := DropNode(sub).ring[0], CutAt(m, DropSlot(sub, x));
            && CanTake(m1, xp, x, y) && y != 0
            && Unlinked(m, Taken(m1, xp, x, y), root, if OnTop(t, x, s) then y else root, t, i, x, s)
  {
    var sub := At(t, x, s);
    SpelledAt(m, root, Header(i), t, i, lo, w, x, s);
    RemoveReplaces(t, x, s);
    LeafReady(m, x, m[x].parent, sub, i, lo', w');
    DropNodeDrops(sub, lo', w');
    assert Remove(sub, x, s) == DropNode(sub);
    HeadReplaced(m, CutAt(m, DropSlot(sub, x)), root, Header(i), t, i, lo, w, x, s, DropNode(sub), lo', w');
    ReadyParts(CutAt(m, DropSlot(sub, x)), x, DropNode(sub), i, lo', w');
  }

  // ---- The search for the leaf ----

  lemma ChildLinks(m: Cells, x: nat, p: Parent, t: Tree, i: nat)
    requires Spells(m, x, p, t, i) && t.Node?
    ensures x in m && (m[x].right != 0 <==> t.right.Node?) && (m[x].left != 0 <==> t.left.Node?)
    ensures t.right.Node? ==> m[x].right in m && LeafSearch(m, t, x, t.right, m[x].right, Above(x), i, RightOf(x))
    ensures t.left.Node? && t.right == Nil ==> m[x].left in m && LeafSearch(m, t, x, t.left, m[x].left, Above(x), i, LeftOf(x))
    ensures IsLeaf(t) <==> m[x].right == 0 && m[x].left == 0
  {
    HeadIsThere(m, x, p, t, i);
    if t.right.Node? { HeadIsThere(m, m[x].right, Above(x), t.right, i); }
    if t.left.Node? { HeadIsThere(m, m[x].left, Above(x), t.left, i); }
  }

  /** The search stands at `r`, the root of `cur`, reached through link `rp`. */
  ghost predicate LeafSearch(m: Cells, sub: Tree, x: nat, cur: Tree, r: nat, q: Parent, i: nat, rp: Slot) {
    && sub.Node? && !IsLeaf(sub) && cur.Node? && Spells(m, r, q, cur, i) && r in m
    && rp.a in m && !rp.RingOf?
    && LeafSlot(cur, rp) == DropSlot(sub, x)
    && TakeLeaf(cur).0 == TakeLeaf(if sub.right.Node? then sub.right else sub.left).0
  }

  lemma LeafStep(m: Cells, sub: Tree, x: nat, cur: Tree, r: nat, q: Parent, i: nat, rp: Slot)
    requires LeafSearch(m, sub, x, cur, r, q, i, rp) && (m[r].right != 0 || m[r].left != 0)
    ensures cur.Node?
    ensures if m[r].right != 0 then cur.right.Node? && LeafSearch(m, sub, x, cur.right, m[r].right, Above(r), i, RightOf(r))
            else cur.left.Node? && LeafSearch(m, sub, x, cur.left, m[r].left, Above(r), i, LeftOf(r))
  {
    ChildLinks(m, r, q, cur, i);
    HeadIsThere(m, r, q, cur, i);
  }

  lemma LeafFound(m: Cells, sub: Tree, x: nat, cur: Tree, r: nat, q: Parent, i: nat, rp: Slot)
    requires LeafSearch(m, sub, x, cur, r, q, i, rp) && m[r].right == 0 && m[r].left == 0
    ensures !IsLeaf(sub) && DropNode(sub).Node? && DropNode(sub).ring != [] && r == DropNode(sub).ring[0] && rp == DropSlot(sub, x)
    ensures rp.a in m
    ensures CutAt(m, rp) == m[rp.a := if rp.RightOf? then m[rp.a].(right := 0) else m[rp.a].(left := 0)]
  {
    ChildLinks(m, r, q, cur, i);
    HeadIsThere(m, r, q, cur, i);
  }

  // ---- The bins afterwards ----

  lemma RootsUnlinked(m: Cells, m': Cells, roots: seq<nat>, roots': seq<nat>, trees: seq<Tree>, i: nat, x: nat, s: nat)
    requires RootsOk(m, roots, trees) && i < BINS && |roots'| == BINS
    requires Unlinked(m, m', roots[i], roots'[i], trees[i], i, x, s) && roots' == roots[i := roots'[i]]
    ensures RootsOk(m', roots', trees[i := Remove(trees[i], x, s)])
    ensures roots'[i] == 0 <==> Remove(trees[i], x, s) == Nil
  {
    assert RootOk(m, roots, trees, i);
    forall b | b in m && m[b].index != i ensures b in m' && m'[b] == m[b] {
      if In(trees[i], b, m[b].size) { SpelledCell(m, roots[i], Header(i), trees[i], i, b, m[b].size); }
    }
    OtherRoots(m, m', roots, trees, i, roots'[i], Remove(trees[i], x, s));
    if Remove(trees[i], x, s).Node? {
      HeadIsThere(m', roots'[i], Header(i), Remove(trees[i], x, s), i);
    }
  }

  lemma UnlinkedIs(b: Bins, b': Bins, x: nat, s: nat, gone: bool)
    requires |b.trees| == BINS && b.treemap < WORDS && TreeIndex(s) < BINS && In(b.trees[TreeIndex(s)], x, s)
    requires b'.small == b.small && b'.smallmap == b.smallmap
    requires var i := TreeIndex(s);
             && b'.trees == b.trees[i := Remove(b.trees[i], x, s)] && (gone <==> Remove(b.trees[i], x, s) == Nil)
             && b'.treemap == if gone then Clear(b.treemap, i) else b.treemap
    ensures b' == UnlinkLarge(b, x, s)
  {
  }
}
