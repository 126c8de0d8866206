/** unlink_large_chunk on linked chunks: a ring shrinks, or a leaf takes the place of a node. */
module TrieUnlink {
  import opened BitStrings
  import opened SizeTrie
  import opened TrieLinks

  // ---- Where memories differ ----

  /** The two memories agree outside the trie. */
  ghost predicate Inside(m: Cells, m': Cells, t: Tree) {
    forall b :: b in m ==> b in m' && (m'[b] == m[b] || In(t, b, m[b].size))
  }

  /** A trie with another parent link at its root. */
  lemma Reparent(m: Cells, m': Cells, x: nat, p: Parent, p': Parent, t: Tree, i: nat, lo: nat, w: nat)
    requires Spells(m, x, p, t, i) && Trie(t, lo, w) && t.Node?
    requires forall a: nat, z: nat {:trigger In(t, a, z)} :: In(t, a, z) ==>
               a in m && a in m' && m'[a] == if a == x then m[a].(parent := p') else m[a]
    ensures Spells(m', x, p', t, i)
  {
    HeadIsThere(m, x, p, t, i);
    BelowIsNotRing(m, x, p, t, i, lo, w);
    forall k | 0 <= k < |t.ring| ensures RingAt(m', t.ring, k, p', t.size, i) {
      assert RingAt(m, t.ring, k, p, t.size, i) && In(t, t.ring[k], t.size);
    }
    assert RingAt(m', t.ring, 0, p', t.size, i);
    SpellsStays(m, m', m[x].left, Above(x), t.left, i);
    SpellsStays(m, m', m[x].right, Above(x), t.right, i);
  }

  // ---- Rings ----

  /** The neighbours of a chunk are linked with each other. */
  function CutRing(m: Cells, x: nat): Cells
    requires x in m && m[x].fd in m && m[x].bk in m
  {
    var f, r := m[x].fd, m[x].bk;
    var m1 := m[f := m[f].(bk := r)];
    m1[r := m1[r].(fd := f)]
  }

  lemma Neighbours(m: Cells, ring: seq<nat>, p: Parent, s: nat, i: nat, k: nat)
    requires RingOk(m, ring, p, s, i) && k < |ring|
    ensures ring[k] in m && m[ring[k]].fd == After(ring, k) && m[ring[k]].bk == Before(ring, k)
    ensures After(ring, k) in m && Before(ring, k) in m
    ensures After(ring, k) in ring && Before(ring, k) in ring
  {
    assert RingAt(m, ring, k, p, s, i);
    assert RingAt(m, ring, if k + 1 < |ring| then k + 1 else 0, p, s, i);
    assert RingAt(m, ring, if k > 0 then k - 1 else |ring| - 1, p, s, i);
  }

  /** A chunk in the ring after the cut: only the two neighbours' links change. */
  lemma CutCell(m: Cells, ring: seq<nat>, p: Parent, s: nat, i: nat, k: nat, j: nat)
    requires RingOk(m, ring, p, s, i) && Distinct(ring) && 0 < k < |ring| && j < |ring|
    ensures ring[k] in m && m[ring[k]].fd in m && m[ring[k]].bk in m
    ensures var next := if k + 1 < |ring| then k + 1 else 0;
            var r := CutRing(m, ring[k]);
            ring[j] in m && ring[j] in r &&
            r[ring[j]] == m[ring[j]].(fd := if j == k - 1 then After(ring, k) else m[ring[j]].fd,
                                      bk := if j == next then Before(ring, k) else m[ring[j]].bk)
  {
    Neighbours(m, ring, p, s, i, k);
    Neighbours(m, ring, p, s, i, j);
  }

  /** Without a chunk that is not the first. */
  lemma CutInner(m: Cells, ring: seq<nat>, p: Parent, s: nat, i: nat, k: nat)
    requires RingOk(m, ring, p, s, i) && Distinct(ring) && 0 < k < |ring|
    ensures ring[k] in m && m[ring[k]].fd in m && m[ring[k]].bk in m
    ensures var r := CutRing(m, ring[k]);
            && RingOk(r, Unring(ring, k), p, s, i) && ring[0] in m && ring[0] in r
            && r[ring[0]].left == m[ring[0]].left && r[ring[0]].right == m[ring[0]].right
  {
    CutCell(m, ring, p, s, i, k, 0);
    var r, less := CutRing(m, ring[k]), Unring(ring, k);
    forall j | 0 <= j < |less| ensures RingAt(r, less, j, p, s, i) {
      var j0 := if j < k then j else j + 1;
      CutCell(m, ring, p, s, i, k, j0);
      assert RingAt(m, ring, j0, p, s, i);
      hide RingOk, CutRing, Distinct;
      assert less[j] == ring[j0];
      assert After(less, j) == if j0 == k - 1 then After(ring, k) else After(ring, j0);
      assert Before(less, j) == if j0 == (if k + 1 < |ring| then k + 1 else 0) then Before(ring, k) else Before(ring, j0);
    }
  }

  /** Without the first: the last becomes the first, still without parent and children. */
  lemma CutFirst(m: Cells, ring: seq<nat>, p: Parent, s: nat, i: nat)
    requires RingOk(m, ring, p, s, i) && Distinct(ring) && |ring| > 1
    ensures ring[0] in m && m[ring[0]].fd in m && m[ring[0]].bk in m
    ensures var r, last := CutRing(m, ring[0]), ring[|ring| - 1];
            && RingOk(r, Unring(ring, 0), Null, s, i) && last in r && r[last].left == 0 && r[last].right == 0
            && ring[0] in r && r[ring[0]].left == m[ring[0]].left && r[ring[0]].right == m[ring[0]].right
  {
    Neighbours(m, ring, p, s, i, 0);
    var n := |ring|;
    var r, less := CutRing(m, ring[0]), Unring(ring, 0);
    forall j | 0 <= j < |less| ensures RingAt(r, less, j, Null, s, i) {
      var j0 := if j == 0 then n - 1 else j;
      assert less[j] == ring[j0] && RingAt(m, ring, j0, p, s, i);
      assert ring[j0] == ring[1] <==> j0 == 1;
      assert ring[j0] == ring[n - 1] <==> j0 == n - 1;
    }
    assert RingAt(m, ring, n - 1, p, s, i) && RingAt(m, ring, 0, p, s, i);
  }

  // ---- The leaf that takes a node's place ----

  predicate IsLeaf(t: Tree)
    requires t.Node?
  {
    t.left == Nil && t.right == Nil
  }

  /** RP: the child link to the leaf found by going right, or left where there is no right child. */
  function LeafSlot(t: Tree, above: Slot): Slot
    requires t.Node?
  {
    if t.right.Node? then LeafSlot(t.right, RightOf(if t.ring == [] then 0 else t.ring[0]))
    else if t.left.Node? then LeafSlot(t.left, LeftOf(if t.ring == [] then 0 else t.ring[0]))
    else above
  }

  /** *RP = 0. */
  function CutAt(m: Cells, slot: Slot): Cells {
    if slot.a !in m || slot.RingOf? then m
    else if slot.LeftOf? then m[slot.a := m[slot.a].(left := 0)]
    else m[slot.a := m[slot.a].(right := 0)]
  }

  /** The leaf with the ring it stands for is cut off, and what is left is the trie without it. */
  ghost predicate LeafCut(m: Cells, x: nat, p: Parent, t: Tree, i: nat, above: Slot)
    requires t.Node?
  {
    var (leaf, rest) := TakeLeaf(t);
    var r := CutAt(m, LeafSlot(t, above));
    && leaf.ring != [] && leaf.ring[0] in r
    && r[leaf.ring[0]].left == 0 && r[leaf.ring[0]].right == 0
    && RingOk(r, leaf.ring, r[leaf.ring[0]].parent, leaf.size, i)
    && Spells(r, if IsLeaf(t) then 0 else x, p, rest, i)
    && (if IsLeaf(t) then LeafSlot(t, above) == above
        else !LeafSlot(t, above).RingOf? && LeafSlot(t, above).a in m && In(t, LeafSlot(t, above).a, m[LeafSlot(t, above).a].size))
  }

  lemma {:induction false} CutLeaf(m: Cells, x: nat, p: Parent, t: Tree, i: nat, lo: nat, w: nat, above: Slot)
    requires Spells(m, x, p, t, i) && Trie(t, lo, w) && t.Node? && !above.RingOf? && above.a in m
    requires forall z: nat :: !In(t, above.a, z)
    ensures LeafCut(m, x, p, t, i, above)
    decreases t
  {
    HeadIsThere(m, x, p, t, i);
    BelowIsNotRing(m, x, p, t, i, lo, w);
    if t.right.Node? {
      forall z: nat ensures !In(t.right, x, z) {}
      CutLeaf(m, m[x].right, Above(x), t.right, i, lo + Pow2(w - 1), w - 1, RightOf(x));
      CutBelow(m, x, p, t, i, lo, w, above, false);
    } else if t.left.Node? {
      forall z: nat ensures !In(t.left, x, z) {}
      CutLeaf(m, m[x].left, Above(x), t.left, i, lo, w - 1, LeftOf(x));
      CutBelow(m, x, p, t, i, lo, w, above, true);
    } else {
      assert !In(t, above.a, t.size);
      var r := CutAt(m, above);
      forall k | 0 <= k < |t.ring| ensures t.ring[k] in m && t.ring[k] in r && r[t.ring[k]] == m[t.ring[k]] {
        assert RingAt(m, t.ring, k, p, t.size, i);
      }
      RingStays(m, r, t.ring, p, t.size, i);
      assert RingAt(m, t.ring, 0, p, t.size, i);
    }
  }

  lemma CutBelow(m: Cells, x: nat, p: Parent, t: Tree, i: nat, lo: nat, w: nat, above: Slot, left: bool)
    requires Spells(m, x, p, t, i) && Trie(t, lo, w) && t.Node? && x in m && t.ring != [] && x == t.ring[0]
    requires left == !t.right.Node? && (left ==> t.left.Node?)
    requires var sub, slot, y := if left then t.left else t.right, if left then LeftOf(x) else RightOf(x), if left then m[x].left else m[x].right;
             LeafCut(m, y, Above(x), sub, i, slot)
    ensures LeafCut(m, x, p, t, i, above)
  {
    HeadIsThere(m, x, p, t, i);
    BelowIsNotRing(m, x, p, t, i, lo, w);
    var sub, mine := if left then t.left else t.right, if left then LeftOf(x) else RightOf(x);
    var slot := LeafSlot(t, above);
    assert slot == LeafSlot(sub, mine);
    var r := CutAt(m, slot);
    assert slot.a in m && In(t, slot.a, m[slot.a].size);
    var other := if left then t.right else t.left;
    forall a: nat, z: nat | In(other, a, z) ensures a in m && a in r && r[a] == m[a] {
      assert In(t, a, z);
      SpelledCell(m, x, p, t, i, a, z);
    }
    SpellsStays(m, r, if left then m[x].right else m[x].left, Above(x), other, i);
    assert slot.a in t.ring ==> slot.a == x;
    RingOfCut(m, t.ring, p, t.size, i, slot);
  }

  /** A ring whose first chunk may lose a child is a ring still. */
  lemma RingOfCut(m: Cells, ring: seq<nat>, p: Parent, s: nat, i: nat, slot: Slot)
    requires RingOk(m, ring, p, s, i) && Distinct(ring) && (slot.a in ring ==> slot.a == ring[0])
    ensures RingOk(CutAt(m, slot), ring, p, s, i) && RingAt(CutAt(m, slot), ring, 0, p, s, i)
  {
    var r := CutAt(m, slot);
    forall k | 0 <= k < |ring| ensures RingAt(r, ring, k, p, s, i) {
      assert RingAt(m, ring, k, p, s, i);
    }
  }

  // ---- The replacement takes over ----

  /** Chunk `head` gets x's parent link and x's children. */
  function Hook(m: Cells, x: nat, head: nat, xp: Parent): Cells
    requires x in m && head in m && x != head
    requires m[x].left != 0 ==> m[x].left in m
    requires m[x].right != 0 ==> m[x].right in m
  {
    var m1 := m[head := m[head].(parent := xp)];
    HookRight(HookLeft(m1, m[x].left, head), m[x].right, head)
  }

  function HookLeft(m: Cells, c: nat, head: nat): (r: Cells)
    requires head in m && (c != 0 ==> c in m)
    ensures r.Keys == m.Keys
  {
    if c == 0 then m else
      var m1 := m[head := m[head].(left := c)];
      m1[c := m1[c].(parent := Above(head))]
  }

  function HookRight(m: Cells, c: nat, head: nat): (r: Cells)
    requires head in m && (c != 0 ==> c in m)
    ensures r.Keys == m.Keys
  {
    if c == 0 then m else
      var m1 := m[head := m[head].(right := c)];
      m1[c := m1[c].(parent := Above(head))]
  }

  /** The parts of the new trie `t` are there: its ring, whose first chunk has no children yet, and its
      subtrees, still below x. */
  ghost predicate Ready(m: Cells, x: nat, t: Tree, i: nat, lo: nat, w: nat) {
    && t.Node? && Trie(t, lo, w) && x in m && (forall z: nat :: !In(t, x, z))
    && t.ring[0] in m && m[t.ring[0]].left == 0 && m[t.ring[0]].right == 0
    && RingOk(m, t.ring, m[t.ring[0]].parent, t.size, i)
    && Spells(m, m[x].left, Above(x), t.left, i) && Spells(m, m[x].right, Above(x), t.right, i)
  }

  lemma ReadyParts(m: Cells, x: nat, t: Tree, i: nat, lo: nat, w: nat)
    requires Ready(m, x, t, i, lo, w)
    ensures t.ring[0] != 0 && x != t.ring[0]
    ensures forall k :: 0 <= k < |t.ring| ==> t.ring[k] in m && m[t.ring[k]].size == t.size && t.ring[k] != x
    ensures (m[x].left == 0) == (t.left == Nil) && (m[x].right == 0) == (t.right == Nil)
    ensures t.left.Node? ==> m[x].left in m && In(t, m[x].left, t.left.size) && m[m[x].left].size == t.left.size && m[x].left == t.left.ring[0]
    ensures t.right.Node? ==> m[x].right in m && In(t, m[x].right, t.right.size) && m[m[x].right].size == t.right.size && m[x].right == t.right.ring[0]
    ensures forall a: nat, z: nat {:trigger In(t.left, a, z)} :: In(t.left, a, z) ==> a in m && m[a].size == z && z != t.size && !HasSize(t.right, z)
    ensures forall a: nat, z: nat {:trigger In(t.right, a, z)} :: In(t.right, a, z) ==> a in m && m[a].size == z && z != t.size && !HasSize(t.left, z)
  {
    var q := m[t.ring[0]].parent;
    forall k | 0 <= k < |t.ring| ensures t.ring[k] in m && m[t.ring[k]].size == t.size && t.ring[k] != x {
      assert RingAt(m, t.ring, k, q, t.size, i);
      assert !In(t, x, t.size);
    }
    assert RingAt(m, t.ring, 0, q, t.size, i);
    if t.left.Node? { HeadIsThere(m, m[x].left, Above(x), t.left, i); }
    if t.right.Node? { HeadIsThere(m, m[x].right, Above(x), t.right, i); }
    forall a: nat, z: nat | In(t.left, a, z) ensures a in m && m[a].size == z && z != t.size && !HasSize(t.right, z) {
      SpelledCell(m, m[x].left, Above(x), t.left, i, a, z);
      InHasSize(t.left, a, z);
      HalvesDiffer(t, lo, w, z);
    }
    forall a: nat, z: nat | In(t.right, a, z) ensures a in m && m[a].size == z && z != t.size && !HasSize(t.left, z) {
      SpelledCell(m, m[x].right, Above(x), t.right, i, a, z);
      InHasSize(t.right, a, z);
      HalvesDiffer(t, lo, w, z);
    }
  }

  lemma HalvesDiffer(t: Tree, lo: nat, w: nat, z: nat)
    requires t.Node? && Trie(t, lo, w)
    ensures !(HasSize(t.left, z) && HasSize(t.right, z))
  {
    if HasSize(t.left, z) && HasSize(t.right, z) {
      SizesInRange(t.left, lo, w - 1, z);
      SizesInRange(t.right, lo + Pow2(w - 1), w - 1, z);
    }
  }

  /** The replacement with the parent and the children hooked on is linked as the new trie. */
  lemma HookSpells(m: Cells, x: nat, t: Tree, i: nat, lo: nat, w: nat, xp: Parent)
    requires Ready(m, x, t, i, lo, w)
    ensures t.ring[0] != x && (m[x].left != 0 ==> m[x].left in m) && (m[x].right != 0 ==> m[x].right in m)
    ensures var r := Hook(m, x, t.ring[0], xp); Spells(r, t.ring[0], xp, t, i) && Inside(m, r, t)
  {
    ReadyParts(m, x, t, i, lo, w);
    var head, c0, c1 := t.ring[0], m[x].left, m[x].right;
    var r := Hook(m, x, head, xp);
    assert c0 != 0 ==> HasSize(t.left, t.left.size);
    assert c1 != 0 ==> HasSize(t.right, t.right.size);
    HookCells(m, x, t, i, lo, w, xp);
    HookRing(m, x, t, i, lo, w, xp);
    if t.left.Node? {
      Reparent(m, r, c0, Above(x), Above(head), t.left, i, lo, w - 1);
    }
    if t.right.Node? {
      Reparent(m, r, c1, Above(x), Above(head), t.right, i, lo + Pow2(w - 1), w - 1);
    }
  }

  /** What hooking does to each chunk. */
  lemma HookCells(m: Cells, x: nat, t: Tree, i: nat, lo: nat, w: nat, xp: Parent)
    requires Ready(m, x, t, i, lo, w)
    ensures t.ring[0] != x && (m[x].left != 0 ==> m[x].left in m) && (m[x].right != 0 ==> m[x].right in m)
    ensures var r, head := Hook(m, x, t.ring[0], xp), t.ring[0];
            && head in r && r[head] == m[head].(parent := xp, left := m[x].left, right := m[x].right)
            && (forall a: nat, z: nat {:trigger In(t.left, a, z)} :: In(t.left, a, z) ==>
                  a in r && r[a] == if a == m[x].left then m[a].(parent := Above(head)) else m[a])
            && (forall a: nat, z: nat {:trigger In(t.right, a, z)} :: In(t.right, a, z) ==>
                  a in r && r[a] == if a == m[x].right then m[a].(parent := Above(head)) else m[a])
            && Inside(m, r, t)
  {
    ReadyParts(m, x, t, i, lo, w);
    assert t.left.Node? ==> HasSize(t.left, t.left.size);
    assert t.right.Node? ==> HasSize(t.right, t.right.size);
    assert In(t, t.ring[0], t.size);
  }

  lemma HookRing(m: Cells, x: nat, t: Tree, i: nat, lo: nat, w: nat, xp: Parent)
    requires Ready(m, x, t, i, lo, w)
    ensures t.ring[0] != x && (m[x].left != 0 ==> m[x].left in m) && (m[x].right != 0 ==> m[x].right in m)
    ensures var r := Hook(m, x, t.ring[0], xp); RingOk(r, t.ring, xp, t.size, i) && RingAt(r, t.ring, 0, xp, t.size, i)
  {
    ReadyParts(m, x, t, i, lo, w);
    assert t.left.Node? ==> HasSize(t.left, t.left.size);
    assert t.right.Node? ==> HasSize(t.right, t.right.size);
    var r := Hook(m, x, t.ring[0], xp);
    forall k | 0 <= k < |t.ring| ensures RingAt(r, t.ring, k, xp, t.size, i) {
      assert RingAt(m, t.ring, k, m[t.ring[0]].parent, t.size, i);
      assert k > 0 ==> t.ring[k] != t.ring[0];
    }
  }

  // ---- Inside the whole trie ----

  /** The subtree whose ring holds chunk `a`. */
  function At(t: Tree, a: nat, s: nat): (sub: Tree)
    requires In(t, a, s)
    ensures sub.Node?
    decreases t
  {
    if t.size == s && a in t.ring then t else if In(t.left, a, s) then At(t.left, a, s) else At(t.right, a, s)
  }

  /** The trie with that subtree replaced. */
  function Replace(t: Tree, a: nat, s: nat, sub: Tree): Tree
    requires In(t, a, s)
    decreases t
  {
    if t.size == s && a in t.ring then sub
    else if In(t.left, a, s) then t.(left := Replace(t.left, a, s, sub))
    else t.(right := Replace(t.right, a, s, sub))
  }

  lemma {:induction false} RemoveReplaces(t: Tree, a: nat, s: nat)
    requires In(t, a, s)
    ensures In(At(t, a, s), a, s) && At(t, a, s).size == s && a in At(t, a, s).ring
    ensures Remove(t, a, s) == Replace(t, a, s, Remove(At(t, a, s), a, s))
    decreases t
  {
    if t.size == s && a in t.ring {
    } else if In(t.left, a, s) {
      RemoveReplaces(t.left, a, s);
    } else {
      RemoveReplaces(t.right, a, s);
    }
  }

  /** The link to chunk x in the chunk above leads to `y` instead. */
  function Relink(c: Cell, x: nat, y: nat): Cell {
    if c.left == x then c.(left := y) else c.(right := y)
  }

  predicate OnTop(t: Tree, a: nat, s: nat) {
    t.Node? && t.size == s && a in t.ring
  }

  lemma {:induction false} AtIsWithin(t: Tree, a: nat, s: nat, b: nat, z: nat)
    requires In(t, a, s) && In(At(t, a, s), b, z)
    ensures In(t, b, z)
    decreases t
  {
    if !OnTop(t, a, s) {
      if In(t.left, a, s) {
        AtIsWithin(t.left, a, s, b, z);
      } else {
        AtIsWithin(t.right, a, s, b, z);
      }
    }
  }

  /** The subtree is linked too; below the top its parent link leads to a chunk of the trie outside
      it, and that chunk's child link leads back. */
  lemma {:induction false} SpelledAt(m: Cells, x: nat, p: Parent, t: Tree, i: nat, lo: nat, w: nat, a: nat, s: nat)
    requires Spells(m, x, p, t, i) && Trie(t, lo, w) && In(t, a, s)
    ensures var sub := At(t, a, s);
            && sub.ring != [] && sub.ring[0] in m && Spells(m, sub.ring[0], m[sub.ring[0]].parent, sub, i)
            && (exists lo', w' :: Trie(sub, lo', w'))
            && (if OnTop(t, a, s) then sub == t && sub.ring[0] == x && m[x].parent == p
                else
                  && var q := m[sub.ring[0]].parent;
                  && q.Above? && q.a in m && In(t, q.a, m[q.a].size)
                  && (m[q.a].left == sub.ring[0] || m[q.a].right == sub.ring[0]) && !In(sub, q.a, m[q.a].size))
    decreases t
  {
    HeadIsThere(m, x, p, t, i);
    BelowIsNotRing(m, x, p, t, i, lo, w);
    if OnTop(t, a, s) {
      assert RingAt(m, t.ring, 0, p, t.size, i);
    } else if In(t.left, a, s) {
      SpelledAt(m, m[x].left, Above(x), t.left, i, lo, w - 1, a, s);
    } else {
      SpelledAt(m, m[x].right, Above(x), t.right, i, lo + Pow2(w - 1), w - 1, a, s);
    }
  }

  /** Outside the subtree the memories agree, but for the link that leads to it. */
  ghost predicate Outside(m: Cells, m': Cells, t: Tree, a: nat, s: nat, q: Parent, h: nat, y: nat)
    requires In(t, a, s)
  {
    forall b: nat, z: nat {:trigger In(t, b, z)} :: In(t, b, z) && !In(At(t, a, s), b, z) ==>
      b in m && b in m' && m'[b] == if q == Above(b) then Relink(m[b], h, y) else m[b]
  }

  /** A subtree replaced in memory is replaced in the trie. */
  lemma {:induction false} ReplaceBelow(m: Cells, m': Cells, x: nat, p: Parent, t: Tree, i: nat, lo: nat, w: nat, a: nat, s: nat,
                                        y: nat, r: Tree)
    requires Spells(m, x, p, t, i) && Trie(t, lo, w) && In(t, a, s)
    requires var sub := At(t, a, s);
             && sub.ring != [] && sub.ring[0] in m && Spells(m', y, m[sub.ring[0]].parent, r, i)
             && Outside(m, m', t, a, s, m[sub.ring[0]].parent, sub.ring[0], y)
    ensures Spells(m', if OnTop(t, a, s) then y else x, p, Replace(t, a, s, r), i)
    decreases t
  {
    SpelledAt(m, x, p, t, i, lo, w, a, s);
    if !OnTop(t, a, s) {
      var left := In(t.left, a, s);
      BelowIsNotRing(m, x, p, t, i, lo, w);
      HeadIsThere(m, x, p, t, i);
      OutsideBelow(m, m', t, a, s, y, left, m[At(t, a, s).ring[0]].parent, At(t, a, s).ring[0]);
      if left {
        ReplaceBelow(m, m', m[x].left, Above(x), t.left, i, lo, w - 1, a, s, y, r);
      } else {
        ReplaceBelow(m, m', m[x].right, Above(x), t.right, i, lo + Pow2(w - 1), w - 1, a, s, y, r);
      }
      ReplaceAround(m, m', x, p, t, i, lo, w, a, s, y, left);
    }
  }

  lemma OutsideBelow(m: Cells, m': Cells, t: Tree, a: nat, s: nat, y: nat, left: bool, q: Parent, h: nat)
    requires In(t, a, s) && !OnTop(t, a, s) && left == In(t.left, a, s) && Outside(m, m', t, a, s, q, h, y)
    ensures var sub := if left then t.left else t.right; In(sub, a, s) && At(sub, a, s) == At(t, a, s) && Outside(m, m', sub, a, s, q, h, y)
  {
    var sub := if left then t.left else t.right;
    forall b: nat, z: nat | In(sub, b, z) && !In(At(sub, a, s), b, z)
      ensures b in m && b in m' && m'[b] == if q == Above(b) then Relink(m[b], h, y) else m[b] {
      assert In(t, b, z);
    }
  }

  /** The ring above the subtree and the other subtree are linked as before, but for the one link. */
  lemma ReplaceAround(m: Cells, m': Cells, x: nat, p: Parent, t: Tree, i: nat, lo: nat, w: nat, a: nat, s: nat, y: nat, left: bool)
    requires Spells(m, x, p, t, i) && Trie(t, lo, w) && In(t, a, s) && !OnTop(t, a, s) && left == In(t.left, a, s) && x in m
    requires var sub := At(t, a, s);
             sub.ring != [] && sub.ring[0] in m && Outside(m, m', t, a, s, m[sub.ring[0]].parent, sub.ring[0], y)
    ensures x in m' && RingOk(m', t.ring, p, t.size, i) && RingAt(m', t.ring, 0, p, t.size, i)
    ensures var sub := if left then t.left else t.right;
            if left then
              m'[x].left == (if OnTop(sub, a, s) then y else m[x].left) && Spells(m', m'[x].right, Above(x), t.right, i)
            else
              m'[x].right == (if OnTop(sub, a, s) then y else m[x].right) && Spells(m', m'[x].left, Above(x), t.left, i)
  {
    HeadIsThere(m, x, p, t, i);
    BelowIsNotRing(m, x, p, t, i, lo, w);
    SubIsBelow(m, x, p, t, i, lo, w, a, s, left);
    assert RingOk(m, t.ring, p, t.size, i) && Distinct(t.ring);
    hide *;
    var below, other := if left then t.left else t.right, if left then t.right else t.left;
    var h, q := At(t, a, s).ring[0], m[At(t, a, s).ring[0]].parent;
    RingAround(m, m', x, p, t, i, a, s, y, q, h, below);
    OtherStays(m, m', x, p, t, i, a, s, y, q, h, below, other);
    SpellsStays(m, m', if left then m[x].right else m[x].left, Above(x), other, i);
    LinkAround(m, x, t, i, lo, w, left, h, OnTop(below, a, s));
    RelinkIs(m[x], h, y, left);
  }

  lemma RelinkIs(c: Cell, h: nat, y: nat, left: bool)
    ensures left && c.left == h ==> Relink(c, h, y) == c.(left := y)
    ensures !left && c.right == h && c.left != h ==> Relink(c, h, y) == c.(right := y)
  {
  }

  /** The subtree lies on one side, and the chunk above it is the one here or lies on that side too. */
  lemma SubIsBelow(m: Cells, x: nat, p: Parent, t: Tree, i: nat, lo: nat, w: nat, a: nat, s: nat, left: bool)
    requires Spells(m, x, p, t, i) && Trie(t, lo, w) && In(t, a, s) && !OnTop(t, a, s) && left == In(t.left, a, s) && x in m
    ensures var below, sub := if left then t.left else t.right, At(t, a, s);
            && (forall b: nat, z: nat {:trigger In(sub, b, z)} :: In(sub, b, z) ==> In(below, b, z))
            && sub.ring != [] && sub.ring[0] in m
            && var h, q := sub.ring[0], m[sub.ring[0]].parent;
            && q.Above? && q.a in m
            && (if OnTop(below, a, s) then q == Above(x) && below.Node? && h == (if left then m[x].left else m[x].right)
                else In(below, q.a, m[q.a].size))
  {
    var below, sub := if left then t.left else t.right, At(t, a, s);
    HeadIsThere(m, x, p, t, i);
    if left {
      SpelledAt(m, m[x].left, Above(x), t.left, i, lo, w - 1, a, s);
    } else {
      SpelledAt(m, m[x].right, Above(x), t.right, i, lo + Pow2(w - 1), w - 1, a, s);
    }
    assert At(below, a, s) == sub;
    forall b: nat, z: nat | In(sub, b, z) ensures In(below, b, z) { AtIsWithin(below, a, s, b, z); }
  }

  lemma OtherStays(m: Cells, m': Cells, x: nat, p: Parent, t: Tree, i: nat, a: nat, s: nat, y: nat, q: Parent, h: nat,
                   below: Tree, other: Tree)
    requires t.Node? && Spells(m, x, p, t, i) && x in m && In(t, a, s) && In(t, x, t.size)
    requires Outside(m, m', t, a, s, q, h, y) && (forall b: nat, z: nat :: In(At(t, a, s), b, z) ==> In(below, b, z))
    requires forall b: nat, z: nat {:trigger In(other, b, z)} :: In(other, b, z) ==> In(t, b, z) && !In(below, b, z) && b != x
    requires q.Above? && q.a in m && (q == Above(x) || In(below, q.a, m[q.a].size))
    ensures Same(m, m', other)
  {
    forall b: nat, z: nat | In(other, b, z) ensures b in m && b in m' && m'[b] == m[b] {
      SpelledCell(m, x, p, t, i, b, z);
    }
  }

  /** The child link on the other side does not lead to the subtree. */
  lemma LinkAround(m: Cells, x: nat, t: Tree, i: nat, lo: nat, w: nat, left: bool, h: nat, top: bool)
    requires t.Node? && x in m && Spells(m, m[x].left, Above(x), t.left, i) && Spells(m, m[x].right, Above(x), t.right, i)
    requires Trie(t, lo, w) && (top ==> (if left then t.left else t.right).Node? && h == if left then m[x].left else m[x].right)
    ensures top ==> h != if left then m[x].right else m[x].left
  {
  }

  lemma RingAround(m: Cells, m': Cells, x: nat, p: Parent, t: Tree, i: nat, a: nat, s: nat, y: nat, q: Parent, h: nat, below: Tree)
    requires t.Node? && RingOk(m, t.ring, p, t.size, i) && x == t.ring[0] && Distinct(t.ring) && In(t, a, s)
    requires Outside(m, m', t, a, s, q, h, y) && (forall b: nat, z: nat :: In(At(t, a, s), b, z) ==> In(below, b, z))
    requires forall b: nat, z: nat {:trigger In(below, b, z)} :: In(below, b, z) ==> b !in t.ring
    requires q.Above? && q.a in m && (q == Above(x) || In(below, q.a, m[q.a].size))
    ensures x in m && x in m' && RingOk(m', t.ring, p, t.size, i) && RingAt(m', t.ring, 0, p, t.size, i)
    ensures m'[x] == if q == Above(x) then Relink(m[x], h, y) else m[x]
  {
    forall k | 0 <= k < |t.ring| ensures RingAt(m', t.ring, k, p, t.size, i) {
      assert RingAt(m, t.ring, k, p, t.size, i);
      assert In(t, t.ring[k], t.size);
      assert !In(below, t.ring[k], t.size);
      assert k > 0 ==> t.ring[k] != x;
    }
    assert In(t, t.ring[0], t.size) && !In(below, t.ring[0], t.size);
    assert RingAt(m, t.ring, 0, p, t.size, i);
  }

  // ---- The replacement is found ----

  /** A chain of several: its last chunk is ready to take the first one's place. */
  lemma RingReady(m: Cells, x: nat, p: Parent, t: Tree, i: nat, lo: nat, w: nat)
    requires Spells(m, x, p, t, i) && Trie(t, lo, w) && t.Node? && |t.ring| > 1
    ensures x in m && m[x].fd in m && m[x].bk in m && m[x].bk == t.ring[|t.ring| - 1]
    ensures Ready(CutRing(m, x), x, t.(ring := Unring(t.ring, 0)), i, lo, w) && Inside(m, CutRing(m, x), t)
  {
    HeadIsThere(m, x, p, t, i);
    BelowIsNotRing(m, x, p, t, i, lo, w);
    CutFirst(m, t.ring, p, t.size, i);
    Neighbours(m, t.ring, p, t.size, i, 0);
    UnringDrops(t.ring, 0);
    var r, less := CutRing(m, x), t.(ring := Unring(t.ring, 0));
    assert In(t, m[x].fd, t.size) && In(t, m[x].bk, t.size);
    SpelledCell(m, x, p, t, i, m[x].bk, t.size);
    SpelledCell(m, x, p, t, i, m[x].fd, t.size);
    assert RingAt(r, less.ring, 0, Null, t.size, i);
    SpellsStays(m, r, m[x].left, Above(x), t.left, i);
    SpellsStays(m, r, m[x].right, Above(x), t.right, i);
    forall z: nat ensures !In(less, x, z) {
      assert !In(t.left, x, z) && !In(t.right, x, z);
    }
  }

  /** The child link that leads to the leaf. */
  function DropSlot(t: Tree, x: nat): Slot
    requires t.Node? && !IsLeaf(t)
  {
    if t.right.Node? then LeafSlot(t.right, RightOf(x)) else LeafSlot(t.left, LeftOf(x))
  }

  /** A chain of one: the leaf below is ready to take its place. */
  lemma LeafReady(m: Cells, x: nat, p: Parent, t: Tree, i: nat, lo: nat, w: nat)
    requires Spells(m, x, p, t, i) && Trie(t, lo, w) && t.Node? && |t.ring| == 1 && !IsLeaf(t)
    ensures Ready(CutAt(m, DropSlot(t, x)), x, DropNode(t), i, lo, w) && Inside(m, CutAt(m, DropSlot(t, x)), t)
  {
    HeadIsThere(m, x, p, t, i);
    BelowIsNotRing(m, x, p, t, i, lo, w);
    DropNodeDrops(t, lo, w);
    var slot := DropSlot(t, x);
    var r := CutAt(m, slot);
    if t.right.Node? {
      CutLeaf(m, m[x].right, Above(x), t.right, i, lo + Pow2(w - 1), w - 1, RightOf(x));
      assert slot.a == x || In(t.right, slot.a, m[slot.a].size);
      forall a: nat, z: nat | In(t.left, a, z) ensures a in m && a in r && r[a] == m[a] {
        SpelledCell(m, m[x].left, Above(x), t.left, i, a, z);
      }
      SpellsStays(m, r, m[x].left, Above(x), t.left, i);
    } else {
      CutLeaf(m, m[x].left, Above(x), t.left, i, lo, w - 1, LeftOf(x));
      assert slot.a == x || In(t.left, slot.a, m[slot.a].size);
    }
    DropIsReady(m, x, p, t, i, lo, w);
  }

  lemma NoSizeNoChunk(t: Tree, a: nat, s: nat)
    requires !HasSize(t, s)
    ensures !In(t, a, s)
  {
    if In(t, a, s) { InHasSize(t, a, s); }
  }

  lemma DropIsReady(m: Cells, x: nat, p: Parent, t: Tree, i: nat, lo: nat, w: nat)
    requires Spells(m, x, p, t, i) && Trie(t, lo, w) && t.Node? && |t.ring| == 1 && !IsLeaf(t) && x in m && x == t.ring[0]
    requires Trie(DropNode(t), lo, w)
    requires forall b, z :: In(t, b, z) <==> In(DropNode(t), b, z) || (z == t.size && b in t.ring)
    requires if t.right.Node? then LeafCut(m, m[x].right, Above(x), t.right, i, RightOf(x)) else LeafCut(m, m[x].left, Above(x), t.left, i, LeftOf(x))
    requires t.right.Node? ==> Spells(CutAt(m, DropSlot(t, x)), m[x].left, Above(x), t.left, i)
    requires forall a: nat, z: nat {:trigger In(t.left, a, z)} :: In(t.left, a, z) ==> a !in t.ring
    requires forall a: nat, z: nat {:trigger In(t.right, a, z)} :: In(t.right, a, z) ==> a !in t.ring
    requires !HasSize(DropNode(t), t.size)
    ensures Ready(CutAt(m, DropSlot(t, x)), x, DropNode(t), i, lo, w)
  {
    forall z: nat ensures !In(DropNode(t), x, z) {
      assert !In(t.left, x, z) && !In(t.right, x, z);
      NoSizeNoChunk(DropNode(t), x, t.size);
    }
    assert RingAt(m, t.ring, 0, p, t.size, i);
  }

  // ---- The whole of unlink_large_chunk ----

  /** The parent's child link, unless the chunk is a root. */
  function FromParent(m: Cells, xp: Parent, x: nat, y: nat): Cells {
    if xp.Above? && xp.a in m then m[xp.a := Relink(m[xp.a], x, y)] else m
  }

  /** A chunk inside a ring leaves it. */
  lemma InnerLeaves(m: Cells, root: nat, p: Parent, t: Tree, i: nat, lo: nat, w: nat, x: nat, s: nat)
    requires Spells(m, root, p, t, i) && Trie(t, lo, w) && In(t, x, s) && x in m
    requires At(t, x, s).ring != [] && x != At(t, x, s).ring[0]
    ensures m[x].parent == Null && m[x].fd in m && m[x].bk in m && m[x].bk != x
    ensures Spells(CutRing(m, x), root, p, Remove(t, x, s), i) && Inside(m, CutRing(m, x), t)
  {
    SpelledAt(m, root, p, t, i, lo, w, x, s);
    RemoveReplaces(t, x, s);
    var sub := At(t, x, s);
    var h, q := sub.ring[0], m[sub.ring[0]].parent;
    InnerCut(m, h, q, sub, i, x);
    var r := CutRing(m, x);
    assert Remove(sub, x, s) == sub.(ring := Unring(sub.ring, IndexOf(sub.ring, x)));
    forall b: nat, z: nat | In(t, b, z) && !In(sub, b, z)
      ensures b in m && b in r && r[b] == if q == Above(b) then Relink(m[b], h, h) else m[b] {
      SpelledCell(m, root, p, t, i, b, z);
    }
    ReplaceBelow(m, r, root, p, t, i, lo, w, x, s, h, Remove(sub, x, s));
    InsideAll(m, r, t, x, s);
  }

  lemma InsideAll(m: Cells, r: Cells, t: Tree, x: nat, s: nat)
    requires In(t, x, s) && Inside(m, r, At(t, x, s))
    ensures Inside(m, r, t)
  {
    forall b | b in m ensures b in r && (r[b] == m[b] || In(t, b, m[b].size)) {
      if In(At(t, x, s), b, m[b].size) { AtIsWithin(t, x, s, b, m[b].size); }
    }
  }

  lemma InnerCut(m: Cells, h: nat, q: Parent, t: Tree, i: nat, x: nat)
    requires Spells(m, h, q, t, i) && t.Node? && x in t.ring && x != h && x in m && Distinct(t.ring)
    requires exists lo, w :: Trie(t, lo, w)
    ensures m[x].parent == Null && m[x].fd in m && m[x].bk in m && m[x].bk != x
    ensures Spells(CutRing(m, x), h, q, t.(ring := Unring(t.ring, IndexOf(t.ring, x))), i) && Inside(m, CutRing(m, x), t)
  {
    var lo, w :| Trie(t, lo, w);
    var k := IndexOf(t.ring, x);
    HeadIsThere(m, h, q, t, i);
    BelowIsNotRing(m, h, q, t, i, lo, w);
    Neighbours(m, t.ring, q, t.size, i, k);
    CutInner(m, t.ring, q, t.size, i, k);
    assert RingAt(m, t.ring, k, q, t.size, i);
    var r, less := CutRing(m, x), Unring(t.ring, k);
    assert In(t, m[x].fd, t.size) && In(t, m[x].bk, t.size);
    SpelledCell(m, h, q, t, i, m[x].fd, t.size);
    SpelledCell(m, h, q, t, i, m[x].bk, t.size);
    SpellsStays(m, r, m[h].left, Above(h), t.left, i);
    SpellsStays(m, r, m[h].right, Above(h), t.right, i);
    assert RingAt(r, less, 0, q, t.size, i);
  }

  /** The memory when chunk `y` has taken x's place. */
  function TakeOver(m: Cells, xp: Parent, x: nat, y: nat): Cells
    requires x in m && y in m && x != y
    requires m[x].left != 0 ==> m[x].left in m
    requires m[x].right != 0 ==> m[x].right in m
    requires xp.Above? ==> xp.a != x
  {
    Hook(FromParent(m, xp, x, y), x, y, xp)
  }

  /** The first chunk of a ring is replaced by one that is ready for it. */
  lemma HeadReplaced(m: Cells, m1: Cells, root: nat, p: Parent, t: Tree, i: nat, lo: nat, w: nat, x: nat, s: nat,
                     next: Tree, lo': nat, w': nat)
    requires Spells(m, root, p, t, i) && Trie(t, lo, w) && In(t, x, s) && x in m
    requires !p.Above?
    requires At(t, x, s).ring != [] && x == At(t, x, s).ring[0] && Inside(m, m1, At(t, x, s)) && Ready(m1, x, next, i, lo', w')
    requires forall b: nat, z: nat {:trigger In(next, b, z)} :: In(next, b, z) ==> In(At(t, x, s), b, z)
    ensures next.ring[0] != x && (m1[x].left != 0 ==> m1[x].left in m1) && (m1[x].right != 0 ==> m1[x].right in m1)
    ensures m[x].parent.Above? ==> m[x].parent.a != x
    ensures var r := TakeOver(m1, m[x].parent, x, next.ring[0]);
            && Spells(r, if OnTop(t, x, s) then next.ring[0] else root, p, Replace(t, x, s, next), i)
            && Inside(m, r, t)
  {
    SpelledAt(m, root, p, t, i, lo, w, x, s);
    ReadyParts(m1, x, next, i, lo', w');
    RemoveReplaces(t, x, s);
    var sub, xp, y := At(t, x, s), m[x].parent, next.ring[0];
    var m2 := FromParent(m1, xp, x, y);
    var r := TakeOver(m1, xp, x, y);
    LinkIsOutside(m, m1, root, p, t, i, lo, w, x, s);
    ReadyStays(m1, m2, x, next, i, lo', w', xp, y);
    HookSpells(m2, x, next, i, lo', w', xp);
    forall b: nat, z: nat | In(t, b, z) && !In(sub, b, z)
      ensures b in m && b in r && r[b] == if xp == Above(b) then Relink(m[b], x, y) else m[b] {
      SpelledCell(m, root, p, t, i, b, z);
      OutsideStays(m, m1, m2, r, sub, next, xp, x, y, b);
    }
    ReplaceBelow(m, r, root, p, t, i, lo, w, x, s, y, next);
    forall b | b in m ensures b in r && (r[b] == m[b] || In(t, b, m[b].size)) {
      if In(sub, b, m[b].size) {
        AtIsWithin(t, x, s, b, m[b].size);
      } else {
        OutsideStays(m, m1, m2, r, sub, next, xp, x, y, b);
      }
    }
  }

  lemma OutsideStays(m: Cells, m1: Cells, m2: Cells, r: Cells, sub: Tree, next: Tree, xp: Parent, x: nat, y: nat, b: nat)
    requires Inside(m, m1, sub) && m2 == FromParent(m1, xp, x, y) && Inside(m2, r, next) && b in m && !In(sub, b, m[b].size)
    requires !In(next, b, m[b].size)
    ensures b in r && r[b] == if xp == Above(b) then Relink(m[b], x, y) else m[b]
  {
  }

  lemma LinkIsOutside(m: Cells, m1: Cells, root: nat, p: Parent, t: Tree, i: nat, lo: nat, w: nat, x: nat, s: nat)
    requires Spells(m, root, p, t, i) && Trie(t, lo, w) && In(t, x, s) && x in m && !p.Above?
    requires At(t, x, s).ring != [] && x == At(t, x, s).ring[0] && Inside(m, m1, At(t, x, s))
    ensures m[x].parent.Above? && m[x].parent.a in m ==>
      var b := m[x].parent.a;
      && b != x && In(t, b, m[b].size) && b in m1 && m1[b] == m[b] && !In(At(t, x, s), b, m[b].size)
    ensures m[x].parent.Above? ==> m[x].parent.a != x && m[x].parent.a in m
  {
    SpelledAt(m, root, p, t, i, lo, w, x, s);
    RemoveReplaces(t, x, s);
    SpelledCell(m, root, p, t, i, x, s);
  }

  /** Relinking a chunk outside keeps the replacement ready. */
  lemma ReadyStays(m: Cells, m': Cells, x: nat, t: Tree, i: nat, lo: nat, w: nat, xp: Parent, y: nat)
    requires Ready(m, x, t, i, lo, w) && m' == FromParent(m, xp, x, y)
    requires xp.Above? && xp.a in m ==> xp.a != x && !In(t, xp.a, m[xp.a].size)
    ensures Ready(m', x, t, i, lo, w) && m'[x] == m[x]
  {
    ReadyParts(m, x, t, i, lo, w);
    forall k | 0 <= k < |t.ring| ensures t.ring[k] in m && t.ring[k] in m' && m'[t.ring[k]] == m[t.ring[k]] {
      assert In(t, t.ring[k], t.size);
    }
    RingStays(m, m', t.ring, m[t.ring[0]].parent, t.size, i);
    forall a: nat, z: nat | In(t.left, a, z) ensures a in m && a in m' && m'[a] == m[a] { assert In(t, a, z); }
    forall a: nat, z: nat | In(t.right, a, z) ensures a in m && a in m' && m'[a] == m[a] { assert In(t, a, z); }
    SpellsStays(m, m', m[x].left, Above(x), t.left, i);
    SpellsStays(m, m', m[x].right, Above(x), t.right, i);
  }

  /** The only chunk of a node without children leaves nothing behind. */
  lemma HeadGone(m: Cells, root: nat, p: Parent, t: Tree, i: nat, lo: nat, w: nat, x: nat, s: nat)
    requires Spells(m, root, p, t, i) && Trie(t, lo, w) && In(t, x, s) && x in m && !p.Above?
    requires At(t, x, s).ring == [x] && IsLeaf(At(t, x, s))
    ensures var r := FromParent(m, m[x].parent, x, 0);
            Spells(r, if OnTop(t, x, s) then 0 else root, p, Remove(t, x, s), i) && Inside(m, r, t)
  {
    SpelledAt(m, root, p, t, i, lo, w, x, s);
    RemoveReplaces(t, x, s);
    var sub, xp := At(t, x, s), m[x].parent;
    var r := FromParent(m, xp, x, 0);
    LinkIsOutside(m, m, root, p, t, i, lo, w, x, s);
    forall b: nat, z: nat | In(t, b, z) && !In(sub, b, z)
      ensures b in m && b in r && r[b] == if xp == Above(b) then Relink(m[b], x, 0) else m[b] {
      SpelledCell(m, root, p, t, i, b, z);
    }
    ReplaceBelow(m, r, root, p, t, i, lo, w, x, s, 0, Nil);
  }
}
