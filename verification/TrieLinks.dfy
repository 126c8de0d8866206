/** The size tries as malloc.c.h links them: child, parent, fd and bk pointers between chunks. */
module TrieLinks {
  import opened BitStrings
  import opened SizeTrie

  /** The parent link of a tree chunk: null inside a ring, the bin's header at a root, or the chunk above. */
  datatype Parent = Null | Header(i: nat) | Above(a: nat)

  /** A malloc_tree_chunk; 0 is the null pointer. */
  datatype Cell = Cell(size: nat, index: nat, left: nat, right: nat, parent: Parent, fd: nat, bk: nat)

  type Cells = map<nat, Cell>

  function After(ring: seq<nat>, k: nat): nat
    requires k < |ring|
  {
    if k + 1 < |ring| then ring[k + 1] else ring[0]
  }

  function Before(ring: seq<nat>, k: nat): nat
    requires k < |ring|
  {
    if k > 0 then ring[k - 1] else ring[|ring| - 1]
  }

  /** The chunk at `k` of a ring has the ring's size and mutual links; only the first has a parent and
      children. */
  ghost predicate RingAt(m: Cells, ring: seq<nat>, k: nat, p: Parent, s: nat, i: nat)
    requires k < |ring|
  {
    && ring[k] != 0 && ring[k] in m
    && var c := m[ring[k]];
    && c.size == s && c.index == i && c.fd == After(ring, k) && c.bk == Before(ring, k)
    && c.parent == (if k == 0 then p else Null)
    && (k > 0 ==> c.left == 0 && c.right == 0)
  }

  ghost predicate RingOk(m: Cells, ring: seq<nat>, p: Parent, s: nat, i: nat) {
    ring != [] && forall k :: 0 <= k < |ring| ==> RingAt(m, ring, k, p, s, i)
  }

  /** The chunks from `x` down are linked as the trie `t` of bin `i`, and `p` is the link upwards. */
  ghost predicate Spells(m: Cells, x: nat, p: Parent, t: Tree, i: nat)
    decreases t
  {
    if t == Nil then x == 0
    else
      && RingOk(m, t.ring, p, t.size, i) && x == t.ring[0] && RingAt(m, t.ring, 0, p, t.size, i)
      && Spells(m, m[x].left, Above(x), t.left, i) && Spells(m, m[x].right, Above(x), t.right, i)
  }

  // ---- What linked chunks are ----

  lemma {:induction false} SpelledCell(m: Cells, x: nat, p: Parent, t: Tree, i: nat, a: nat, z: nat)
    requires Spells(m, x, p, t, i) && In(t, a, z)
    ensures a != 0 && a in m && m[a].size == z && m[a].index == i
    decreases t
  {
    if t.size == z && a in t.ring {
      var k :| 0 <= k < |t.ring| && t.ring[k] == a;
      assert RingAt(m, t.ring, k, p, t.size, i);
    } else if In(t.left, a, z) {
      SpelledCell(m, m[x].left, Above(x), t.left, i, a, z);
    } else {
      SpelledCell(m, m[x].right, Above(x), t.right, i, a, z);
    }
  }

  /** The two memories agree on every chunk of the trie. */
  ghost predicate Same(m: Cells, m': Cells, t: Tree) {
    forall a: nat, z: nat {:trigger In(t, a, z)} :: In(t, a, z) ==> a in m && a in m' && m'[a] == m[a]
  }

  lemma SameBelow(m: Cells, m': Cells, t: Tree)
    requires Same(m, m', t) && t.Node?
    ensures Same(m, m', t.left) && Same(m, m', t.right)
    ensures forall k :: 0 <= k < |t.ring| ==> t.ring[k] in m && t.ring[k] in m' && m'[t.ring[k]] == m[t.ring[k]]
  {
    forall a: nat, z: nat | In(t.left, a, z) ensures a in m && a in m' && m'[a] == m[a] { assert In(t, a, z); }
    forall a: nat, z: nat | In(t.right, a, z) ensures a in m && a in m' && m'[a] == m[a] { assert In(t, a, z); }
    forall k | 0 <= k < |t.ring| ensures t.ring[k] in m && t.ring[k] in m' && m'[t.ring[k]] == m[t.ring[k]] {
      assert In(t, t.ring[k], t.size);
    }
  }

  lemma RingStays(m: Cells, m': Cells, ring: seq<nat>, p: Parent, s: nat, i: nat)
    requires RingOk(m, ring, p, s, i)
    requires forall k :: 0 <= k < |ring| ==> ring[k] in m && ring[k] in m' && m'[ring[k]] == m[ring[k]]
    ensures RingOk(m', ring, p, s, i)
  {
    forall k | 0 <= k < |ring| ensures RingAt(m', ring, k, p, s, i) {
      assert RingAt(m, ring, k, p, s, i);
    }
  }

  lemma {:induction false} SpellsStays(m: Cells, m': Cells, x: nat, p: Parent, t: Tree, i: nat)
    requires Spells(m, x, p, t, i) && Same(m, m', t)
    ensures Spells(m', x, p, t, i)
    decreases t
  {
    if t.Node? {
      SameBelow(m, m', t);
      RingStays(m, m', t.ring, p, t.size, i);
      SpellsStays(m, m', m[x].left, Above(x), t.left, i);
      SpellsStays(m, m', m[x].right, Above(x), t.right, i);
      assert RingAt(m', t.ring, 0, p, t.size, i);
    }
  }

  /** A chunk of a trie is in one place of it only. */
  lemma OnePlace(m: Cells, x: nat, p: Parent, t: Tree, i: nat, lo: nat, w: nat, a: nat, z: nat)
    requires Spells(m, x, p, t, i) && Trie(t, lo, w) && t.Node? && In(t, a, z)
    ensures a in t.ring <==> z == t.size
    ensures In(t.left, a, z) || In(t.right, a, z) ==> a !in t.ring && w > 0
    ensures !(In(t.left, a, z) && In(t.right, a, z))
  {
    SpelledCell(m, x, p, t, i, a, z);
    if a in t.ring {
      assert In(t, a, t.size);
      SpelledCell(m, x, p, t, i, a, t.size);
    }
    if In(t.left, a, z) {
      InHasSize(t.left, a, z);
      RightIsApart(t, lo, w, a, z);
    }
    if In(t.right, a, z) {
      InHasSize(t.right, a, z);
    }
  }

  // ---- insert_large_chunk ----

  /** The link that insertion sets: a child link that is null, or the ring behind a chunk. */
  datatype Slot = LeftOf(a: nat) | RightOf(a: nat) | RingOf(a: nat)

  /** Where the chunk of size `s` belongs. */
  function PlaceFor(t: Tree, lo: nat, w: nat, s: nat): Slot
    requires t.Node? && Trie(t, lo, w)
    decreases t
  {
    if t.size == s || w == 0 then RingOf(t.ring[0])
    else if s < lo + Pow2(w - 1) then
      if t.left == Nil then LeftOf(t.ring[0]) else PlaceFor(t.left, lo, w - 1, s)
    else
      if t.right == Nil then RightOf(t.ring[0]) else PlaceFor(t.right, lo + Pow2(w - 1), w - 1, s)
  }

  /** The links that insertion sets there. */
  function Put(m: Cells, slot: Slot, x: nat): Cells
    requires slot.a in m && x in m && x != slot.a && (slot.RingOf? ==> m[slot.a].fd in m)
  {
    match slot
    case LeftOf(b) => m[b := m[b].(left := x)][x := m[x].(parent := Above(b), fd := x, bk := x)]
    case RightOf(b) => m[b := m[b].(right := x)][x := m[x].(parent := Above(b), fd := x, bk := x)]
    case RingOf(b) =>
      var f := m[b].fd;
      var m1 := m[b := m[b].(fd := x)];
      var m2 := m1[f := m1[f].(bk := x)];
      m2[x := m2[x].(fd := f, bk := b, parent := Null)]
  }

  /** A chunk outside the trie with its size, bin and null children set. */
  ghost predicate Fresh(m: Cells, t: Tree, a: nat, s: nat, i: nat) {
    a != 0 && a in m && m[a].size == s && m[a].index == i && m[a].left == 0 && m[a].right == 0
      && forall z: nat :: !In(t, a, z)
  }

  lemma FreshBelow(m: Cells, t: Tree, a: nat, s: nat, i: nat)
    requires t.Node? && Fresh(m, t, a, s, i)
    ensures a in m && m[a].size == s && Fresh(m, t.left, a, s, i) && Fresh(m, t.right, a, s, i) && a !in t.ring
  {
    forall z: nat ensures !In(t.left, a, z) && !In(t.right, a, z) { assert !In(t, a, z); }
    assert !In(t, a, t.size);
  }

  lemma {:induction false} PlaceIsThere(m: Cells, x: nat, p: Parent, t: Tree, i: nat, lo: nat, w: nat, s: nat)
    requires Spells(m, x, p, t, i) && Trie(t, lo, w) && t.Node? && lo <= s < lo + Pow2(w)
    ensures var slot := PlaceFor(t, lo, w, s);
            && slot.a in m && In(t, slot.a, m[slot.a].size) && m[slot.a].fd in m
            && In(t, m[slot.a].fd, m[slot.a].size)
    decreases t
  {
    if t.size == s || w == 0 {
      HeadIsThere(m, x, p, t, i);
    } else if s < lo + Pow2(w - 1) {
      if t.left == Nil {
        HeadIsThere(m, x, p, t, i);
      } else {
        PlaceIsThere(m, m[x].left, Above(x), t.left, i, lo, w - 1, s);
      }
    } else {
      if t.right == Nil {
        HeadIsThere(m, x, p, t, i);
      } else {
        PlaceIsThere(m, m[x].right, Above(x), t.right, i, lo + Pow2(w - 1), w - 1, s);
      }
    }
  }

  lemma HeadIsThere(m: Cells, x: nat, p: Parent, t: Tree, i: nat)
    requires Spells(m, x, p, t, i) && t.Node?
    ensures t.ring != [] && x == t.ring[0] && x in m && x != 0 && m[x].size == t.size && In(t, x, t.size)
    ensures m[x].fd in m && m[x].fd in t.ring && In(t, m[x].fd, t.size)
    ensures Spells(m, m[x].left, Above(x), t.left, i) && Spells(m, m[x].right, Above(x), t.right, i)
  {
    assert RingAt(m, t.ring, 0, p, t.size, i);
    assert After(t.ring, 0) in t.ring;
    SpelledCell(m, x, p, t, i, m[x].fd, t.size);
  }

  /** Linking a chunk elsewhere leaves a trie alone. */
  lemma PutElsewhere(m: Cells, slot: Slot, x: nat, t: Tree)
    requires slot.a in m && x in m && x != slot.a && (slot.RingOf? ==> m[slot.a].fd in m)
    requires forall a: nat, z: nat {:trigger In(t, a, z)} :: In(t, a, z) ==>
               a in m && a != x && a != slot.a && (slot.RingOf? ==> a != m[slot.a].fd)
    ensures Same(m, Put(m, slot, x), t)
  {
  }

  /** A chunk linked in behind the first of a ring. */
  lemma RingInsert(m: Cells, ring: seq<nat>, p: Parent, s: nat, i: nat, a: nat)
    requires RingOk(m, ring, p, s, i) && Distinct(ring) && a !in ring && a != 0 && a in m
    requires m[a].size == s && m[a].index == i && m[a].left == 0 && m[a].right == 0
    ensures ring[0] in m && m[ring[0]].fd in m
    ensures RingOk(Put(m, RingOf(ring[0]), a), [ring[0], a] + ring[1..], p, s, i)
    ensures var r := Put(m, RingOf(ring[0]), a);
            ring[0] in r && r[ring[0]].left == m[ring[0]].left && r[ring[0]].right == m[ring[0]].right
  {
    assert RingAt(m, ring, 0, p, s, i);
    assert RingAt(m, ring, if |ring| > 1 then 1 else 0, p, s, i);
    var r, all := Put(m, RingOf(ring[0]), a), [ring[0], a] + ring[1..];
    forall k | 0 <= k < |all| ensures RingAt(r, all, k, p, s, i) {
      if k >= 2 {
        assert RingAt(m, ring, k - 1, p, s, i) && all[k] == ring[k - 1];
        assert ring[k - 1] != ring[0];
        assert After(all, k) == After(ring, k - 1);
        assert k == 2 || Before(all, k) == Before(ring, k - 1);
        assert k == 2 || ring[k - 1] != ring[1];
      } else if k == 0 {
        assert Before(all, 0) == if |ring| > 1 then Before(ring, 0) else a;
      } else {
        assert After(all, 1) == After(ring, 0);
      }
    }
  }

  lemma InsertSteps(t: Tree, lo: nat, w: nat, a: nat, s: nat)
    requires Trie(t, lo, w) && t.Node? && lo <= s < lo + Pow2(w)
    ensures t.ring != [] && (w == 0 ==> t.size == s)
    ensures t.size == s ==>
      PlaceFor(t, lo, w, s) == RingOf(t.ring[0]) && Insert(t, lo, w, a, s) == t.(ring := [t.ring[0], a] + t.ring[1..])
    ensures t.size != s && s < lo + Pow2(w - 1) ==>
      && Trie(t.left, lo, w - 1) && Insert(t, lo, w, a, s) == t.(left := Insert(t.left, lo, w - 1, a, s))
      && (t.left == Nil ==> Insert(t.left, lo, w - 1, a, s) == Node(s, [a], Nil, Nil))
      && PlaceFor(t, lo, w, s) == if t.left == Nil then LeftOf(t.ring[0]) else PlaceFor(t.left, lo, w - 1, s)
    ensures t.size != s && s >= lo + Pow2(w - 1) ==>
      var mid := lo + Pow2(w - 1);
      && s < mid + Pow2(w - 1)
      && Trie(t.right, mid, w - 1) && Insert(t, lo, w, a, s) == t.(right := Insert(t.right, mid, w - 1, a, s))
      && (t.right == Nil ==> Insert(t.right, mid, w - 1, a, s) == Node(s, [a], Nil, Nil))
      && PlaceFor(t, lo, w, s) == if t.right == Nil then RightOf(t.ring[0]) else PlaceFor(t.right, mid, w - 1, s)
  {
    assert Pow2(0) == 1;
  }

  /** Linking chunk `a` at its place inserts it in the trie. */
  ghost predicate Inserts(m: Cells, x: nat, p: Parent, t: Tree, i: nat, lo: nat, w: nat, a: nat, s: nat) {
    t.Node? && Trie(t, lo, w) &&
    var slot := PlaceFor(t, lo, w, s);
    && slot.a in m && a in m && slot.a != a && m[slot.a].fd in m
    && Spells(Put(m, slot, a), x, p, Insert(t, lo, w, a, s), i)
  }

  lemma {:induction false} PutInserts(m: Cells, x: nat, p: Parent, t: Tree, i: nat, lo: nat, w: nat, a: nat, s: nat)
    requires Spells(m, x, p, t, i) && Trie(t, lo, w) && t.Node? && lo <= s < lo + Pow2(w) && Fresh(m, t, a, s, i)
    ensures Inserts(m, x, p, t, i, lo, w, a, s)
    decreases t, 1
  {
    InsertSteps(t, lo, w, a, s);
    if t.size == s {
      HeadIsThere(m, x, p, t, i);
      PutInRing(m, x, p, t, i, lo, w, a, s);
    } else {
      var left := s < lo + Pow2(w - 1);
      if (if left then t.left else t.right) == Nil {
        HeadIsThere(m, x, p, t, i);
        FreshBelow(m, t, a, s, i);
        PutChild(m, x, p, t, i, lo, w, a, s, left);
      } else {
        PutInsertsBelow(m, x, p, t, i, lo, w, a, s, left);
      }
    }
  }

  lemma {:induction false} PutInsertsBelow(m: Cells, x: nat, p: Parent, t: Tree, i: nat, lo: nat, w: nat, a: nat, s: nat, left: bool)
    requires Spells(m, x, p, t, i) && Trie(t, lo, w) && t.Node? && lo <= s < lo + Pow2(w) && Fresh(m, t, a, s, i)
    requires t.size != s && w > 0 && left == (s < lo + Pow2(w - 1)) && (if left then t.left else t.right).Node?
    ensures Inserts(m, x, p, t, i, lo, w, a, s)
    decreases t, 0
  {
    InsertSteps(t, lo, w, a, s);
    HeadIsThere(m, x, p, t, i);
    FreshBelow(m, t, a, s, i);
    var sub, low, y := if left then t.left else t.right, if left then lo else lo + Pow2(w - 1), if left then m[x].left else m[x].right;
    hide Fresh, Spells, Put, In, Trie, Insert;
    PutInserts(m, y, Above(x), sub, i, low, w - 1, a, s);
    PlaceIsThere(m, y, Above(x), sub, i, low, w - 1, s);
    PutBelow(m, x, p, t, i, lo, w, PlaceFor(t, lo, w, s), a, left, Insert(sub, low, w - 1, a, s));
  }

  /** A chunk of the size at the top joins the ring there. */
  lemma PutInRing(m: Cells, x: nat, p: Parent, t: Tree, i: nat, lo: nat, w: nat, a: nat, s: nat)
    requires Spells(m, x, p, t, i) && Trie(t, lo, w) && t.Node? && lo <= s < lo + Pow2(w) && Fresh(m, t, a, s, i)
    requires t.size == s || w == 0
    ensures t.size == s && x in m && a in m && x != a && m[x].fd in m
    ensures Spells(Put(m, RingOf(x), a), x, p, t.(ring := [t.ring[0], a] + t.ring[1..]), i)
  {
    assert Pow2(0) == 1;
    HeadIsThere(m, x, p, t, i);
    FreshBelow(m, t, a, s, i);
    RingInsert(m, t.ring, p, s, i, a);
    BelowIsNotRing(m, x, p, t, i, lo, w);
    PutElsewhere(m, RingOf(x), a, t.left);
    PutElsewhere(m, RingOf(x), a, t.right);
    SpellsStays(m, Put(m, RingOf(x), a), m[x].left, Above(x), t.left, i);
    SpellsStays(m, Put(m, RingOf(x), a), m[x].right, Above(x), t.right, i);
  }

  lemma BelowIsNotRing(m: Cells, x: nat, p: Parent, t: Tree, i: nat, lo: nat, w: nat)
    requires Spells(m, x, p, t, i) && Trie(t, lo, w) && t.Node?
    ensures forall a: nat, z: nat {:trigger In(t.left, a, z)} :: In(t.left, a, z) ==> a in m && a !in t.ring && In(t, a, z) && !In(t.right, a, z)
    ensures forall a: nat, z: nat {:trigger In(t.right, a, z)} :: In(t.right, a, z) ==> a in m && a !in t.ring && In(t, a, z) && !In(t.left, a, z)
  {
    forall a: nat, z: nat | In(t.left, a, z) ensures a in m && a !in t.ring && In(t, a, z) && !In(t.right, a, z) {
      assert In(t, a, z);
      SpelledCell(m, x, p, t, i, a, z);
      OnePlace(m, x, p, t, i, lo, w, a, z);
    }
    forall a: nat, z: nat | In(t.right, a, z) ensures a in m && a !in t.ring && In(t, a, z) && !In(t.left, a, z) {
      assert In(t, a, z);
      SpelledCell(m, x, p, t, i, a, z);
      OnePlace(m, x, p, t, i, lo, w, a, z);
    }
  }

  /** A null child link of the chunk at the top is set. */
  lemma PutChild(m: Cells, x: nat, p: Parent, t: Tree, i: nat, lo: nat, w: nat, a: nat, s: nat, left: bool)
    requires Spells(m, x, p, t, i) && Trie(t, lo, w) && t.Node? && Fresh(m, t, a, s, i)
    requires if left then t.left == Nil else t.right == Nil
    ensures x in m && a != x
    ensures var slot := if left then LeftOf(x) else RightOf(x);
            var leaf := Node(s, [a], Nil, Nil);
            Spells(Put(m, slot, a), x, p, if left then t.(left := leaf) else t.(right := leaf), i)
  {
    HeadIsThere(m, x, p, t, i);
    FreshBelow(m, t, a, s, i);
    var slot := if left then LeftOf(x) else RightOf(x);
    var r := Put(m, slot, a);
    BelowIsNotRing(m, x, p, t, i, lo, w);
    RingChild(m, r, t.ring, p, t.size, i, a);
    assert RingAt(r, [a], 0, Above(x), s, i);
    if left {
      PutElsewhere(m, slot, a, t.right);
      SpellsStays(m, r, m[x].right, Above(x), t.right, i);
    } else {
      PutElsewhere(m, slot, a, t.left);
      SpellsStays(m, r, m[x].left, Above(x), t.left, i);
    }
  }

  /** A ring whose first chunk gets another child is a ring still. */
  lemma RingChild(m: Cells, r: Cells, ring: seq<nat>, p: Parent, s: nat, i: nat, a: nat)
    requires RingOk(m, ring, p, s, i) && Distinct(ring) && a !in ring && m.Keys == r.Keys
    requires forall b :: b in m && b != a && b != ring[0] ==> r[b] == m[b]
    requires ring[0] in m ==> r[ring[0]] == m[ring[0]].(left := r[ring[0]].left, right := r[ring[0]].right)
    ensures RingOk(r, ring, p, s, i)
  {
    forall k | 0 <= k < |ring| ensures RingAt(r, ring, k, p, s, i) {
      assert RingAt(m, ring, k, p, s, i);
      assert k > 0 ==> ring[k] != ring[0];
    }
  }

  /** A link set inside one subtree changes that subtree only. */
  lemma PutBelow(m: Cells, x: nat, p: Parent, t: Tree, i: nat, lo: nat, w: nat, slot: Slot, a: nat, left: bool, sub': Tree)
    requires Spells(m, x, p, t, i) && Trie(t, lo, w) && t.Node? && a in m && Fresh(m, t, a, m[a].size, i)
    requires slot.a in m && a != slot.a
    requires var sub := if left then t.left else t.right;
             In(sub, slot.a, m[slot.a].size) && m[slot.a].fd in m && In(sub, m[slot.a].fd, m[slot.a].size)
    requires x in m && Spells(Put(m, slot, a), if left then m[x].left else m[x].right, Above(x), sub', i)
    ensures Spells(Put(m, slot, a), x, p, if left then t.(left := sub') else t.(right := sub'), i)
  {
    HeadIsThere(m, x, p, t, i);
    BelowIsNotRing(m, x, p, t, i, lo, w);
    var r := Put(m, slot, a);
    assert a !in t.ring by { assert !In(t, a, t.size); }
    forall k | 0 <= k < |t.ring| ensures t.ring[k] in m && t.ring[k] in r && r[t.ring[k]] == m[t.ring[k]] {
      assert RingAt(m, t.ring, k, p, t.size, i);
    }
    RingStays(m, r, t.ring, p, t.size, i);
    var other := if left then t.right else t.left;
    forall b: nat, z: nat | In(other, b, z) ensures b in m && b != a && b != slot.a && b != m[slot.a].fd {
      assert In(t, b, z);
      SpelledCell(m, x, p, t, i, b, z);
      SpelledCell(m, x, p, t, i, slot.a, m[slot.a].size);
      SpelledCell(m, x, p, t, i, m[slot.a].fd, m[slot.a].size);
    }
    PutElsewhere(m, slot, a, other);
    if left {
      SpellsStays(m, r, m[x].right, Above(x), t.right, i);
    } else {
      SpellsStays(m, r, m[x].left, Above(x), t.left, i);
    }
  }
}
