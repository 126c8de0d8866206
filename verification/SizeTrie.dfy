/** The trie of free chunks in one bin: at every node one more bit of the size picks the child, a
    node keeps a ring of chunks of its own size, and that size may be any of those below it. */
module SizeTrie {
  import opened BitStrings

  /** `ring` lists the chunks of the node's size along the fd links, the one in the tree first. */
  datatype Tree = Nil | Node(size: nat, ring: seq<nat>, left: Tree, right: Tree)

  predicate Distinct(ring: seq<nat>) {
    forall i, j :: 0 <= i < j < |ring| ==> ring[i] != ring[j]
  }

  /** A trie for the sizes from `lo`, `w` bits of which are still open. */
  predicate Trie(t: Tree, lo: nat, w: nat) {
    t.Node? ==>
      && lo <= t.size < lo + Pow2(w)
      && t.ring != [] && Distinct(t.ring)
      && !HasSize(t.left, t.size) && !HasSize(t.right, t.size)
      && (w == 0 ==> t.left == Nil && t.right == Nil)
      && (w > 0 ==> Trie(t.left, lo, w - 1) && Trie(t.right, lo + Pow2(w - 1), w - 1))
  }

  predicate HasSize(t: Tree, s: nat) {
    t.Node? && (t.size == s || HasSize(t.left, s) || HasSize(t.right, s))
  }

  /** Chunk `a` of size `s` is in the trie. */
  predicate In(t: Tree, a: nat, s: nat) {
    t.Node? && ((t.size == s && a in t.ring) || In(t.left, a, s) || In(t.right, a, s))
  }

  /** It is the first of its ring, the one in the tree. */
  predicate Leads(t: Tree, a: nat, s: nat)
    ensures Leads(t, a, s) ==> In(t, a, s)
  {
    t.Node? && ((t.size == s && t.ring != [] && t.ring[0] == a) || Leads(t.left, a, s) || Leads(t.right, a, s))
  }

  lemma {:induction false} InHasSize(t: Tree, a: nat, s: nat)
    requires In(t, a, s)
    ensures HasSize(t, s)
  {
    if In(t.left, a, s) {
      InHasSize(t.left, a, s);
    } else if In(t.right, a, s) {
      InHasSize(t.right, a, s);
    }
  }

  lemma {:induction false} SizesInRange(t: Tree, lo: nat, w: nat, s: nat)
    requires Trie(t, lo, w) && HasSize(t, s)
    ensures lo <= s < lo + Pow2(w)
  {
    if t.size != s {
      if HasSize(t.left, s) {
        SizesInRange(t.left, lo, w - 1, s);
      } else {
        SizesInRange(t.right, lo + Pow2(w - 1), w - 1, s);
      }
    }
  }

  // ---- Insertion ----

  /** A chunk of a size that is there already comes behind the first of the ring. */
  function Insert(t: Tree, lo: nat, w: nat, a: nat, s: nat): (r: Tree)
    ensures r.Node?
    decreases t
  {
    if t == Nil then Node(s, [a], Nil, Nil)
    else if t.size == s then
      t.(ring := if t.ring == [] then [a] else [t.ring[0], a] + t.ring[1..])
    else if w == 0 then t
    else if s < lo + Pow2(w - 1) then t.(left := Insert(t.left, lo, w - 1, a, s))
    else t.(right := Insert(t.right, lo + Pow2(w - 1), w - 1, a, s))
  }

  /** Insertion keeps the trie and adds one chunk. */
  lemma {:induction false} InsertAdds(t: Tree, lo: nat, w: nat, a: nat, s: nat)
    requires Trie(t, lo, w) && lo <= s < lo + Pow2(w) && !In(t, a, s)
    ensures var r := Insert(t, lo, w, a, s);
            Trie(r, lo, w) && (forall b, z :: In(r, b, z) <==> In(t, b, z) || (b == a && z == s))
            && (forall z :: HasSize(r, z) <==> HasSize(t, z) || z == s)
  {
    if t == Nil {
    } else if t.size == s {
    } else if s < lo + Pow2(w - 1) {
      InsertAdds(t.left, lo, w - 1, a, s);
    } else {
      InsertAdds(t.right, lo + Pow2(w - 1), w - 1, a, s);
    }
  }

  // ---- Removal ----

  /** The chain that is left when the chunk at `i` is unlinked: its bk neighbour takes the place of
      the first. */
  function Unring(ring: seq<nat>, i: nat): (r: seq<nat>)
    requires i < |ring|
    ensures |r| == |ring| - 1
  {
    if i == 0 && |ring| > 1 then [ring[|ring| - 1]] + ring[1..|ring| - 1] else ring[..i] + ring[i + 1..]
  }

  /** Following the right child, or the left one where there is no right one, down to a leaf: the
      leaf, and what is left of the trie. */
  function TakeLeaf(t: Tree): (r: (Tree, Tree))
    requires t.Node?
    ensures r.0.Node?
  {
    if t.right.Node? then var (leaf, rest) := TakeLeaf(t.right); (leaf, t.(right := rest))
    else if t.left.Node? then var (leaf, rest) := TakeLeaf(t.left); (leaf, t.(left := rest))
    else (t, Nil)
  }

  /** A node whose ring is used up: a leaf from below takes its place. */
  function DropNode(t: Tree): Tree
    requires t.Node?
  {
    if t.right.Node? then
      var (leaf, rest) := TakeLeaf(t.right);
      Node(leaf.size, leaf.ring, t.left, rest)
    else if t.left.Node? then
      var (leaf, rest) := TakeLeaf(t.left);
      Node(leaf.size, leaf.ring, rest, Nil)
    else Nil
  }

  function IndexOf(ring: seq<nat>, a: nat): (i: nat)
    requires a in ring
    ensures i < |ring| && ring[i] == a
  {
    if ring[0] == a then 0 else 1 + IndexOf(ring[1..], a)
  }

  function Remove(t: Tree, a: nat, s: nat): Tree
    requires In(t, a, s)
    decreases t
  {
    if t.size == s && a in t.ring then
      if |t.ring| > 1 then t.(ring := Unring(t.ring, IndexOf(t.ring, a))) else DropNode(t)
    else if In(t.left, a, s) then t.(left := Remove(t.left, a, s))
    else t.(right := Remove(t.right, a, s))
  }

  lemma UnringDrops(ring: seq<nat>, i: nat)
    requires i < |ring| && Distinct(ring)
    ensures Distinct(Unring(ring, i)) && forall b :: b in Unring(ring, i) <==> b in ring && b != ring[i]
  {
    var r := Unring(ring, i);
    if i == 0 && |ring| > 1 {
      var n := |ring| - 1;
      assert ring == [ring[0]] + ring[1..n] + [ring[n]];
      assert |r| == n && r[0] == ring[n] && forall k :: 1 <= k < n ==> r[k] == ring[k];
    } else {
      assert ring == ring[..i] + [ring[i]] + ring[i + 1..];
    }
  }

  /** Taking a leaf keeps the rest a trie, and the leaf's ring is all that goes. */
  lemma {:induction false} TakeLeafTakes(t: Tree, lo: nat, w: nat)
    requires t.Node? && Trie(t, lo, w)
    ensures var (leaf, rest) := TakeLeaf(t);
            && lo <= leaf.size < lo + Pow2(w) && leaf.ring != [] && Distinct(leaf.ring)
            && Trie(rest, lo, w) && HasSize(t, leaf.size) && !HasSize(rest, leaf.size)
            && (forall b, z :: In(t, b, z) <==> In(rest, b, z) || (z == leaf.size && b in leaf.ring))
            && (forall z :: HasSize(t, z) <==> HasSize(rest, z) || z == leaf.size)
  {
    if t.right.Node? {
      TakeLeafTakes(t.right, lo + Pow2(w - 1), w - 1);
      var leaf := TakeLeaf(t.right).0;
      if HasSize(t.left, leaf.size) {
        SizesInRange(t.left, lo, w - 1, leaf.size);
      }
    } else if t.left.Node? {
      TakeLeafTakes(t.left, lo, w - 1);
    }
  }

  /** A node that goes leaves a trie of all the others. */
  lemma DropNodeDrops(t: Tree, lo: nat, w: nat)
    requires t.Node? && Trie(t, lo, w)
    ensures var r := DropNode(t);
            && Trie(r, lo, w)
            && (forall b, z :: In(t, b, z) <==> In(r, b, z) || (z == t.size && b in t.ring))
            && (forall z :: HasSize(t, z) <==> HasSize(r, z) || z == t.size)
            && !HasSize(r, t.size)
  {
    if t.right.Node? {
      TakeLeafTakes(t.right, lo + Pow2(w - 1), w - 1);
      var leaf := TakeLeaf(t.right).0;
      if HasSize(t.left, leaf.size) {
        SizesInRange(t.left, lo, w - 1, leaf.size);
      }
    } else if t.left.Node? {
      TakeLeafTakes(t.left, lo, w - 1);
    }
  }

  /** Removal keeps the trie and takes that one chunk away, although a node that is used up is
      replaced by a leaf of another size. */
  lemma {:induction false} RemoveTakesOne(t: Tree, lo: nat, w: nat, a: nat, s: nat)
    requires Trie(t, lo, w) && In(t, a, s)
    ensures var r := Remove(t, a, s);
            && Trie(r, lo, w)
            && (forall b, z :: In(r, b, z) <==> In(t, b, z) && !(b == a && z == s))
            && (forall z :: HasSize(r, z) ==> HasSize(t, z))
    decreases t
  {
    if t.size == s && a in t.ring {
      if In(t.left, a, s) {
        InHasSize(t.left, a, s);
      } else if In(t.right, a, s) {
        InHasSize(t.right, a, s);
      }
      if |t.ring| > 1 {
        UnringDrops(t.ring, IndexOf(t.ring, a));
      } else {
        DropNodeDrops(t, lo, w);
        forall b, z | In(DropNode(t), b, z) ensures z != t.size {
          InHasSize(DropNode(t), b, z);
        }
      }
    } else if In(t.left, a, s) {
      RemoveTakesOne(t.left, lo, w - 1, a, s);
      RightIsApart(t, lo, w, a, s);
    } else {
      RemoveTakesOne(t.right, lo + Pow2(w - 1), w - 1, a, s);
    }
  }

  lemma RightIsApart(t: Tree, lo: nat, w: nat, a: nat, s: nat)
    requires Trie(t, lo, w) && In(t, a, s) && In(t.left, a, s)
    ensures !In(t.right, a, s)
  {
    InHasSize(t.left, a, s);
    SizesInRange(t.left, lo, w - 1, s);
    if In(t.right, a, s) {
      InHasSize(t.right, a, s);
      SizesInRange(t.right, lo + Pow2(w - 1), w - 1, s);
    }
  }

  // ---- The order of the rings ----

  /** The chunks of a size along the fd links, from the one in the tree on. */
  function RingOfSize(t: Tree, s: nat): seq<nat> {
    if t == Nil then []
    else if t.size == s then t.ring
    else if HasSize(t.left, s) then RingOfSize(t.left, s)
    else RingOfSize(t.right, s)
  }

  lemma {:induction false} NoRing(t: Tree, s: nat)
    requires !HasSize(t, s)
    ensures RingOfSize(t, s) == []
  {
    if t.Node? {
      NoRing(t.right, s);
    }
  }

  /** The chunk in the tree stays the first of its ring, the new one comes right behind it, and the rings
      of other sizes stay as they are. */
  lemma {:induction false} InsertIsSecond(t: Tree, lo: nat, w: nat, a: nat, s: nat, z: nat)
    requires Trie(t, lo, w) && lo <= s < lo + Pow2(w) && !In(t, a, s)
    ensures var was, now := RingOfSize(t, z), RingOfSize(Insert(t, lo, w, a, s), z);
            now == if z != s then was else if was == [] then [a] else [was[0], a] + was[1..]
    decreases t
  {
    if t == Nil || t.size == s {
      return;
    }
    if s < lo + Pow2(w - 1) {
      InsertAdds(t.left, lo, w - 1, a, s);
      InsertIsSecond(t.left, lo, w - 1, a, s, z);
      OtherHalf(t, lo, w, s);
      if !HasSize(t.left, z) { NoRing(t.left, z); }
    } else {
      InsertAdds(t.right, lo + Pow2(w - 1), w - 1, a, s);
      InsertIsSecond(t.right, lo + Pow2(w - 1), w - 1, a, s, z);
      OtherHalf(t, lo, w, s);
    }
  }

  /** A size is at most in its half. */
  lemma OtherHalf(t: Tree, lo: nat, w: nat, s: nat)
    requires t.Node? && Trie(t, lo, w) && w > 0
    ensures if s < lo + Pow2(w - 1) then !HasSize(t.right, s) && RingOfSize(t.right, s) == []
            else !HasSize(t.left, s) && RingOfSize(t.left, s) == []
  {
    if HasSize(t.left, s) {
      SizesInRange(t.left, lo, w - 1, s);
    } else {
      NoRing(t.left, s);
    }
    if HasSize(t.right, s) {
      SizesInRange(t.right, lo + Pow2(w - 1), w - 1, s);
    } else {
      NoRing(t.right, s);
    }
  }

  /** The leaf is in the right subtree if there is one, and the rest keeps its rings. */
  lemma {:induction false} TakeLeafGoesRight(t: Tree, lo: nat, w: nat, z: nat)
    requires t.Node? && Trie(t, lo, w)
    ensures var (leaf, rest) := TakeLeaf(t);
            && (t.right.Node? ==> HasSize(t.right, leaf.size)) && (!t.right.Node? && t.left.Node? ==> HasSize(t.left, leaf.size))
            && leaf.left == Nil && leaf.right == Nil && leaf.ring == RingOfSize(t, leaf.size)
            && (z != leaf.size ==> RingOfSize(rest, z) == RingOfSize(t, z))
  {
    TakeLeafTakes(t, lo, w);
    if t.right.Node? {
      TakeLeafTakes(t.right, lo + Pow2(w - 1), w - 1);
      TakeLeafGoesRight(t.right, lo + Pow2(w - 1), w - 1, z);
      OtherHalf(t, lo, w, TakeLeaf(t.right).0.size);
    } else if t.left.Node? {
      TakeLeafTakes(t.left, lo, w - 1);
      TakeLeafGoesRight(t.left, lo, w - 1, z);
      NoRing(TakeLeaf(t.left).1, TakeLeaf(t.left).0.size);
      if !HasSize(t.left, z) { NoRing(t.left, z); }
      if !HasSize(TakeLeaf(t.left).1, z) { NoRing(TakeLeaf(t.left).1, z); }
    }
  }

  lemma DropNodeKeepsRings(t: Tree, lo: nat, w: nat, z: nat)
    requires t.Node? && Trie(t, lo, w)
    ensures RingOfSize(DropNode(t), z) == if z == t.size then [] else RingOfSize(t, z)
  {
    DropNodeDrops(t, lo, w);
    if z == t.size {
      NoRing(DropNode(t), z);
    } else if t.right.Node? {
      TakeLeafTakes(t.right, lo + Pow2(w - 1), w - 1);
      TakeLeafGoesRight(t.right, lo + Pow2(w - 1), w - 1, z);
      OtherHalf(t, lo, w, TakeLeaf(t.right).0.size);
    } else if t.left.Node? {
      TakeLeafTakes(t.left, lo, w - 1);
      TakeLeafGoesRight(t.left, lo, w - 1, z);
      if !HasSize(t.left, z) { NoRing(t.left, z); }
      if !HasSize(TakeLeaf(t.left).1, z) { NoRing(TakeLeaf(t.left).1, z); }
    }
  }

  /** A chunk leaves its ring as a link leaves a circle: the others stay in their order, and where the first
      leaves, the last, which was linked to it, is the first. */
  ghost predicate LeftRing(was: seq<nat>, now: seq<nat>, a: nat) {
    exists i: nat :: i < |was| && was[i] == a &&
      now == if i == 0 && |was| > 1 then [was[|was| - 1]] + was[1..|was| - 1] else was[..i] + was[i + 1..]
  }

  lemma RemoveHere(t: Tree, lo: nat, w: nat, a: nat, z: nat)
    requires Trie(t, lo, w) && t.Node? && a in t.ring
    ensures var was, now := RingOfSize(t, z), RingOfSize(Remove(t, a, t.size), z);
            if z != t.size then now == was else LeftRing(was, now, a)
  {
    var i := IndexOf(t.ring, a);
    assert t.ring[i] == a;
    if |t.ring| == 1 {
      DropNodeKeepsRings(t, lo, w, z);
      assert t.ring[..0] + t.ring[1..] == [] && i == 0;
    }
  }

  /** What happens to a ring in a subtree happens to it in the whole. */
  lemma RingBelow(t: Tree, r: Tree, lo: nat, w: nat, z: nat)
    requires t.Node? && Trie(t, lo, w) && w > 0 && r.Node? && Trie(r, lo, w) && r.size == t.size && r.ring == t.ring
    ensures var half := lo + Pow2(w - 1);
            z != t.size ==> RingOfSize(t, z) == (if z < half then RingOfSize(t.left, z) else RingOfSize(t.right, z))
                            && RingOfSize(r, z) == (if z < half then RingOfSize(r.left, z) else RingOfSize(r.right, z))
  {
    OtherHalf(t, lo, w, z);
    OtherHalf(r, lo, w, z);
    if !HasSize(t.left, z) { NoRing(t.left, z); }
    if !HasSize(r.left, z) { NoRing(r.left, z); }
  }

  lemma RemoveBelow(t: Tree, lo: nat, w: nat, a: nat, s: nat)
    requires Trie(t, lo, w) && In(t, a, s) && !(t.size == s && a in t.ring)
    ensures w > 0 && t.size != s && Trie(Remove(t, a, s), lo, w)
    ensures if s < lo + Pow2(w - 1) then In(t.left, a, s) && Remove(t, a, s) == t.(left := Remove(t.left, a, s))
            else In(t.right, a, s) && Remove(t, a, s) == t.(right := Remove(t.right, a, s))
  {
    InHasSize(if In(t.left, a, s) then t.left else t.right, a, s);
    OtherHalf(t, lo, w, s);
    RemoveTakesOne(t, lo, w, a, s);
  }

  /** The rings of other sizes stay as they are. */
  lemma {:induction false} RemoveKeepsRings(t: Tree, lo: nat, w: nat, a: nat, s: nat, z: nat)
    requires Trie(t, lo, w) && In(t, a, s)
    ensures var was, now := RingOfSize(t, z), RingOfSize(Remove(t, a, s), z);
            if z != s then now == was else LeftRing(was, now, a)
    decreases t
  {
    if t.size == s && a in t.ring {
      RemoveHere(t, lo, w, a, z);
    } else {
      RemoveBelow(t, lo, w, a, s);
      RingBelow(t, Remove(t, a, s), lo, w, z);
      hide LeftRing;
      if s < lo + Pow2(w - 1) {
        RemoveKeepsRings(t.left, lo, w - 1, a, s, z);
      } else {
        RemoveKeepsRings(t.right, lo + Pow2(w - 1), w - 1, a, s, z);
      }
    }
  }

  function Depth(t: Tree): nat {
    if t == Nil then 0 else 1 + if Depth(t.left) > Depth(t.right) then Depth(t.left) else Depth(t.right)
  }

  /** There are no more levels than bits that were open, and one. */
  lemma {:induction false} DepthIsBounded(t: Tree, lo: nat, w: nat)
    requires Trie(t, lo, w)
    ensures Depth(t) <= w + 1
    decreases t
  {
    if t.Node? && w > 0 {
      DepthIsBounded(t.left, lo, w - 1);
      DepthIsBounded(t.right, lo + Pow2(w - 1), w - 1);
    }
  }

  // ---- The bits that pick the child ----

  /** The shifted size holds, at the top of a word of n bits, the bits that are still open. */
  predicate Key(k: nat, s: nat, lo: nat, w: nat, n: nat) {
    w <= n && lo <= s < lo + Pow2(w) && k == Shl(s - lo, n - w)
  }

  /** K >> (n - 1). */
  function TopBit(k: nat, n: nat): nat
    requires n > 0
  {
    Shr(k, n - 1)
  }

  /** K <<= 1. */
  function NextKey(k: nat, n: nat): nat {
    Low(2 * k, n)
  }

  lemma {:induction false} ShlBelow(v: nat, m: nat, n: nat)
    requires v < Pow2(m)
    ensures Shl(v, n) < Pow2(m + n)
  {
    if n > 0 {
      ShlBelow(v, m, n - 1);
    }
  }

  lemma {:induction false} ShrOfShl(v: nat, n: nat, m: nat)
    requires n <= m
    ensures Shr(Shl(v, n), m) == Shr(v, m - n)
  {
    if n > 0 {
      ShrOfShl(v, n - 1, m - 1);
    }
  }

  lemma {:induction false} ShrOfOne(v: nat, m: nat)
    requires v < 2 * Pow2(m)
    ensures Shr(v, m) == if v < Pow2(m) then 0 else 1
  {
    if m > 0 {
      ShrOfOne(v / 2, m - 1);
    }
  }

  lemma {:induction false} ShlAdds(v: nat, u: nat, n: nat)
    ensures Shl(v + u, n) == Shl(v, n) + Shl(u, n)
  {
    if n > 0 {
      ShlAdds(v, u, n - 1);
    }
  }

  lemma {:induction false} ShlOfPow2(m: nat, n: nat)
    ensures Shl(Pow2(m), n) == Pow2(m + n)
  {
    if n > 0 {
      ShlOfPow2(m, n - 1);
    }
  }

  /** The top bit tells the half, and shifting once gives the key for that half. */
  lemma KeyPicksHalf(k: nat, s: nat, lo: nat, w: nat, n: nat)
    requires Key(k, s, lo, w, n) && w > 0
    ensures var half := Pow2(w - 1);
            if s < lo + half then TopBit(k, n) == 0 && Key(NextKey(k, n), s, lo, w - 1, n)
            else TopBit(k, n) == 1 && Key(NextKey(k, n), s, lo + half, w - 1, n)
  {
    hide Shl, Shr, Pow2, Low;
    var half, v := Pow2(w - 1), s - lo;
    Pow2Half(w);
    ShrOfShl(v, n - w, n - 1);
    ShrOfOne(v, w - 1);
    ShlOnce(v, n - w);
    var m := n - w + 1;
    var u := if v < half then v else v - half;
    ShlBelow(u, w - 1, m);
    ShlOfPow2(w - 1, m);
    ShlAdds(u, half, m);
    LowBelow(Shl(u, m), n);
    LowOver(Shl(u, m), n);
  }

  lemma {:induction false} LowBelow(x: nat, n: nat)
    requires x < Pow2(n)
    ensures Low(x, n) == x
  {
    if n > 0 {
      LowBelow(x / 2, n - 1);
    }
  }

  /** 2^n is cut off from a word of n bits. */
  lemma {:induction false} LowOver(x: nat, n: nat)
    ensures Low(Pow2(n) + x, n) == Low(x, n)
  {
    if n > 0 {
      assert (Pow2(n) + x) / 2 == Pow2(n - 1) + x / 2;
      LowOver(x / 2, n - 1);
    }
  }

  lemma ShlOnce(v: nat, n: nat)
    ensures Shl(v, n + 1) == 2 * Shl(v, n)
  {
  }

  lemma Pow2Half(w: nat)
    requires w > 0
    ensures Pow2(w) == 2 * Pow2(w - 1)
  {
  }
}
