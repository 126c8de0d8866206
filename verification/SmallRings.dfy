/** The small bins with their links: each ring is doubly linked through the header of its bin, and the
    macros that insert and unlink set its fd and bk fields one by one. */
module SmallRings {
  import opened BinMaps
  import opened HeapBins
  import opened SizeTrie

  /** What a link points to: the header of a bin, or a chunk. */
  datatype Spot = BinHead(i: nat) | ChunkAt(a: nat)

  type Links = map<Spot, Spot>

  /** The places of a ring in order, from its header through its chunks to its header again. */
  function SpotAt(i: nat, ring: seq<nat>, k: nat): Spot {
    if 1 <= k <= |ring| then ChunkAt(ring[k - 1]) else BinHead(i)
  }

  /** Two places that follow each other are linked both ways. */
  ghost predicate Joined(fd: Links, bk: Links, i: nat, ring: seq<nat>, k: nat) {
    var a, b := SpotAt(i, ring, k), SpotAt(i, ring, k + 1);
    a in fd && fd[a] == b && b in bk && bk[b] == a
  }

  /** The links spell the ring of bin `i`. */
  ghost predicate RingSpelled(fd: Links, bk: Links, i: nat, ring: seq<nat>) {
    Distinct(ring) && forall k: nat :: k <= |ring| ==> Joined(fd, bk, i, ring, k)
  }

  /** What do_check_smallbin and do_check_free_chunk test of the links: a marked bin's header does not
      point to itself, and the neighbours of each chunk point back to it. */
  lemma RingChecks(fd: Links, bk: Links, i: nat, ring: seq<nat>, a: nat)
    requires RingSpelled(fd, bk, i, ring) && a in ring
    ensures BinHead(i) in fd && BinHead(i) in bk && fd[BinHead(i)] != BinHead(i) && bk[BinHead(i)] != BinHead(i)
    ensures var p := ChunkAt(a);
            && p in fd && p in bk && fd[p] in bk && bk[p] in fd && bk[fd[p]] == p && fd[bk[p]] == p
            && fd[p] != p && bk[p] != p && (fd[p] == bk[p] <==> |ring| == 1)
            && forall q :: q == fd[p] || q == bk[p] ==> q == BinHead(i) || (q.ChunkAt? && q.a in ring)
  {
    var k := IndexOf(ring, a) + 1;
    assert Joined(fd, bk, i, ring, 0) && Joined(fd, bk, i, ring, |ring|);
    assert Joined(fd, bk, i, ring, k - 1) && Joined(fd, bk, i, ring, k);
  }

  // ---- One ring ----

  /** A chunk linked between the header and `f`, which was first. */
  lemma LinkedInFront(fd: Links, bk: Links, i: nat, ring: seq<nat>, p: nat, f: Spot)
    requires Distinct(ring) && p !in ring && f == SpotAt(i, ring, 1)
    requires forall k: nat :: 1 <= k <= |ring| ==> Joined(fd, bk, i, ring, k)
    ensures RingSpelled(fd[BinHead(i) := ChunkAt(p)][ChunkAt(p) := f], bk[f := ChunkAt(p)][ChunkAt(p) := BinHead(i)], i, [p] + ring)
  {
    var fd', bk' := fd[BinHead(i) := ChunkAt(p)][ChunkAt(p) := f], bk[f := ChunkAt(p)][ChunkAt(p) := BinHead(i)];
    forall k: nat | k <= |ring| + 1 ensures Joined(fd', bk', i, [p] + ring, k) {
      if k > 1 {
        assert Joined(fd, bk, i, ring, k - 1);
      }
    }
  }

  /** The neighbours of a chunk linked to each other. */
  lemma LinkedPast(fd: Links, bk: Links, i: nat, ring: seq<nat>, k: nat)
    requires RingSpelled(fd, bk, i, ring) && 1 <= k <= |ring| && |ring| > 1
    ensures var f, b := SpotAt(i, ring, k + 1), SpotAt(i, ring, k - 1);
            RingSpelled(fd[b := f], bk[f := b], i, Without(ring, k - 1))
  {
    var f, b := SpotAt(i, ring, k + 1), SpotAt(i, ring, k - 1);
    var fd', bk', rest := fd[b := f], bk[f := b], Without(ring, k - 1);
    WithoutDrops(ring, k - 1);
    forall m: nat | m < |ring| ensures Joined(fd', bk', i, rest, m) {
      if m < k - 1 {
        assert Joined(fd, bk, i, ring, m);
      } else if m >= k {
        assert Joined(fd, bk, i, ring, m + 1);
      }
    }
  }

  /** A ring none of whose places was written stays spelled. */
  lemma RingStays(fd: Links, bk: Links, fd': Links, bk': Links, i: nat, ring: seq<nat>)
    requires RingSpelled(fd, bk, i, ring)
    requires forall q: Spot :: q == BinHead(i) || (q.ChunkAt? && q.a in ring) ==>
               (q in fd ==> q in fd' && fd'[q] == fd[q]) && (q in bk ==> q in bk' && bk'[q] == bk[q])
    ensures RingSpelled(fd', bk', i, ring)
  {
    forall k: nat | k <= |ring| ensures Joined(fd', bk', i, ring, k) {
      assert Joined(fd, bk, i, ring, k);
    }
  }

  // ---- All rings ----

  ghost predicate RingOk(smallmap: nat, fd: Links, bk: Links, rings: seq<seq<nat>>, i: nat)
    requires i < |rings|
  {
    Has(smallmap, i) ==> rings[i] != [] && RingSpelled(fd, bk, i, rings[i])
  }

  ghost predicate RingsApart(smallmap: nat, rings: seq<seq<nat>>, i: nat, j: nat)
    requires i < |rings| && j < |rings|
  {
    i != j && Has(smallmap, i) && Has(smallmap, j) ==> forall a :: a in rings[i] ==> a !in rings[j]
  }

  /** The rings of the marked bins are spelled and apart; what an unmarked bin's links hold is stale. */
  ghost predicate RingsOk(smallmap: nat, fd: Links, bk: Links, rings: seq<seq<nat>>) {
    && |rings| == BINS && smallmap < WORDS
    && (forall i: nat :: i < BINS ==> RingOk(smallmap, fd, bk, rings, i))
    && (forall i: nat, j: nat :: i < BINS && j < BINS ==> RingsApart(smallmap, rings, i, j))
  }

  /** No ring that is marked holds the chunk. */
  ghost predicate InNoRing(smallmap: nat, rings: seq<seq<nat>>, p: nat) {
    forall i: nat :: i < |rings| && Has(smallmap, i) ==> p !in rings[i]
  }

  lemma InsertedRings(smallmap: nat, fd: Links, bk: Links, rings: seq<seq<nat>>, i: nat, p: nat, f: Spot,
                      fd': Links, bk': Links)
    requires RingsOk(smallmap, fd, bk, rings) && i < BINS && InNoRing(smallmap, rings, p)
    requires f == SpotAt(i, if Has(smallmap, i) then rings[i] else [], 1)
    requires fd' == fd[BinHead(i) := ChunkAt(p)][ChunkAt(p) := f]
    requires bk' == bk[f := ChunkAt(p)][ChunkAt(p) := BinHead(i)]
    ensures RingsOk(if Has(smallmap, i) then smallmap else Mark(smallmap, i), fd', bk',
                    rings[i := [p] + if Has(smallmap, i) then rings[i] else []])
  {
    var ring := if Has(smallmap, i) then rings[i] else [];
    var now := if Has(smallmap, i) then smallmap else Mark(smallmap, i);
    var after := rings[i := [p] + ring];
    MarkSetsOneBit(smallmap, i, i);
    assert RingOk(smallmap, fd, bk, rings, i);
    LinkedInFront(fd, bk, i, ring, p, f);
    forall j: nat | j < BINS ensures RingOk(now, fd', bk', after, j) {
      MarkSetsOneBit(smallmap, i, j);
      assert RingOk(smallmap, fd, bk, rings, j) && RingsApart(smallmap, rings, i, j);
      if j != i && Has(smallmap, j) {
        RingStays(fd, bk, fd', bk', j, rings[j]);
      }
    }
    forall j: nat, k: nat | j < BINS && k < BINS ensures RingsApart(now, after, j, k) {
      MarkSetsOneBit(smallmap, i, j);
      MarkSetsOneBit(smallmap, i, k);
      assert RingsApart(smallmap, rings, j, k);
    }
  }

  lemma UnlinkedRings(smallmap: nat, fd: Links, bk: Links, rings: seq<seq<nat>>, i: nat, p: nat)
    requires RingsOk(smallmap, fd, bk, rings) && i < BINS && Has(smallmap, i) && p in rings[i]
    ensures ChunkAt(p) in fd && ChunkAt(p) in bk && (fd[ChunkAt(p)] == bk[ChunkAt(p)] <==> |rings[i]| == 1)
    ensures |rings[i]| == 1 ==> RingsOk(Clear(smallmap, i), fd, bk, rings)
    ensures var f, b := fd[ChunkAt(p)], bk[ChunkAt(p)];
            |rings[i]| > 1 ==>
              RingsOk(smallmap, fd[b := f], bk[f := b], rings[i := Without(rings[i], IndexOf(rings[i], p))])
  {
    assert RingOk(smallmap, fd, bk, rings, i);
    RingChecks(fd, bk, i, rings[i], p);
    if |rings[i]| == 1 {
      ClearedRings(smallmap, fd, bk, rings, i);
    } else {
      ShortenedRings(smallmap, fd, bk, rings, i, p);
    }
  }

  lemma ClearedRings(smallmap: nat, fd: Links, bk: Links, rings: seq<seq<nat>>, i: nat)
    requires RingsOk(smallmap, fd, bk, rings) && i < BINS && Has(smallmap, i)
    ensures RingsOk(Clear(smallmap, i), fd, bk, rings)
  {
    ClearDropsOneBit(smallmap, i, i);
    forall j: nat | j < BINS ensures RingOk(Clear(smallmap, i), fd, bk, rings, j) {
      ClearDropsOneBit(smallmap, i, j);
      assert RingOk(smallmap, fd, bk, rings, j);
    }
    forall j: nat, k: nat | j < BINS && k < BINS ensures RingsApart(Clear(smallmap, i), rings, j, k) {
      ClearDropsOneBit(smallmap, i, j);
      ClearDropsOneBit(smallmap, i, k);
      assert RingsApart(smallmap, rings, j, k);
    }
  }

  lemma ShortenedRings(smallmap: nat, fd: Links, bk: Links, rings: seq<seq<nat>>, i: nat, p: nat)
    requires RingsOk(smallmap, fd, bk, rings) && i < BINS && Has(smallmap, i) && p in rings[i] && |rings[i]| > 1
    ensures ChunkAt(p) in fd && ChunkAt(p) in bk
    ensures var f, b := fd[ChunkAt(p)], bk[ChunkAt(p)];
            RingsOk(smallmap, fd[b := f], bk[f := b], rings[i := Without(rings[i], IndexOf(rings[i], p))])
  {
    hide Has;
    assert RingOk(smallmap, fd, bk, rings, i);
    var ring, k := rings[i], IndexOf(rings[i], p) + 1;
    assert Joined(fd, bk, i, ring, k - 1) && Joined(fd, bk, i, ring, k);
    var f, b := SpotAt(i, ring, k + 1), SpotAt(i, ring, k - 1);
    var rest := Without(ring, k - 1);
    var fd', bk', after := fd[b := f], bk[f := b], rings[i := rest];
    LinkedPast(fd, bk, i, ring, k);
    WithoutDrops(ring, k - 1);
    forall j: nat | j < BINS ensures RingOk(smallmap, fd', bk', after, j) {
      assert RingOk(smallmap, fd, bk, rings, j) && RingsApart(smallmap, rings, i, j);
      if j != i && Has(smallmap, j) {
        RingStays(fd, bk, fd', bk', j, rings[j]);
      }
    }
    forall j: nat, m: nat | j < BINS && m < BINS ensures RingsApart(smallmap, after, j, m) {
      assert RingsApart(smallmap, rings, j, m);
    }
  }

  // ---- The bins ----

  class SmallBins {
    var smallmap: nat
    var fd: Links
    var bk: Links
    /** The rings that the links spell, as far as their bins are marked. */
    ghost var rings: seq<seq<nat>>

    ghost predicate Valid()
      reads this
    {
      RingsOk(smallmap, fd, bk, rings)
    }

    /** init_bins. */
    constructor ()
      ensures Valid() && smallmap == 0 && rings == NoRings()
    {
      smallmap, rings := 0, NoRings();
      fd := map i: nat | i < BINS :: BinHead(i) := BinHead(i);
      bk := map i: nat | i < BINS :: BinHead(i) := BinHead(i);
      new;
      forall i: nat ensures !Has(0, i) {
        HasOfZero(i);
      }
      hide Has;
    }

    /** insert_small_chunk. */
    method InsertSmallChunk(p: nat, s: nat)
      requires Valid() && IsSmall(s) && InNoRing(smallmap, rings, p)
      modifies this
      ensures Valid()
      ensures var i, was := SmallIndex(s), old(smallmap);
              && smallmap == (if Has(was, i) then was else Mark(was, i))
              && rings == old(rings)[i := [p] + if Has(was, i) then old(rings)[i] else []]
    {
      var i := SmallIndex(s);
      var b := BinHead(i);
      var f := b;
      InsertedAt(smallmap, fd, bk, rings, i, p);
      hide *;
      if !Has(smallmap, i) {
        rings := rings[i := [p] + []];
        smallmap := Mark(smallmap, i);
      } else {
        f := fd[b];
        rings := rings[i := [p] + rings[i]];
      }
      fd := fd[b := ChunkAt(p)];
      bk := bk[f := ChunkAt(p)];
      fd := fd[ChunkAt(p) := f];
      bk := bk[ChunkAt(p) := b];
    }

    /** unlink_small_chunk. */
    method UnlinkSmallChunk(p: nat, s: nat)
      requires Valid() && IsSmall(s) && Has(smallmap, SmallIndex(s)) && p in rings[SmallIndex(s)]
      modifies this
      ensures Valid()
      ensures var i, ring := SmallIndex(s), old(rings)[SmallIndex(s)];
              if |ring| == 1 then smallmap == Clear(old(smallmap), i) && rings == old(rings)
              else smallmap == old(smallmap) && rings == old(rings)[i := Without(ring, IndexOf(ring, p))]
    {
      var i := SmallIndex(s);
      UnlinkedRings(smallmap, fd, bk, rings, i, p);
      hide *;
      var f, b := fd[ChunkAt(p)], bk[ChunkAt(p)];
      if f == b {
        smallmap := Clear(smallmap, i);
      } else {
        bk := bk[f := b];
        fd := fd[b := f];
        rings := rings[i := Without(rings[i], IndexOf(rings[i], p))];
      }
    }

    /** unlink_first_small_chunk of a marked bin, with the chunk behind its header. */
    method UnlinkFirstSmallChunk(i: nat) returns (p: nat)
      requires Valid() && i < BINS && Has(smallmap, i)
      modifies this
      ensures Valid() && old(rings)[i] != [] && p == old(rings)[i][0]
      ensures var ring := old(rings)[i];
              if |ring| == 1 then smallmap == Clear(old(smallmap), i) && rings == old(rings)
              else smallmap == old(smallmap) && rings == old(rings)[i := Without(ring, IndexOf(ring, p))]
    {
      FirstOfRing(smallmap, fd, bk, rings, i);
      var b := BinHead(i);
      p := fd[b].a;
      UnlinkedRings(smallmap, fd, bk, rings, i, p);
      hide *;
      var f := fd[ChunkAt(p)];
      if b == f {
        smallmap := Clear(smallmap, i);
      } else {
        fd := fd[b := f];
        bk := bk[f := b];
        rings := rings[i := Without(rings[i], IndexOf(rings[i], p))];
      }
    }
  }

  lemma FirstOfRing(smallmap: nat, fd: Links, bk: Links, rings: seq<seq<nat>>, i: nat)
    requires RingsOk(smallmap, fd, bk, rings) && i < BINS && Has(smallmap, i)
    ensures rings[i] != [] && BinHead(i) in fd && fd[BinHead(i)] == ChunkAt(rings[i][0])
    ensures ChunkAt(rings[i][0]) in bk && bk[ChunkAt(rings[i][0])] == BinHead(i)
  {
    assert RingOk(smallmap, fd, bk, rings, i);
    assert Joined(fd, bk, i, rings[i], 0);
  }

  lemma InsertedAt(smallmap: nat, fd: Links, bk: Links, rings: seq<seq<nat>>, i: nat, p: nat)
    requires RingsOk(smallmap, fd, bk, rings) && i < BINS && InNoRing(smallmap, rings, p)
    ensures Has(smallmap, i) ==> BinHead(i) in fd
    ensures var f := if Has(smallmap, i) then fd[BinHead(i)] else BinHead(i);
            RingsOk(if Has(smallmap, i) then smallmap else Mark(smallmap, i),
                    fd[BinHead(i) := ChunkAt(p)][ChunkAt(p) := f], bk[f := ChunkAt(p)][ChunkAt(p) := BinHead(i)],
                    rings[i := [p] + if Has(smallmap, i) then rings[i] else []])
  {
    if Has(smallmap, i) {
      FirstOfRing(smallmap, fd, bk, rings, i);
    }
    hide Has, RingsOk;
    var f := if Has(smallmap, i) then fd[BinHead(i)] else BinHead(i);
    InsertedRings(smallmap, fd, bk, rings, i, p, f,
                  fd[BinHead(i) := ChunkAt(p)][ChunkAt(p) := f], bk[f := ChunkAt(p)][ChunkAt(p) := BinHead(i)]);
  }
}
