/** All the bins of the allocator together: rings of small chunks, one bin for each size, and tries
    of large ones, with the maps that mark the bins in use. */
module HeapBins {
  import opened BestFit
  import opened BinMaps
  import opened BitStrings
  import opened SizeBins
  import opened SizeTrie

  /** `small` lists each ring along the fd links from the bin's header. A ring that is not marked is
      stale: unlinking the last chunk clears the mark and leaves the header as it was. */
  datatype Bins = Bins(smallmap: nat, small: seq<seq<nat>>, treemap: nat, trees: seq<Tree>)

  function NoRings(): (s: seq<seq<nat>>)
    ensures |s| == BINS
  {
    seq(BINS, _ => [])
  }

  predicate IsSmall(s: nat) {
    s / 8 < BINS
  }

  function SmallIndex(s: nat): nat {
    s / 8
  }

  ghost predicate BinsOk(b: Bins, n: nat) {
    && |b.small| == BINS && b.smallmap < WORDS && LargeBins(b.trees, b.treemap, n)
    && forall i: nat :: i < BINS && Has(b.smallmap, i) ==> b.small[i] != [] && Distinct(b.small[i])
  }

  /** Chunk `a` of size `s` is in the bin for its size. */
  ghost predicate InBins(b: Bins, a: nat, s: nat) {
    |b.small| == BINS && |b.trees| == BINS &&
    if IsSmall(s) then s % 8 == 0 && Has(b.smallmap, s / 8) && a in b.small[s / 8]
    else TreeIndex(s) < BINS && In(b.trees[TreeIndex(s)], a, s)
  }

  /** The bins hold one chunk more, or one less. */
  ghost predicate Added(b: Bins, b': Bins, a: nat, s: nat) {
    forall c: nat, z: nat :: InBins(b', c, z) <==> InBins(b, c, z) || (c == a && z == s)
  }

  ghost predicate Dropped(b: Bins, b': Bins, a: nat, s: nat) {
    forall c: nat, z: nat :: InBins(b', c, z) <==> InBins(b, c, z) && !(c == a && z == s)
  }

  // ---- Small bins ----

  /** insert_small_chunk: in front of the ring, which starts anew if the bin is not marked. */
  function InsertSmall(b: Bins, a: nat, s: nat): Bins
    requires |b.small| == BINS && b.smallmap < WORDS && IsSmall(s)
  {
    var i := SmallIndex(s);
    if Has(b.smallmap, i) then b.(small := b.small[i := [a] + b.small[i]])
    else b.(smallmap := Mark(b.smallmap, i), small := b.small[i := [a]])
  }

  lemma InsertSmallAdds(b: Bins, n: nat, a: nat, s: nat)
    requires BinsOk(b, n) && IsSmall(s) && s % 8 == 0 && !InBins(b, a, s)
    ensures BinsOk(InsertSmall(b, a, s), n)
    ensures forall c: nat, z: nat :: InBins(InsertSmall(b, a, s), c, z) <==> InBins(b, c, z) || (c == a && z == s)
  {
    var i := SmallIndex(s);
    assert s == 8 * i;
    var r := InsertSmall(b, a, s);
    forall j: nat ensures Has(r.smallmap, j) <==> j == i || Has(b.smallmap, j) {
      MarkSetsOneBit(b.smallmap, i, j);
    }
    MarkSetsOneBit(b.smallmap, i, i);
    hide Mark, Has, TreeIndex, LargeBins, In;
  }

  /** unlink_small_chunk and unlink_first_small_chunk: the last chunk of a bin only clears the mark. */
  function UnlinkSmall(b: Bins, a: nat, s: nat): Bins
    requires |b.small| == BINS && b.smallmap < WORDS && IsSmall(s) && a in b.small[SmallIndex(s)]
  {
    var i := SmallIndex(s);
    var ring := b.small[i];
    if |ring| == 1 then b.(smallmap := Clear(b.smallmap, i))
    else b.(small := b.small[i := Without(ring, IndexOf(ring, a))])
  }

  function Without(ring: seq<nat>, i: nat): seq<nat>
    requires i < |ring|
  {
    ring[..i] + ring[i + 1..]
  }

  lemma WithoutDrops(ring: seq<nat>, i: nat)
    requires i < |ring| && Distinct(ring)
    ensures Distinct(Without(ring, i)) && forall c :: c in Without(ring, i) <==> c in ring && c != ring[i]
  {
    assert ring == ring[..i] + [ring[i]] + ring[i + 1..];
  }

  lemma UnlinkSmallDrops(b: Bins, n: nat, a: nat, s: nat)
    requires BinsOk(b, n) && IsSmall(s) && InBins(b, a, s)
    ensures BinsOk(UnlinkSmall(b, a, s), n)
    ensures forall c: nat, z: nat :: InBins(UnlinkSmall(b, a, s), c, z) <==> InBins(b, c, z) && !(c == a && z == s)
  {
    var i := SmallIndex(s);
    assert s == 8 * i;
    var ring := b.small[i];
    WithoutDrops(ring, IndexOf(ring, a));
    var r := UnlinkSmall(b, a, s);
    forall j: nat ensures Has(Clear(b.smallmap, i), j) <==> j != i && Has(b.smallmap, j) {
      ClearDropsOneBit(b.smallmap, i, j);
    }
    ClearDropsOneBit(b.smallmap, i, i);
    assert |ring| == 1 ==> ring == [a];
    hide Clear, Has, TreeIndex, LargeBins, In, Without;
  }

  // ---- Large bins ----

  /** insert_large_chunk. */
  function InsertLarge(b: Bins, a: nat, s: nat, n: nat): Bins
    requires |b.trees| == BINS && b.treemap < WORDS && TreeIndex(s) < BINS
  {
    var i := TreeIndex(s);
    if Has(b.treemap, i) then b.(trees := b.trees[i := Insert(b.trees[i], BinLow(i), BinWidth(i, n), a, s)])
    else b.(treemap := Mark(b.treemap, i), trees := b.trees[i := Node(s, [a], Nil, Nil)])
  }

  /** One bin of the large ones is replaced. */
  lemma TreeReplaced(b: Bins, n: nat, i: nat, t: Tree, m: nat)
    requires BinsOk(b, n) && i < BINS && m < WORDS && LargeBin(t, m, i, n)
    requires forall j: nat :: j < BINS && j != i ==> (Has(m, j) <==> Has(b.treemap, j))
    ensures LargeBins(b.trees[i := t], m, n)
  {
    hide Has, Trie, HasSize, TreeIndex;
    var trees := b.trees[i := t];
    forall j: nat | j < BINS ensures LargeBin(trees[j], m, j, n) {
      assert LargeBin(b.trees[j], b.treemap, j, n);
    }
  }

  lemma BinOf(b: Bins, n: nat, s: nat)
    requires BinsOk(b, n) && 256 <= s < Pow2(n)
    ensures var i := TreeIndex(s);
            && i < BINS == |b.trees| && b.treemap < WORDS && LargeBin(b.trees[i], b.treemap, i, n) && !IsSmall(s)
            && BinLow(i) <= s < BinLow(i) + Pow2(BinWidth(i, n))
  {
    SizeFitsBin(s, n);
    assert LargeBin(b.trees[TreeIndex(s)], b.treemap, TreeIndex(s), n);
  }

  lemma InsertLargeAdds(b: Bins, n: nat, a: nat, s: nat)
    requires BinsOk(b, n) && 256 <= s < Pow2(n) && !InBins(b, a, s)
    ensures TreeIndex(s) < BINS && BinsOk(InsertLarge(b, a, s, n), n)
    ensures forall c: nat, z: nat :: InBins(InsertLarge(b, a, s, n), c, z) <==> InBins(b, c, z) || (c == a && z == s)
  {
    hide TreeIndex, Mark, Has, BinLow, BinWidth;
    BinOf(b, n, s);
    var i := TreeIndex(s);
    var t := Insert(b.trees[i], BinLow(i), BinWidth(i, n), a, s);
    InsertAdds(b.trees[i], BinLow(i), BinWidth(i, n), a, s);
    var r := InsertLarge(b, a, s, n);
    forall j: nat ensures Has(Mark(b.treemap, i), j) <==> j == i || Has(b.treemap, j) {
      MarkSetsOneBit(b.treemap, i, j);
    }
    MarkSetsOneBit(b.treemap, i, i);
    TreeReplaced(b, n, i, t, r.treemap);
    NotSmall(s);
  }

  /** unlink_large_chunk, and the mark goes with the last chunk of the bin. */
  function UnlinkLarge(b: Bins, a: nat, s: nat): Bins
    requires |b.trees| == BINS && b.treemap < WORDS && TreeIndex(s) < BINS && In(b.trees[TreeIndex(s)], a, s)
  {
    var i := TreeIndex(s);
    var t := Remove(b.trees[i], a, s);
    b.(trees := b.trees[i := t], treemap := if t == Nil then Clear(b.treemap, i) else b.treemap)
  }

  lemma UnlinkLargeDrops(b: Bins, n: nat, a: nat, s: nat)
    requires BinsOk(b, n) && 256 <= s < Pow2(n) && InBins(b, a, s)
    ensures TreeIndex(s) < BINS && In(b.trees[TreeIndex(s)], a, s) && BinsOk(UnlinkLarge(b, a, s), n)
    ensures forall c: nat, z: nat :: InBins(UnlinkLarge(b, a, s), c, z) <==> InBins(b, c, z) && !(c == a && z == s)
  {
    hide TreeIndex, Clear, Has, BinLow, BinWidth;
    BinOf(b, n, s);
    var i := TreeIndex(s);
    RemoveTakesOne(b.trees[i], BinLow(i), BinWidth(i, n), a, s);
    var t := Remove(b.trees[i], a, s);
    forall j: nat ensures Has(Clear(b.treemap, i), j) <==> j != i && Has(b.treemap, j) {
      ClearDropsOneBit(b.treemap, i, j);
    }
    ClearDropsOneBit(b.treemap, i, i);
    TreeReplaced(b, n, i, t, UnlinkLarge(b, a, s).treemap);
    NotSmall(s);
  }

  lemma NotSmall(s: nat)
    ensures IsSmall(s) <==> s < 256
  {
  }

  // ---- Either kind ----

  /** insert_chunk. */
  function InsertChunk(b: Bins, a: nat, s: nat, n: nat): Bins
    requires |b.small| == |b.trees| == BINS && b.smallmap < WORDS && b.treemap < WORDS
    requires !IsSmall(s) ==> TreeIndex(s) < BINS
  {
    if IsSmall(s) then InsertSmall(b, a, s) else InsertLarge(b, a, s, n)
  }

  lemma InsertChunkAdds(b: Bins, n: nat, a: nat, s: nat)
    requires BinsOk(b, n) && s < Pow2(n) && s % 8 == 0 && !InBins(b, a, s)
    ensures |b.trees| == BINS && b.treemap < WORDS && (!IsSmall(s) ==> TreeIndex(s) < BINS)
    ensures BinsOk(InsertChunk(b, a, s, n), n)
    ensures forall c: nat, z: nat :: InBins(InsertChunk(b, a, s, n), c, z) <==> InBins(b, c, z) || (c == a && z == s)
  {
    hide InBins, InsertSmall, InsertLarge, TreeIndex;
    NotSmall(s);
    if IsSmall(s) {
      InsertSmallAdds(b, n, a, s);
    } else {
      InsertLargeAdds(b, n, a, s);
    }
  }

  /** unlink_chunk. */
  function UnlinkChunk(b: Bins, a: nat, s: nat): Bins
    requires b.smallmap < WORDS && b.treemap < WORDS && InBins(b, a, s)
  {
    if IsSmall(s) then UnlinkSmall(b, a, s) else UnlinkLarge(b, a, s)
  }

  lemma UnlinkChunkDrops(b: Bins, n: nat, a: nat, s: nat)
    requires BinsOk(b, n) && s < Pow2(n) && InBins(b, a, s)
    ensures b.treemap < WORDS && BinsOk(UnlinkChunk(b, a, s), n)
    ensures forall c: nat, z: nat :: InBins(UnlinkChunk(b, a, s), c, z) <==> InBins(b, c, z) && !(c == a && z == s)
  {
    NotSmall(s);
    if IsSmall(s) {
      hide TreeIndex, Has, Clear, Without, LargeBins;
      UnlinkSmallDrops(b, n, a, s);
    } else {
      hide TreeIndex, Has, Clear, Remove, LargeBin;
      UnlinkLargeDrops(b, n, a, s);
    }
  }

  /** The chunk in front of a marked small bin is in the bins, with the size of the bin. */
  lemma FirstOfSmallBin(b: Bins, n: nat, i: nat)
    requires BinsOk(b, n) && i < BINS && Has(b.smallmap, i)
    ensures b.small[i] != [] && InBins(b, b.small[i][0], 8 * i)
  {
    hide Has, TreeIndex;
    assert 8 * i / 8 == i && 8 * i % 8 == 0;
  }
}
