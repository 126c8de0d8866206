/** An allocator space over one segment: mspace_malloc and mspace_free. Memory is the heads and
    prev_foot fields by address, and the links of the chunks in the bins. */
module MSpace {
  import opened BestFit
  import opened BinMaps
  import opened BitStrings
  import opened BoundaryTags
  import opened HeapBins
  import opened Heap
  import opened HeapFits
  import opened HeapFree
  import opened SizeBins
  import opened SizeTrie
  import Large = TreeBins
  import Small = SmallRings
  import TreeSearch
  import TrieLinks

  /** align_offset, to multiples of 8. */
  function AlignOffset(a: nat): (offset: nat)
    ensures offset < 8 && (a + offset) % 8 == 0
  {
    if a % 8 == 0 then 0 else 8 - a % 8
  }

  lemma AlignedStart(p: nat, word: nat)
    requires word == 4 || word == 8
    ensures (p + AlignOffset(p + 2 * word)) % 8 == 0
  {
  }

  class Space {
    const word: nat
    const base: nat
    const end: nat
    var heads: map<nat, Head>
    var feet: map<nat, nat>
    /** smallmap, smallbins and the links of the chunks in them. */
    const small: Small.SmallBins
    /** treemap, treebins and the chunks in them. */
    const large: Large.TreeBins
    var dv: nat
    var dvsize: nat
    var top: nat
    var topsize: nat
    ghost var live: set<nat>

    ghost function St(): State
      reads this, small, large
    {
      State(word, Tags(4 * word, base, end, heads, feet, live, top), Bins(small.smallmap, small.rings, large.treemap, large.trees),
            dv, dvsize, topsize)
    }

    /** The links spell the rings of the small bins and the tries of the large ones. */
    ghost predicate Linked()
      reads small, large
    {
      small.Valid() && large.n == 8 * word && TreeSearch.RootsOk(large.cells, large.roots, large.trees)
    }

    ghost predicate Valid()
      reads this, small, large
    {
      HeapOk(St(), {}) && Linked()
    }

    /** The chunks that clients hold. */
    ghost function Held(): map<nat, nat>
      reads this, small, large
    {
      InUse(St().tags)
    }

    /** init_top and init_bins: the segment from its first aligned chunk on is top. */
    constructor (word: nat, p: nat, psize: nat)
      requires (word == 4 || word == 8) && p > 0 && psize > AlignOffset(p + 2 * word) && p + psize < Pow2(8 * word)
      ensures Valid() && Held() == map[] && fresh(small) && fresh(large)
      ensures this.word == word && this.base == p + AlignOffset(p + 2 * word) && this.end == p + psize
    {
      var offset := AlignOffset(p + 2 * word);
      var first, size := p + offset, psize - offset;
      this.word, this.base, this.end := word, first, first + size;
      heads := map[first := Head(size, true, false)];
      feet := map[];
      small := new Small.SmallBins();
      large := new Large.TreeBins(8 * word, map[]);
      dv, dvsize := 0, 0;
      top, topsize := first, size;
      live := {first};
      new;
      hide HeapOk, InUse, NoRings, Large.NoTries, TreeSearch.RootsOk, BinsOk, AlignOffset, Pow2;
      AlignedStart(p, word);
      NewSpace(St());
    }

    // ---- Bins ----

    /** insert_small_chunk: the chunk comes first in the ring of its size. */
    method InsertSmallChunk(p: nat, s: nat)
      requires BinsOk(St().bins, 8 * word) && Linked() && IsSmall(s) && s % 8 == 0
      requires forall z: nat :: !InBins(St().bins, p, z)
      modifies small
      ensures BinsOk(St().bins, 8 * word) && Linked() && Added(old(St().bins), St().bins, p, s)
      ensures St() == old(St()).(bins := St().bins) && small.rings[SmallIndex(s)] != [] && small.rings[SmallIndex(s)][0] == p
    {
      ghost var b := St().bins;
      InsertSmallAdds(b, 8 * word, p, s);
      NotInRings(b, 8 * word, p);
      hide InBins, BinsOk, LargeBins, Small.RingsOk, Small.InNoRing;
      small.InsertSmallChunk(p, s);
      assert [p] + [] == [p];
      assert St().bins == InsertSmall(b, p, s);
    }

    /** unlink_small_chunk. */
    method UnlinkSmallChunk(p: nat, s: nat)
      requires BinsOk(St().bins, 8 * word) && Linked() && IsSmall(s) && InBins(St().bins, p, s)
      modifies small
      ensures BinsOk(St().bins, 8 * word) && Linked() && Dropped(old(St().bins), St().bins, p, s)
      ensures St() == old(St()).(bins := St().bins)
    {
      ghost var b := St().bins;
      UnlinkSmallDrops(b, 8 * word, p, s);
      assert Has(small.smallmap, SmallIndex(s)) && p in small.rings[SmallIndex(s)];
      hide InBins, BinsOk, LargeBins, Small.RingsOk;
      small.UnlinkSmallChunk(p, s);
      assert St().bins == UnlinkSmall(b, p, s);
    }

    /** insert_large_chunk. */
    method InsertLargeChunk(p: nat, s: nat)
      requires BinsOk(St().bins, 8 * word) && Linked() && p != 0 && 256 <= s < Pow2(8 * word)
      requires forall z: nat :: !InBins(St().bins, p, z)
      modifies large
      ensures BinsOk(St().bins, 8 * word) && Linked() && Added(old(St().bins), St().bins, p, s)
      ensures St() == old(St()).(bins := St().bins)
    {
      ghost var b := St().bins;
      InsertLargeAdds(b, 8 * word, p, s);
      LargeOnly(b, 8 * word);
      NotInTries(b, 8 * word, p);
      hide InBins, BinsOk, LargeBins, In;
      large.InsertLargeChunk(p, s);
      assert St().bins == InsertLarge(b, p, s, 8 * word);
    }

    /** unlink_large_chunk. */
    method UnlinkLargeChunk(p: nat, s: nat)
      requires BinsOk(St().bins, 8 * word) && Linked() && 256 <= s < Pow2(8 * word) && InBins(St().bins, p, s)
      modifies large
      ensures BinsOk(St().bins, 8 * word) && Linked() && Dropped(old(St().bins), St().bins, p, s)
      ensures St() == old(St()).(bins := St().bins)
    {
      ghost var b := St().bins;
      UnlinkLargeDrops(b, 8 * word, p, s);
      LargeOnly(b, 8 * word);
      InLarge(b, 8 * word, p, s);
      ChunkIsThere(large.cells, large.roots, large.trees, p, s);
      hide InBins, BinsOk, LargeBins, In;
      large.UnlinkLargeChunk(p);
      assert St().bins == UnlinkLarge(b, p, s);
    }

    /** unlink_chunk: the chunk is in hand afterwards. */
    method UnlinkChunk(p: nat, s: nat, ghost loose: set<nat>)
      requires HeapOk(St(), loose) && Linked() && Idle(St(), loose, p, s)
      modifies small, large
      ensures HeapOk(St(), loose + {p}) && Linked()
      ensures St() == old(St()).(bins := St().bins) && Dropped(old(St().bins), St().bins, p, s)
    {
      ghost var h := St();
      BinsToUnlink(h, loose, p, s);
      if IsSmall(s) {
        UnlinkSmallChunk(p, s);
      } else {
        UnlinkLargeChunk(p, s);
      }
      TakeFromBin(h, loose, p, St().bins);
    }

    /** insert_chunk: a chunk in hand goes to its bin. */
    method InsertChunk(p: nat, s: nat, ghost loose: set<nat>)
      requires HeapOk(St(), loose) && Linked() && p in loose && St().tags.Free(p) && St().tags.Size(p) == s
      modifies small, large
      ensures HeapOk(St(), loose - {p}) && Linked()
      ensures St() == old(St()).(bins := St().bins) && Added(old(St().bins), St().bins, p, s)
    {
      ghost var h := St();
      BinsToInsert(h, loose, p, s);
      if IsSmall(s) {
        InsertSmallChunk(p, s);
      } else {
        InsertLargeChunk(p, s);
      }
      PutInBin(h, loose, p, St().bins);
    }

    // ---- Heads and feet ----

    /** set_inuse_and_pinuse: a chunk in hand is handed out whole. */
    method HandOut(p: nat, s: nat, ghost loose: set<nat>)
      requires HeapOk(St(), loose) && p in loose && St().tags.Free(p) && St().tags.Size(p) == s
      modifies `heads
      ensures HeapOk(St(), loose - {p}) && Held() == old(Held())[p := s]
      ensures St() == old(St()).(tags := St().tags)
    {
      ghost var h := St();
      UseLoose(h, loose, p);
      NextIsThere(h.tags, p);
      heads := heads[p := Head(s, true, true)];
      heads := heads[p + s := heads[p + s].(pinuse := true)];
      assert St() == h.(tags := UseWhole(h.tags, p));
    }

    /** set_size_and_pinuse_of_inuse_chunk and set_size_and_pinuse_of_free_chunk. */
    method SplitTags(p: nat, nb: nat, rsize: nat)
      requires p in heads && nb + rsize == heads[p].size
      modifies `heads, `feet, `live
      ensures St() == old(St()).(tags := SplitUse(old(St().tags), p, nb))
    {
      heads := heads[p := Head(nb, true, true)];
      var r := p + nb;
      heads := heads[r := Head(rsize, true, false)];
      feet := feet[r + rsize := rsize];
      live := live + {r};
    }

    /** The front of a chunk in hand is handed out, and the rest is in hand. */
    method SplitOff(p: nat, nb: nat, rsize: nat, ghost loose: set<nat>)
      requires HeapOk(St(), loose) && p in loose && CanSplit(St().tags, p, nb) && rsize == St().tags.Size(p) - nb
      modifies `heads, `feet, `live
      ensures HeapOk(St(), loose - {p} + {p + nb}) && Held() == old(Held())[p := nb]
      ensures St() == old(St()).(tags := St().tags)
      ensures St().tags.Free(p + nb) && St().tags.Size(p + nb) == rsize
    {
      hide HeapOk, InUse;
      SplitLoose(St(), loose, p, nb);
      SplitTags(p, nb, rsize);
    }

    /** replace_dv: a chunk in hand becomes the designated victim, and the old one, which is small,
        goes to its bin. */
    method ReplaceDv(p: nat, s: nat, ghost loose: set<nat>)
      requires HeapOk(St(), loose) && Linked() && p in loose && St().tags.Free(p) && St().tags.Size(p) == s && IsSmall(dvsize)
      modifies `dv, `dvsize, small
      ensures HeapOk(St(), loose - {p}) && Linked() && dv == p && dvsize == s
      ensures St() == old(St()).(bins := St().bins, dv := p, dvsize := s)
      ensures if old(dvsize) == 0 then St().bins == old(St().bins)
              else Added(old(St().bins), St().bins, old(dv), old(dvsize))
    {
      ghost var h, bare := St(), St().(dv := 0, dvsize := 0);
      var dvs := dvsize;
      if dvs != 0 {
        TakeDv(h, loose);
        BinsToInsert(bare, loose + {dv}, dv, dvs);
        InsertSmallChunk(dv, dvs);
        PutInBin(bare, loose + {dv}, dv, St().bins);
        assert loose + {dv} - {dv} == loose;
      }
      GiveDv(bare.(bins := St().bins), loose, p);
      dvsize := s;
      dv := p;
    }

    // ---- malloc ----

    /** unlink_first_small_chunk of a marked bin: its first chunk is in hand. */
    method UnlinkFirst(i: nat) returns (p: nat)
      requires Valid() && i < BINS && Has(small.smallmap, i)
      modifies small
      ensures HeapOk(St(), {p}) && Linked() && Idle(old(St()), {}, p, 8 * i) && LeadsBin(old(St().bins), p, 8 * i)
      ensures St() == old(St()).(bins := St().bins) && Dropped(old(St().bins), St().bins, p, 8 * i)
    {
      ghost var h := St();
      FirstOfRing(h, {}, i);
      BinsToUnlink(h, {}, small.rings[i][0], 8 * i);
      UnlinkSmallDrops(h.bins, 8 * word, small.rings[i][0], 8 * i);
      p := small.UnlinkFirstSmallChunk(i);
      assert St().bins == UnlinkSmall(h.bins, p, 8 * i);
      TakeFromBin(h, {}, p, St().bins);
      assert {} + {p} == {p};
    }

    /** The first part of mspace_malloc for small requests: a bin of the size or of the next size
        fits without a remainder. */
    method TakeExact(idx: nat, nb: nat) returns (p: nat)
      requires Valid() && nb == 8 * idx && idx < BINS && nb >= 4 * word && (Has(small.smallmap, idx) || Has(small.smallmap, idx + 1))
      modifies `heads, small
      ensures Valid() && Allocated(old(St()), St(), nb, p)
    {
      hide *;
      ghost var h := St();
      var i := idx;
      ExactFacts(idx);
      HeldIs();
      i := i + And(Not(Shr(small.smallmap, i), 32), 1);
      MarkedIsBin(h, i);
      p := UnlinkFirst(i);
      HeldIs();
      ExactServes(h, nb, idx, i, p);
      ghost var mid := St();
      HandOut(p, 8 * i, {p});
      assert {p} - {p} == {};
      HeldIs();
      ExactLeavesNone(h, mid, St(), nb, p, 8 * i);
      AllocatedNow(h, St(), nb, p, 8 * i);
      ValidAgain();
    }

    lemma ExactFacts(idx: nat)
      requires Valid() && idx < BINS && (Has(small.smallmap, idx) || Has(small.smallmap, idx + 1))
      ensures small.smallmap < WORDS && And(Not(Shr(small.smallmap, idx), 32), 1) == if Has(small.smallmap, idx) then 0 else 1
      ensures HeapOk(St(), {}) && St().bins.smallmap == small.smallmap && St().word == word >= 4
    {
      SizesFitWord(St());
      TwoBins(small.smallmap, idx);
    }

    lemma HeldIs()
      ensures Held() == InUse(St().tags) && St().tags.top == top
    {
    }

    lemma ValidAgain()
      requires HeapOk(St(), {}) && Linked()
      ensures Valid()
    {
    }

    /** A chunk in hand is used whole if less than a minimal chunk would remain; otherwise the rest
        becomes the designated victim. */
    method CarveToDv(p: nat, s: nat, nb: nat) returns (got: nat)
      requires HeapOk(St(), {p}) && Linked() && St().tags.Free(p) && St().tags.Size(p) == s
      requires nb % 8 == 0 && 4 * word <= nb <= s && IsSmall(dvsize)
      modifies `heads, `feet, `live, `dv, `dvsize, small
      ensures Valid() && Held() == old(Held())[p := got] && got == Portion(s, nb, word)
      ensures RestToDv(old(St()), St(), p + nb, s - nb)
    {
      var rsize := s - nb;
      if rsize < 4 * word {
        HandOut(p, s, {p});
        assert {p} - {p} == {};
        got := s;
      } else {
        SplitOff(p, nb, rsize, {p});
        assert {p} - {p} + {p + nb} == {p + nb};
        ReplaceDv(p + nb, rsize, {p + nb});
        assert {p + nb} - {p + nb} == {};
        got := nb;
      }
    }

    /** The same for a chunk from a later small bin, which with words of 4 bytes always leaves enough. */
    method CarveNext(p: nat, s: nat, nb: nat) returns (got: nat)
      requires HeapOk(St(), {p}) && Linked() && St().tags.Free(p) && St().tags.Size(p) == s
      requires nb % 8 == 0 && 4 * word <= nb && nb + 16 <= s && IsSmall(dvsize)
      modifies `heads, `feet, `live, `dv, `dvsize, small
      ensures Valid() && Held() == old(Held())[p := got] && got == Portion(s, nb, word)
      ensures RestToDv(old(St()), St(), p + nb, s - nb)
    {
      var rsize := s - nb;
      if word != 4 && rsize < 4 * word {
        HandOut(p, s, {p});
        assert {p} - {p} == {};
        got := s;
      } else {
        SplitOff(p, nb, rsize, {p});
        assert {p} - {p} + {p + nb} == {p + nb};
        ReplaceDv(p + nb, rsize, {p + nb});
        assert {p + nb} - {p + nb} == {};
        got := nb;
      }
    }

    /** The same, and the rest goes to its bin. */
    method CarveToBin(p: nat, s: nat, nb: nat) returns (got: nat)
      requires HeapOk(St(), {p}) && Linked() && St().tags.Free(p) && St().tags.Size(p) == s
      requires nb % 8 == 0 && 4 * word <= nb <= s
      modifies `heads, `feet, `live, small, large
      ensures Valid() && Held() == old(Held())[p := got] && got == Portion(s, nb, word)
      ensures RestToBin(old(St()), St(), p + nb, s - nb)
    {
      var rsize := s - nb;
      if rsize < 4 * word {
        HandOut(p, s, {p});
        assert {p} - {p} == {};
        got := s;
      } else {
        SplitOff(p, nb, rsize, {p});
        assert {p} - {p} + {p + nb} == {p + nb};
        InsertChunk(p + nb, rsize, {p + nb});
        assert {p + nb} - {p + nb} == {};
        got := nb;
      }
    }

    /** The next small bin that is not empty, found by shifting the map there and back and masking
        the bits to the left of the bin. */
    method LaterSmallBin(idx: nat) returns (i: nat)
      requires idx < BINS && small.smallmap < WORDS
      requires !Has(small.smallmap, idx) && !Has(small.smallmap, idx + 1) && Shr(small.smallmap, idx) != 0
      ensures idx + 1 < i < BINS && Has(small.smallmap, i) && forall j: nat :: idx <= j < i ==> !Has(small.smallmap, j)
    {
      hide Has, Shr, Shl, LaterBins, LeastBit, BitToIdx;
      NextSmallBin(small.smallmap, idx);
      var leftbits := LaterBins(Shl(Shr(small.smallmap, idx), idx), idx);
      i := BitToIdx(LeastBit(leftbits));
    }

    /** The second part: the first chunk of the next small bin that is not empty. */
    method TakeSmall(idx: nat, nb: nat) returns (p: nat)
      requires Valid() && nb == 8 * idx && idx < BINS && nb >= 4 * word && nb > dvsize
      requires !Has(small.smallmap, idx) && !Has(small.smallmap, idx + 1) && Shr(small.smallmap, idx) != 0
      modifies `heads, `feet, `live, `dv, `dvsize, small
      ensures Valid() && Allocated(old(St()), St(), nb, p)
    {
      hide HeapOk, Has, Shr, WellChosen, Allocated, InUse, RestIsKept, RestToDv, LeadsBin, Dropped, TreeSearch.RootsOk;
      ghost var h := St();
      SizesFitWord(h);
      var i := LaterSmallBin(idx);
      p := UnlinkFirst(i);
      ghost var mid := St();
      var got := CarveNext(p, 8 * i, nb);
      NextIsBest(h, nb, idx, i, p);
      RestOfBinned(h, mid, St(), nb, p, 8 * i);
      AllocatedNow(h, St(), nb, p, got);
    }

    /** tmalloc_small. */
    method TmallocSmall(nb: nat) returns (p: nat)
      requires Valid() && nb % 8 == 0 && 4 * word <= nb < 256 && nb > dvsize && large.treemap != 0
      requires forall j: nat :: j >= nb / 8 ==> !Has(small.smallmap, j)
      modifies `heads, `feet, `live, `dv, `dvsize, small, large
      ensures Valid() && Allocated(old(St()), St(), nb, p)
    {
      ghost var h := St();
      ghost var pick;
      var rsize;
      p, rsize, pick := TreeSearch.SearchSmall(large.cells, large.roots, large.treemap, nb, 8 * word, large.trees);
      FoundIsInBins(h, {}, nb, pick, rsize);
      BinsToUnlink(h, {}, p, rsize + nb);
      NotSmall(rsize + nb);
      UnlinkLargeChunk(p, rsize + nb);
      TakeFromBin(h, {}, p, St().bins);
      assert {} + {p} == {p};
      ghost var mid := St();
      var got := CarveToDv(p, rsize + nb, nb);
      TreeIsBest(h, nb, pick, rsize, p);
      RestOfBinned(h, mid, St(), nb, p, rsize + nb);
      AllocatedNow(h, St(), nb, p, got);
    }

    /** tmalloc_large: gives up, and leaves it to the designated victim, if that fits at least as
        well or nothing in the tries fits. */
    method TmallocLarge(nb: nat) returns (p: nat)
      requires Valid() && nb % 8 == 0 && 256 <= nb < Pow2(8 * word)
      modifies `heads, `feet, `live, small, large
      ensures Valid()
      ensures p != 0 ==> Allocated(old(St()), St(), nb, p)
      ensures p == 0 ==> St() == old(St()) && NoneBetter(St(), nb)
    {
      ghost var h := St();
      ghost var pick;
      var v, rsize;
      v, rsize, pick := TreeSearch.SearchLarge(large.cells, large.roots, large.treemap, nb, 8 * word, large.trees);
      SizesFitWord(h);
      if v != 0 && rsize < Sub(dvsize, nb, 8 * word) {
        FoundIsInBins(h, {}, nb, pick, rsize);
        p := v;
        BinsToUnlink(h, {}, p, rsize + nb);
        NotSmall(rsize + nb);
        UnlinkLargeChunk(p, rsize + nb);
        TakeFromBin(h, {}, p, St().bins);
        assert {} + {p} == {p};
        ghost var mid := St();
        var got := CarveToBin(p, rsize + nb, nb);
        TreeIsBest(h, nb, pick, rsize, p);
        RestOfBinned(h, mid, St(), nb, p, rsize + nb);
        AllocatedNow(h, St(), nb, p, got);
        ZeroIsNoChunk(h.tags);
      } else {
        p := 0;
        DvIsBest(h, nb, pick, rsize);
      }
    }

    /** The designated victim is split. */
    method SplitDv(nb: nat) returns (p: nat)
      requires Valid() && nb % 8 == 0 && 4 * word <= nb && nb + 4 * word <= dvsize
      modifies `heads, `feet, `live, `dv, `dvsize
      ensures Valid() && p == old(dv) && Held() == old(Held())[p := nb] && dv == p + nb && dvsize == old(dvsize) - nb
    {
      hide HeapOk, InUse, SplitUse, TreeSearch.RootsOk;
      ghost var h := St();
      DvSplits(h, nb);
      var rsize := dvsize - nb;
      p := dv;
      var r := p + nb;
      dv := r;
      dvsize := rsize;
      SplitTags(p, nb, rsize);
      assert St() == h.(tags := SplitUse(h.tags, p, nb), dv := r, dvsize := rsize);
    }

    /** The designated victim is used whole. */
    method ExhaustDv() returns (p: nat)
      requires Valid() && dvsize != 0
      modifies `heads, `dv, `dvsize
      ensures Valid() && p == old(dv) && Held() == old(Held())[p := old(dvsize)] && dv == 0 && dvsize == 0
    {
      ghost var h, bare := St(), St().(dv := 0, dvsize := 0);
      DvInHand(h);
      UseLoose(bare, {dv}, dv);
      NextIsThere(h.tags, dv);
      p := dv;
      var dvs := dvsize;
      dvsize := 0;
      dv := 0;
      heads := heads[p := Head(dvs, true, true)];
      heads := heads[p + dvs := heads[p + dvs].(pinuse := true)];
      assert St() == bare.(tags := UseWhole(bare.tags, p));
      assert {p} - {p} == {};
    }

    /** Top is split. */
    method UseTop(nb: nat) returns (p: nat)
      requires Valid() && nb % 8 == 0 && 4 * word <= nb < topsize
      modifies `heads, `live, `top, `topsize
      ensures Valid() && p == old(top) && Held() == old(Held())[p := nb] && top == p + nb && topsize == old(topsize) - nb
    {
      hide HeapOk, InUse, SplitTop, TreeSearch.RootsOk;
      ghost var h := St();
      TopCanSplit(h, nb);
      SplitTopMove(h, {}, nb);
      topsize := topsize - nb;
      var rsize := topsize;
      p := top;
      var r := p + nb;
      top := r;
      heads := heads[r := Head(rsize, true, false)];
      heads := heads[p := Head(nb, true, true)];
      live := live + {r};
      assert heads == h.tags.heads[p := Head(nb, true, true)][r := Head(rsize, true, false)];
      SplitTopIs(h.tags, nb);
    }

    /** What is left when the bins have nothing better: the designated victim, and then top. */
    method FromDvOrTop(nb: nat) returns (p: nat)
      requires Valid() && nb % 8 == 0 && 4 * word <= nb && OnlyDv(St(), nb)
      modifies `heads, `feet, `live, `dv, `dvsize, `top, `topsize
      ensures Valid()
      ensures p != 0 ==> Allocated(old(St()), St(), nb, p)
      ensures p == 0 ==> St() == old(St()) && Exhausted(St(), nb)
    {
      ghost var h := St();
      DvOrTop(h, nb);
      if nb <= dvsize {
        var rsize := dvsize - nb;
        if rsize >= 4 * word {
          p := SplitDv(nb);
          RestOfDv(h, St(), nb);
          AllocatedNow(h, St(), nb, p, nb);
        } else {
          p := ExhaustDv();
          RestOfDv(h, St(), nb);
          AllocatedNow(h, St(), nb, p, h.dvsize);
        }
      } else if nb < topsize {
        p := UseTop(nb);
        AllocatedNow(h, St(), nb, p, nb);
      } else {
        p := 0;
      }
    }

    /** The bins for a small request. */
    method FromBinsSmall(nb: nat) returns (p: nat)
      requires Valid() && nb % 8 == 0 && 4 * word <= nb < 256
      modifies `heads, `feet, `live, `dv, `dvsize, small, large
      ensures Valid()
      ensures p != 0 ==> Allocated(old(St()), St(), nb, p)
      ensures p == 0 ==> St() == old(St()) && OnlyDv(St(), nb)
    {
      ghost var h := St();
      SizesFitWord(h);
      hide HeapOk, TagsOk, BinsOk, InBins, Has, Shr, And, Allocated, OnlyDv;
      var idx := SmallIndex(nb);
      var smallbits := Shr(small.smallmap, idx);
      TwoBins(small.smallmap, idx);
      if And(smallbits, 3) != 0 {
        p := TakeExact(idx, nb);
        NotNull(h, St(), nb, p);
        return;
      } else if nb > dvsize {
        if smallbits != 0 {
          p := TakeSmall(idx, nb);
          NotNull(h, St(), nb, p);
          return;
        } else if large.treemap != 0 {
          p := TmallocSmall(nb);
          NotNull(h, St(), nb, p);
          return;
        }
        NoneInBins(h, nb);
      }
      p := 0;
    }

    /** The bins for a large request. */
    method FromBinsLarge(nb: nat) returns (p: nat)
      requires Valid() && nb % 8 == 0 && 256 <= nb < Pow2(8 * word)
      modifies `heads, `feet, `live, small, large
      ensures Valid()
      ensures p != 0 ==> Allocated(old(St()), St(), nb, p)
      ensures p == 0 ==> St() == old(St()) && OnlyDv(St(), nb)
    {
      if large.treemap != 0 {
        p := TmallocLarge(nb);
      } else {
        NoneInBins(St(), nb);
        p := 0;
      }
    }

    /** The bins, then the designated victim, then top. */
    method MallocSize(nb: nat, isSmall: bool) returns (p: nat)
      requires Valid() && nb % 8 == 0 && 4 * word <= nb < Pow2(8 * word) && isSmall == (nb < 256)
      modifies this, small, large
      ensures Valid()
      ensures p != 0 ==> Allocated(old(St()), St(), nb, p) && p % 8 == 0
      ensures p == 0 ==> St() == old(St()) && Exhausted(St(), nb)
    {
      ghost var h := St();
      hide HeapOk, Allocated, OnlyDv, Exhausted, Pow2;
      if isSmall {
        p := FromBinsSmall(nb);
      } else {
        p := FromBinsLarge(nb);
      }
      if p == 0 {
        p := FromDvOrTop(nb);
      }
      if p != 0 {
        PlacedRight(h, St(), nb, p);
      }
    }

    /** chunk2mem, for a chunk that was found. */
    function ToMem(p: nat): (mem: nat)
      requires word == 4 || word == 8
      ensures if p == 0 then mem == 0 else mem == p + 2 * word && (p % 8 == 0 ==> mem % 8 == 0) && mem - 2 * word == p
    {
      if p == 0 then 0 else p + 2 * word
    }

    lemma SizesNow()
      requires Valid()
      ensures (word == 4 || word == 8) && dvsize < Pow2(8 * word) - 1 && topsize < Pow2(8 * word) - 1 && small.smallmap < WORDS
    {
      SizesFitWord(St());
      TooBig(St());
    }

    /** The size that stands for a request that is too large is met by nothing. */
    lemma NothingReaches(nb: nat)
      requires Valid() && nb == Pow2(8 * word) - 1
      ensures nb > dvsize && nb >= topsize && forall c :: !Fits(St(), c, nb)
    {
      SizesNow();
      hide Pow2;
      forall c ensures !Fits(St(), c, nb) {
        if Fits(St(), c, nb) {
          LiveFits(St(), c);
        }
      }
    }

    /** The size to look for: padded, or the largest of all for a request that is too large. */
    method SizeToGet(bytes: nat) returns (nb: nat)
      requires word == 4 || word == 8
      ensures bytes < MaxRequest(word) ==>
        && nb == RequestToSize(bytes, word) < Pow2(8 * word) && nb % 8 == 0 && 4 * word <= nb
        && (bytes <= MaxSmallRequest(word) <==> nb < 256)
      ensures bytes >= MaxRequest(word) ==> nb == Pow2(8 * word) - 1
    {
      RequestIsLeast(bytes, word, 0);
      RequestFits(bytes, word);
      Fits16(word);
      SmallestFits(word);
      hide Pow2, MaxRequest, PadRequest;
      if bytes <= MaxSmallRequest(word) {
        nb := if bytes < MinRequest(word) then MinChunkSize(word) else PadRequest(bytes, word);
      } else if bytes >= MaxRequest(word) {
        nb := Pow2(8 * word) - 1;
      } else {
        nb := PadRequest(bytes, word);
      }
    }

    method MallocPadded(nb: nat, isSmall: bool) returns (mem: nat)
      requires Valid() && nb % 8 == 0 && 4 * word <= nb < Pow2(8 * word) && isSmall == (nb < 256)
      modifies this, small, large
      ensures Valid()
      ensures mem != 0 ==> mem % 8 == 0 && mem >= 2 * word && Allocated(old(St()), St(), nb, mem - 2 * word)
      ensures mem == 0 ==> St() == old(St()) && Exhausted(St(), nb)
    {
      hide *;
      SizesNow();
      var p := MallocSize(nb, isSmall);
      mem := ToMem(p);
    }

    /** mspace_malloc up to the call of sys_alloc, for which the result 0 stands. A request that is
        too large fits nothing. */
    method Malloc(bytes: nat) returns (mem: nat)
      requires Valid()
      modifies this, small, large
      ensures Valid()
      ensures mem != 0 ==> mem % 8 == 0 && mem >= 2 * word && bytes < MaxRequest(word)
                           && Allocated(old(St()), St(), RequestToSize(bytes, word), mem - 2 * word)
      ensures mem == 0 ==> St() == old(St()) && (bytes >= MaxRequest(word) || Exhausted(St(), RequestToSize(bytes, word)))
    {
      hide *;
      SizesNow();
      var nb := SizeToGet(bytes);
      if bytes >= MaxRequest(word) {
        NothingReaches(nb);
        return 0;
      }
      mem := MallocPadded(nb, bytes <= MaxSmallRequest(word));
    }

    // ---- free ----

    /** set_size_and_pinuse_of_free_chunk, for a chunk that takes in a free one behind: what follows
        knows already that a free chunk is before it. */
    method SetFree(p: nat, s: nat)
      requires s > 0 && p + s in heads && !heads[p + s].pinuse
      modifies `heads, `feet, `live
      ensures St() == old(St()).(tags := Join(old(St().tags), p, p + s))
    {
      heads := heads[p := Head(s, true, false)];
      feet := feet[p + s := s];
      live := set a | a in live && !(p < a < p + s);
      assert heads == old(heads)[p := Head(s, true, false)][p + s := old(heads)[p + s].(pinuse := false)];
    }

    /** set_free_with_pinuse. */
    method SetFreeWithPinuse(p: nat, s: nat, n: nat)
      requires s > 0 && n == p + s && n in heads
      modifies `heads, `feet, `live
      ensures St() == old(St()).(tags := Join(old(St().tags), p, n))
    {
      heads := heads[n := heads[n].(pinuse := false)];
      heads := heads[p := Head(s, true, false)];
      feet := feet[p + s := s];
      live := set a | a in live && !(p < a < n);
      assert heads == old(heads)[p := Head(s, true, false)][n := old(heads)[n].(pinuse := false)];
    }

    /** The joined chunk is top. */
    method FreeIntoTop(p: nat, psize: nat, ghost q: nat, ghost loose: set<nat>)
      requires HeapOk(St(), loose) && Linked() && St().tags.Used(q) && St().tags.Next(q) == top == p + psize
      requires if heads[q].pinuse then p == q else q in feet && p + feet[q] == q
      requires if p == q || p == dv then loose == {} else loose == {p}
      modifies `heads, `live, `top, `topsize, `dv, `dvsize
      ensures Valid() && Held() == old(Held()) - {q} && JoinedAs(old(St()), St(), q, p)
    {
      hide HeapOk, InUse;
      ghost var h := St();
      TopJoins(h, loose, q, p);
      TopReaches(h, loose);
      topsize := topsize + psize;
      var tsize := topsize;
      top := p;
      heads := heads[p := Head(tsize, true, false)];
      live := set a | a in live && a <= p;
      assert St().tags == JoinTop(h.tags, p);
      if p == dv {
        dv := 0;
        dvsize := 0;
      }
    }

    /** The chunk behind is the designated victim, and the joined chunk is the new one. */
    method FreeIntoDv(p: nat, psize: nat, ghost q: nat, ghost loose: set<nat>)
      requires HeapOk(St(), loose) && Linked() && St().tags.Used(q) && dv != 0 && St().tags.Next(q) == dv == p + psize && psize > 0
      requires Span(St().tags, q, p, dv + dvsize) && FreesIn(St().tags, p, dv + dvsize, loose + {dv})
      requires dv + dvsize in heads && !heads[dv + dvsize].pinuse
      modifies `heads, `feet, `live, `dv, `dvsize
      ensures Valid() && Held() == old(Held()) - {q} && JoinedAs(old(St()), St(), q, p)
    {
      ghost var h := St();
      DvJoins(h, loose, q, p, dv + dvsize);
      dvsize := dvsize + psize;
      var dsize := dvsize;
      dv := p;
      SetFree(p, dsize);
    }

    /** The chunk before is the designated victim, and it grows. */
    method FreeOntoDv(psize: nat, behind: bool, ghost q: nat, ghost loose: set<nat>)
      requires HeapOk(St(), loose) && Linked() && St().tags.Used(q) && dv != 0 && psize > 0
      requires Span(St().tags, q, dv, dv + psize) && FreesIn(St().tags, dv, dv + psize, loose + {dv})
      requires dv + psize in heads && (behind ==> !heads[dv + psize].pinuse)
      modifies `heads, `feet, `live, `dvsize
      ensures Valid() && Held() == old(Held()) - {q} && JoinedAs(old(St()), St(), q, dv)
    {
      hide HeapOk, InUse, Join, Span, FreesIn, TreeSearch.RootsOk;
      ghost var h := St();
      DvJoins(h, loose, q, dv, dv + psize);
      if behind {
        SetFree(dv, psize);
      } else {
        SetFreeWithPinuse(dv, psize, dv + psize);
      }
      dvsize := psize;
      assert St() == h.(tags := Join(h.tags, dv, dv + psize), dvsize := psize);
      JoinedSpan(h, St(), q, dv, dv + psize);
    }

    /** The joined chunk goes to its bin. */
    method FreeIntoBin(p: nat, psize: nat, behind: bool, ghost q: nat, ghost loose: set<nat>)
      requires HeapOk(St(), loose) && Linked() && St().tags.Used(q) && psize > 0
      requires Span(St().tags, q, p, p + psize) && FreesIn(St().tags, p, p + psize, loose)
      requires p + psize in heads && (behind ==> !heads[p + psize].pinuse)
      requires p != dv && St().tags.Next(q) != dv
      modifies `heads, `feet, `live, small, large
      ensures Valid() && Held() == old(Held()) - {q} && JoinedAs(old(St()), St(), q, p)
    {
      hide HeapOk, InUse, Join, Span, FreesIn, Idle, TreeSearch.RootsOk;
      ghost var h := St();
      JoinSpan(h, loose, q, p, p + psize);
      if behind {
        SetFree(p, psize);
      } else {
        SetFreeWithPinuse(p, psize, p + psize);
      }
      JoinedIsFree(h, loose, q, p, p + psize);
      InsertChunk(p, psize, {p});
      assert {p} - {p} == {};
      JoinedSpan(h, St(), q, p, p + psize);
    }

    /** The second half of mspace_free, after `q` was joined with a free chunk before it: whatever is
        free behind is joined as well, and the result is top, the designated victim, or in its bin. */
    method FreeForward(p: nat, size: nat, next: nat, ghost q: nat, ghost loose: set<nat>)
      requires HeapOk(St(), loose) && Linked() && Backed(St(), loose, q, p) && next == St().tags.Next(q) == p + size
      modifies this, small, large
      ensures Valid() && Held() == old(Held()) - {q} && JoinedAs(old(St()), St(), q, p)
    {
      hide HeapOk, Join, FreesIn, InUse, Span, JoinedAs;
      ghost var h := St();
      WhatIsBehind(h, loose, q, p);
      var psize := size;
      if !heads[next].cinuse {
        if next == top {
          FreeIntoTop(p, psize, q, loose);
        } else if next == dv {
          FreeIntoDv(p, psize, q, loose);
        } else {
          var nsize := heads[next].size;
          psize := psize + nsize;
          UnlinkChunk(next, nsize, loose);
          ghost var mid := St();
          if p == dv {
            FreeOntoDv(psize, true, q, loose + {next});
          } else {
            FreeIntoBin(p, psize, true, q, loose + {next});
          }
          JoinedBefore(h, mid, St(), q, p);
        }
      } else {
        FreeIntoBin(p, psize, false, q, loose);
      }
    }

    /** mspace_free. */
    method Free(mem: nat)
      requires Valid() && (mem != 0 ==> mem >= 2 * word && mem - 2 * word in Held())
      modifies this, small, large
      ensures Valid()
      ensures mem == 0 ==> St() == old(St())
      ensures mem != 0 ==> Released(old(St()), St(), mem - 2 * word)
    {
      if mem == 0 {
        return;
      }
      var q := mem - 2 * word;
      ghost var h := St();
      HeldIsUsed(h, q);
      hide HeapOk, FreesIn, InUse, Span, TagsOk;
      var p, psize := q, heads[q].size;
      var next := p + psize;
      ghost var loose: set<nat> := {};
      if !heads[q].pinuse {
        var prevsize := feet[q];
        psize := psize + prevsize;
        p := q - prevsize;
        if p != dv {
          UnlinkChunk(p, prevsize, {});
          loose := {p};
          assert {} + {p} == {p};
        } else if heads[next].pinuse && heads[next].cinuse {
          FreeOntoDv(psize, false, q, {});
          ReleasedIs(h, St(), q, p);
          return;
        }
      }
      FreeForward(p, psize, next, q, loose);
      ReleasedIs(h, St(), q, p);
    }
  }

  /** `p` is where the joined chunk begins: at `q`, or at the free chunk before it, which is in hand
      unless it is the designated victim; and that only remains if a free chunk is behind. */
  ghost predicate Backed(h: State, loose: set<nat>, q: nat, p: nat) {
    && h.tags.Used(q)
    && (if h.tags.heads[q].pinuse then p == q else q in h.tags.feet && p + h.tags.feet[q] == q)
    && loose == (if p == q || p == h.dv then {} else {p})
    && (p == h.dv ==> h.tags.Next(q) in h.tags.heads && !h.tags.heads[h.tags.Next(q)].cinuse)
  }

  lemma WhatIsBehind(h: State, loose: set<nat>, q: nat, p: nat)
    requires HeapOk(h, loose) && Backed(h, loose, q, p)
    ensures h.tags.Next(q) in h.tags.heads && h.tags.Next(q) > p && h.tags.top in h.tags.heads && !h.tags.heads[h.tags.top].cinuse
    ensures var t, next := h.tags, h.tags.Next(q);
            if t.heads[next].cinuse then Span(t, q, p, next) && FreesIn(t, p, next, loose) && p != h.dv && next != h.dv
            else if next == t.top then true
            else
              var hi := t.Next(next);
              && Span(t, q, p, hi) && hi in t.heads && !t.heads[hi].pinuse
              && (if next == h.dv then h.dv != 0 && hi == h.dv + h.dvsize && FreesIn(t, p, hi, loose + {h.dv})
                  else
                    && Idle(h, loose, next, t.Size(next)) && FreesIn(t, p, hi, if p == h.dv then loose + {next} + {h.dv} else loose + {next})
                    && (p == h.dv ==> h.dv != 0))
  {
    var t, next := h.tags, h.tags.Next(q);
    HeapTags(h, loose);
    hide HeapOk;
    Behind(t, q);
    ZeroIsNoChunk(t);
    LookAround(t, t.top);
    LookAround(t, q);
    if !t.heads[q].pinuse {
      Before(t, q);
    }
    if t.heads[next].cinuse {
      FreesOfSpan(t, q, p, next, loose);
    } else if next != t.top {
      var hi := t.Next(next);
      if next == h.dv {
        FreesOfSpan(t, q, p, hi, loose + {h.dv});
      } else if p == h.dv {
        FreesOfSpan(t, q, p, hi, loose + {next} + {h.dv});
      } else {
        FreesOfSpan(t, q, p, hi, loose + {next});
      }
    }
  }

  /** A chunk that a client holds, and its neighbours. */
  lemma HeldIsUsed(h: State, q: nat)
    requires HeapOk(h, {}) && q in InUse(h.tags)
    ensures h.tags.Used(q) && h.tags.Next(q) in h.tags.heads && h.tags.heads[h.tags.Next(q)].pinuse && q != h.dv
    ensures !h.tags.heads[q].pinuse ==>
              && q in h.tags.feet && 0 < h.tags.feet[q] <= q
              && var prev, next := q - h.tags.feet[q], h.tags.Next(q);
                 && (prev != h.dv ==> Idle(h, {}, prev, h.tags.feet[q]))
                 && (prev == h.dv && h.tags.heads[next].cinuse ==>
                       h.dv != 0 && Span(h.tags, q, prev, next) && FreesIn(h.tags, prev, next, {} + {h.dv}))
  {
    HeapTags(h, {});
    hide HeapOk;
    Behind(h.tags, q);
    ZeroIsNoChunk(h.tags);
    if !h.tags.heads[q].pinuse {
      Before(h.tags, q);
      var prev, next := q - h.tags.feet[q], h.tags.Next(q);
      LookAround(h.tags, h.tags.top);
      if prev == h.dv && h.tags.heads[next].cinuse {
        FreesOfSpan(h.tags, q, prev, next, {} + {h.dv});
      }
    }
  }

  lemma TopReaches(h: State, loose: set<nat>)
    requires HeapOk(h, loose)
    ensures h.tags.top + h.topsize == h.tags.end && h.tags.top in h.tags.heads
  {
    LookAround(h.tags, h.tags.top);
  }

  lemma JoinedIsFree(h: State, loose: set<nat>, q: nat, lo: nat, hi: nat)
    requires HeapOk(h, loose) && h.tags.Used(q) && Span(h.tags, q, lo, hi) && FreesIn(h.tags, lo, hi, loose)
    ensures CanJoin(h.tags, lo, hi) && Join(h.tags, lo, hi).Free(lo) && Join(h.tags, lo, hi).Size(lo) == hi - lo
  {
    JoinSpan(h, loose, q, lo, hi);
  }

  lemma TopCanSplit(h: State, nb: nat)
    requires HeapOk(h, {}) && nb % 8 == 0 && 4 * h.word <= nb < h.topsize
    ensures CanSplitTop(h.tags, nb) && h.topsize == h.tags.Size(h.tags.top)
  {
  }

  lemma SplitTopIs(t: Tags, nb: nat)
    requires t.top in t.heads && nb <= t.Size(t.top)
    ensures var r := t.top + nb;
            SplitTop(t, nb) == t.(heads := t.heads[t.top := Head(nb, true, true)][r := Head(t.Size(t.top) - nb, true, false)],
                                  live := t.live + {r}, top := r)
  {
  }

  lemma DvInHand(h: State)
    requires HeapOk(h, {}) && h.dvsize != 0
    ensures h.tags.min == 4 * h.word > 0 && h.dv != 0
    ensures h.tags.Free(h.dv) && h.tags.Size(h.dv) == h.dvsize && h.dvsize % 8 == 0
    ensures HeapOk(h.(dv := 0, dvsize := 0), {h.dv})
  {
    TakeDv(h, {});
    assert {} + {h.dv} == {h.dv};
    LookAround(h.tags, h.dv);
  }

  lemma DvSplits(h: State, nb: nat)
    requires HeapOk(h, {}) && nb % 8 == 0 && 4 * h.word <= nb && nb + 4 * h.word <= h.dvsize
    ensures h.dv in h.tags.heads && h.tags.heads[h.dv].size == h.dvsize
    ensures HeapOk(h.(tags := SplitUse(h.tags, h.dv, nb), dv := h.dv + nb, dvsize := h.dvsize - nb), {})
    ensures InUse(SplitUse(h.tags, h.dv, nb)) == InUse(h.tags)[h.dv := nb]
  {
    hide HeapOk, InUse, SplitUse, BinsOk;
    SizesFitWord(h);
    DvInHand(h);
    var bare, p := h.(dv := 0, dvsize := 0), h.dv;
    SplitLoose(bare, {p}, p, nb);
    assert {p} - {p} + {p + nb} == {p + nb};
    var split := bare.(tags := SplitUse(h.tags, p, nb));
    GiveDv(split, {p + nb}, p + nb);
    assert {p + nb} - {p + nb} == {};
  }

  lemma ExactLeavesNone(h: State, mid: State, h': State, nb: nat, p: nat, s: nat)
    requires HeapOk(h, {}) && Idle(h, {}, p, s) && p in h.tags.heads && 0 < nb <= s
    requires mid == h.(bins := mid.bins) && Dropped(h.bins, mid.bins, p, s) && h' == mid.(tags := h'.tags)
    requires h'.tags.top == h.tags.top && s - nb < MinChunkSize(h.word)
    ensures RestIsKept(h, h', nb, p)
  {
    hide HeapOk, InBins, Idle, Dropped;
    RestOfBinned(h, mid, h', nb, p, s);
  }

  /** Nothing outside the designated victim and top is better than it, unless it is to be taken
      without a look. */
  ghost predicate OnlyDv(h: State, nb: nat) {
    && (nb < 256 ==> !ExactMarked(h, nb))
    && (nb >= 256 || nb > h.dvsize ==> NoneBetter(h, nb))
  }

  ghost predicate NoneBetter(h: State, nb: nat) {
    forall c :: Fits(h, c, nb) ==> h.dvsize >= nb && h.dvsize <= h.tags.Size(c)
  }

  lemma DvOrTop(h: State, nb: nat)
    requires HeapOk(h, {}) && OnlyDv(h, nb) && nb > 0
    ensures nb <= h.dvsize ==> h.dvsize != 0 && h.dvsize % 8 == 0 && WellChosen(h, nb, h.dv)
    ensures nb > h.dvsize ==> WellChosen(h, nb, h.tags.top) && (h.topsize <= nb ==> Exhausted(h, nb))
    ensures h.tags.top > 0
  {
    DvSize(h);
    ZeroIsNoChunk(h.tags);
    if nb <= h.dvsize {
      DvInHand(h);
    }
  }

  /** With no small bin marked that could fit and no trie, at most the designated victim fits. */
  lemma NoneInBins(h: State, nb: nat)
    requires HeapOk(h, {}) && h.bins.treemap == 0
    requires nb >= 256 || (nb > h.dvsize && forall j: nat :: j >= nb / 8 ==> !Has(h.bins.smallmap, j))
    ensures NoneBetter(h, nb)
  {
    forall c | Fits(h, c, nb) ensures h.dvsize >= nb && h.dvsize <= h.tags.Size(c) {
      if c == h.dv {
        DvSize(h);
      } else if h.tags.Size(c) < 256 {
        SmallIsInRing(h, c);
      } else {
        LargeIsInTrie(h, c);
        NoTries(h, TreeIndex(h.tags.Size(c)));
      }
    }
  }

  lemma NoTries(h: State, i: nat)
    requires HeapOk(h, {}) && h.bins.treemap == 0 && i < BINS
    ensures |h.bins.trees| == BINS && h.bins.trees[i] == Nil
  {
    hide TagsOk, TreeIndex;
    assert LargeBin(h.bins.trees[i], 0, i, h.Bits());
    HasOfZero(i);
  }

  lemma RequestFits(bytes: nat, word: nat)
    requires word == 4 || word == 8
    ensures bytes < MaxRequest(word) ==> PadRequest(bytes, word) < Pow2(8 * word)
    ensures bytes <= MaxSmallRequest(word) ==> bytes < MaxRequest(word)
  {
    Fits16(word);
  }

  lemma SmallestFits(word: nat)
    requires word == 4 || word == 8
    ensures MinChunkSize(word) < Pow2(8 * word)
  {
    Fits16(word);
  }

  lemma NotNull(h: State, h': State, nb: nat, p: nat)
    requires HeapOk(h', {}) && Allocated(h, h', nb, p)
    ensures p != 0
  {
    assert p in InUse(h'.tags);
    ZeroIsNoChunk(h'.tags);
  }

  /** What malloc hands out begins where a chunk was, and chunks are aligned. */
  lemma PlacedRight(h: State, h': State, nb: nat, p: nat)
    requires HeapOk(h', {}) && Allocated(h, h', nb, p)
    ensures p % 8 == 0
  {
    assert p in InUse(h'.tags);
    ChunksAreAligned(h'.tags, p);
  }

  lemma TooBig(h: State)
    requires HeapOk(h, {})
    ensures h.dvsize < Pow2(h.Bits()) - 1 && h.topsize < Pow2(h.Bits()) - 1
  {
    LookAround(h.tags, h.tags.top);
    if h.dv != 0 {
      LookAround(h.tags, h.dv);
    }
  }

  /** The program shifts the map there and back before it looks to the left of the bin. */
  lemma NextSmallBin(map0: BinMap, idx: nat)
    requires idx < BINS && !Has(map0, idx) && !Has(map0, idx + 1) && Shr(map0, idx) != 0
    ensures Shl(Shr(map0, idx), idx) < WORDS
    ensures var l := LaterBins(Shl(Shr(map0, idx), idx), idx);
            0 < l < WORDS && LeastBit(l) > 0 &&
            var i := BitToIdx(LeastBit(l));
            idx + 1 < i < BINS && Has(map0, i) && forall j: nat :: idx <= j < i ==> !Has(map0, j)
  {
    hide Has, Shl, Shr, LaterBins, LeastBit, BitToIdx;
    ShiftedBackIsLater(map0, idx);
    var back := Shl(Shr(map0, idx), idx);
    FirstLaterBin(back, idx);
    TrailingZeros(Shr(map0, idx));
    var k := BitToIdx(Shr(map0, idx));
    HasOfShr(map0, idx, k);
    assert Has(map0, idx + k) && k > 1;
    assert Has(back, idx + k);
  }

  lemma NextIsBest(h: State, nb: nat, idx: nat, i: nat, p: nat)
    requires HeapOk(h, {}) && nb == 8 * idx && idx + 1 < i < BINS && Idle(h, {}, p, 8 * i) && nb > h.dvsize
    requires LeadsBin(h.bins, p, 8 * i)
    requires forall j: nat :: idx <= j < i ==> !Has(h.bins.smallmap, j)
    ensures WellChosen(h, nb, p)
  {
    DvSize(h);
    hide HeapOk, Has, TagsOk;
    forall c | Fits(h, c, nb) ensures h.tags.Size(p) <= h.tags.Size(c) {
      BestOfRings(h, nb, i, c);
    }
  }

  lemma TreeIsBest(h: State, nb: nat, v: Tree, rsize: nat, p: nat)
    requires HeapOk(h, {}) && |h.bins.trees| == BINS && Best(h.bins.trees, nb, h.Bits(), v, rsize) && v != Nil
    requires v.ring != [] && p == v.ring[0] && Idle(h, {}, p, v.size) && v.size == nb + rsize && LeadsBin(h.bins, p, v.size)
    requires nb < 256 ==> nb > h.dvsize && forall j: nat :: j >= nb / 8 ==> !Has(h.bins.smallmap, j)
    requires nb >= 256 ==> h.dvsize < Pow2(h.Bits()) && nb < Pow2(h.Bits()) && rsize < Sub(h.dvsize, nb, h.Bits())
    ensures WellChosen(h, nb, p)
  {
    DvSize(h);
    hide HeapOk, Has, TagsOk;
    forall c | Fits(h, c, nb) ensures h.tags.Size(p) <= h.tags.Size(c) {
      if c != h.dv {
        BestOfTries(h, nb, v, rsize, c);
      }
    }
  }

  lemma DvSize(h: State)
    requires HeapOk(h, {})
    ensures h.tags.Free(h.dv) ==> h.dv != 0 && h.tags.Size(h.dv) == h.dvsize
    ensures h.dv != 0 ==> h.tags.Free(h.dv)
    ensures h.dvsize == 0 <==> h.dv == 0
  {
    ZeroIsNoChunk(h.tags);
  }

  lemma SizesFitWord(h: State)
    requires HeapOk(h, {})
    ensures h.dvsize < Pow2(h.Bits()) && BinsOk(h.bins, h.Bits()) && h.Bits() >= 32
    ensures h.bins.smallmap < WORDS && |h.bins.small| == |h.bins.trees| == BINS && h.bins.treemap < WORDS
    ensures (h.word == 4 || h.word == 8) && h.tags.min == 4 * h.word && h.topsize < Pow2(h.Bits())
  {
    LookAround(h.tags, h.tags.top);
    if h.dv != 0 {
      LookAround(h.tags, h.dv);
    }
  }

  lemma DvIsBest(h: State, nb: nat, v: Tree, rsize: nat)
    requires HeapOk(h, {}) && |h.bins.trees| == BINS && Best(h.bins.trees, nb, h.Bits(), v, rsize)
    requires 256 <= nb < Pow2(h.Bits()) && h.dvsize < Pow2(h.Bits())
    requires v != Nil ==> rsize >= Sub(h.dvsize, nb, h.Bits())
    ensures NoneBetter(h, nb)
  {
    forall c | Fits(h, c, nb) ensures h.dvsize >= nb && h.dvsize <= h.tags.Size(c) {
      if c == h.dv {
        DvSize(h);
      } else {
        BestOfTries(h, nb, v, rsize, c);
      }
    }
  }

  /** A marked bin is one of the 32. */
  lemma MarkedIsBin(h: State, i: nat)
    requires HeapOk(h, {}) && Has(h.bins.smallmap, i)
    ensures i < BINS
  {
    Word32();
    HasBelow(h.bins.smallmap, 32, i);
  }

  lemma ExactServes(h: State, nb: nat, idx: nat, i: nat, p: nat)
    requires nb == 8 * idx && idx < BINS && i < BINS && Idle(h, {}, p, 8 * i) && h.word >= 4 && LeadsBin(h.bins, p, 8 * i)
    requires Has(h.bins.smallmap, idx) || Has(h.bins.smallmap, idx + 1)
    requires i == if Has(h.bins.smallmap, idx) then idx else idx + 1
    ensures WellChosen(h, nb, p) && h.tags.Free(p) && p in h.tags.heads && p != h.tags.top && h.tags.Size(p) == 8 * i == Portion(8 * i, nb, h.word)
    ensures 8 * i - nb < MinChunkSize(h.word)
  {
    hide Has;
    assert nb / 8 == idx;
  }

  lemma NewSpace(h: State)
    requires (h.word == 4 || h.word == 8) && 0 < h.tags.base < h.tags.end < Pow2(8 * h.word) && h.tags.base % 8 == 0
    requires h.tags == Tags(4 * h.word, h.tags.base, h.tags.end, map[h.tags.base := Head(h.tags.end - h.tags.base, true, false)],
                            map[], {h.tags.base}, h.tags.base)
    requires h.bins == Bins(0, NoRings(), 0, Large.NoTries())
    requires h.dv == 0 && h.dvsize == 0 && h.topsize == h.tags.end - h.tags.base
    ensures HeapOk(h, {}) && InUse(h.tags) == map[]
  {
    NewTags(h.tags);
    NewBins(h.bins, h.Bits());
    hide TagsOk, BinsOk, InBins, NoRings, Large.NoTries;
  }

  lemma NewTags(t: Tags)
    requires 0 < t.base < t.end && t.base % 8 == 0 && t.min >= 16 && t.min % 8 == 0
    requires t == Tags(t.min, t.base, t.end, map[t.base := Head(t.end - t.base, true, false)], map[], {t.base}, t.base)
    ensures TagsOk(t) && InUse(t) == map[]
  {
    assert ChunkOk(t, t.base) && Apart(t, t.base, t.base);
  }

  lemma NewBins(b: Bins, n: nat)
    requires n >= 32 && b == Bins(0, NoRings(), 0, Large.NoTries())
    ensures BinsOk(b, n) && forall a: nat, s: nat :: !InBins(b, a, s)
  {
    forall i: nat ensures !Has(0, i) {
      HasOfZero(i);
    }
    hide Has;
    forall i: nat | i < BINS ensures LargeBin(b.trees[i], 0, i, n) {
    }
  }

  lemma BinsToUnlink(h: State, loose: set<nat>, p: nat, s: nat)
    requires HeapOk(h, loose) && Idle(h, loose, p, s)
    ensures BinsOk(h.bins, h.Bits()) && InBins(h.bins, p, s) && s < Pow2(h.Bits()) && (IsSmall(s) <==> s < 256)
  {
    hide TagsOk;
    LookAround(h.tags, p);
    NotSmall(s);
  }

  lemma BinsToInsert(h: State, loose: set<nat>, p: nat, s: nat)
    requires HeapOk(h, loose) && p in loose && h.tags.Free(p) && h.tags.Size(p) == s
    ensures p != 0 && forall z: nat :: !InBins(h.bins, p, z)
    ensures BinsOk(h.bins, h.Bits()) && !InBins(h.bins, p, s) && s < Pow2(h.Bits()) && s % 8 == 0 && (IsSmall(s) <==> s < 256)
  {
    hide TagsOk;
    LookAround(h.tags, p);
    ZeroIsNoChunk(h.tags);
    NotSmall(s);
  }

  /** The large bins by themselves. */
  lemma LargeOnly(b: Bins, n: nat)
    requires BinsOk(b, n)
    ensures BinsOk(Bins(0, NoRings(), b.treemap, b.trees), n)
  {
    forall i: nat ensures !Has(0, i) { HasOfZero(i); }
  }

  lemma LiveFits(h: State, c: nat)
    requires HeapOk(h, {}) && h.tags.Free(c)
    ensures h.tags.Size(c) < Pow2(h.Bits()) - 1
  {
    hide InBins, BinsOk, Pow2;
    LookAround(h.tags, c);
    BaseBelow(h.tags, c);
  }

  lemma BaseBelow(t: Tags, c: nat)
    requires TagsOk(t) && c in t.live && c in t.heads
    ensures 0 < t.base <= c && t.Next(c) <= t.end
  {
    assert ChunkOk(t, c);
  }

  lemma NotInRings(b: Bins, n: nat, p: nat)
    requires BinsOk(b, n) && forall z: nat :: !InBins(b, p, z)
    ensures Small.InNoRing(b.smallmap, b.small, p)
  {
    forall i: nat | i < |b.small| && Has(b.smallmap, i) ensures p !in b.small[i] {
      assert !InBins(b, p, 8 * i);
    }
  }

  lemma NotInTries(b: Bins, n: nat, p: nat)
    requires BinsOk(b, n) && forall z: nat :: !InBins(b, p, z)
    ensures |b.trees| == BINS && forall i: nat, z: nat :: i < BINS ==> !In(b.trees[i], p, z)
  {
    forall i: nat, z: nat | i < BINS ensures !In(b.trees[i], p, z) {
      assert LargeBin(b.trees[i], b.treemap, i, n);
      if In(b.trees[i], p, z) {
        InHasSize(b.trees[i], p, z);
        NotSmall(z);
        assert InBins(b, p, z);
      }
    }
  }

  lemma InLarge(b: Bins, n: nat, p: nat, s: nat)
    requires BinsOk(b, n) && s >= 256 && InBins(b, p, s)
    ensures TreeIndex(s) < BINS == |b.trees| && In(b.trees[TreeIndex(s)], p, s)
    ensures InBins(Bins(0, NoRings(), b.treemap, b.trees), p, s)
  {
    NotSmall(s);
  }

  lemma ChunkIsThere(cells: TrieLinks.Cells, roots: seq<nat>, trees: seq<Tree>, p: nat, s: nat)
    requires TreeSearch.RootsOk(cells, roots, trees) && TreeIndex(s) < BINS && In(trees[TreeIndex(s)], p, s)
    ensures p in cells && cells[p].size == s
  {
    var i := TreeIndex(s);
    assert TreeSearch.RootOk(cells, roots, trees, i);
    TrieLinks.SpelledCell(cells, roots[i], TrieLinks.Header(i), trees[i], i, p, s);
  }
}
