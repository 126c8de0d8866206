/** What the invariant of the allocator means for its clients. */
module HeapFacts {
  import opened BestFit
  import opened BinMaps
  import opened BitStrings
  import opened BoundaryTags
  import opened Heap
  import opened HeapBins
  import opened HeapFree
  import opened SizeTrie

  /** Chunks that clients hold do not overlap, and they lie inside the segment. */
  lemma HeldChunksAreApart(h: State, a: nat, b: nat)
    requires HeapOk(h, {}) && a in InUse(h.tags) && b in InUse(h.tags) && a < b
    ensures h.tags.base <= a && a + InUse(h.tags)[a] <= b && b + InUse(h.tags)[b] <= h.tags.end
  {
    hide InBins, BinsOk;
    TwoApart(h.tags, a, b);
    LookAround(h.tags, a);
    LookAround(h.tags, b);
  }

  // ---- The chunks fill the segment ----

  /** The chunk that an address lies in, found by walking from one that begins before it. */
  ghost function ChunkAt(t: Tags, from: nat, x: nat): (a: nat)
    requires TagsOk(t) && from in t.live && from <= x < t.end
    ensures a in t.live && a in t.heads && a <= x < t.Next(a)
    decreases x - from
  {
    assert ChunkOk(t, from);
    if x < t.Next(from) then from else ChunkAt(t, t.Next(from), x)
  }

  /** Every address of the segment lies in exactly one chunk. */
  lemma ChunksTile(t: Tags, x: nat)
    requires TagsOk(t) && t.base <= x < t.end
    ensures exists a :: a in t.live && a in t.heads && a <= x < t.Next(a)
    ensures forall a, b :: a in t.live && b in t.live && a in t.heads && b in t.heads && a <= x < t.Next(a) && b <= x < t.Next(b) ==> a == b
  {
    var a := ChunkAt(t, t.base, x);
    assert a in t.live && a in t.heads && a <= x < t.Next(a);
    forall a, b | a in t.live && b in t.live && a in t.heads && b in t.heads && a <= x < t.Next(a) && b <= x < t.Next(b)
      ensures a == b
    {
      TwoApart(t, a, b);
    }
  }

  // ---- Giving everything back ----

  /** When nobody holds a chunk the whole segment is top again, and there is nothing in the bins:
      free chunks never stay apart. */
  lemma NothingHeldIsOneChunk(h: State)
    requires HeapOk(h, {}) && InUse(h.tags) == map[]
    ensures h.tags.live == {h.tags.base} && h.tags.top == h.tags.base && h.topsize == h.tags.end - h.tags.base
    ensures h.dv == 0 && forall i: nat :: !Has(h.bins.smallmap, i) && !Has(h.bins.treemap, i)
  {
    HeapTags(h, {});
    OnlyTop(h.tags);
    DvAndBinsAreEmpty(h);
  }

  lemma OnlyTop(t: Tags)
    requires TagsOk(t) && InUse(t) == map[]
    ensures t.live == {t.base} && t.top == t.base && t.top in t.heads && t.Size(t.top) == t.end - t.base
  {
    forall a | a in t.live ensures a == t.top {
      OneOfTwoIsUsed(t, a);
    }
    assert ChunkOk(t, t.top);
  }

  /** Of a chunk and the one behind it one is in use, unless the first is top. */
  lemma OneOfTwoIsUsed(t: Tags, a: nat)
    requires TagsOk(t) && a in t.live
    ensures a in t.heads && (a != t.top ==> a in InUse(t) || t.Next(a) in InUse(t))
  {
    assert ChunkOk(t, a);
  }

  lemma DvAndBinsAreEmpty(h: State)
    requires HeapOk(h, {}) && h.tags.live == {h.tags.top}
    ensures h.dv == 0 && forall i: nat :: !Has(h.bins.smallmap, i) && !Has(h.bins.treemap, i)
  {
    hide TagsOk;
    forall i: nat ensures !Has(h.bins.smallmap, i) && !Has(h.bins.treemap, i) {
      if Has(h.bins.smallmap, i) {
        Word32();
        HasBelow(h.bins.smallmap, 32, i);
        FirstOfSmallBin(h.bins, h.Bits(), i);
      }
      if Has(h.bins.treemap, i) {
        Word32();
        HasBelow(h.bins.treemap, 32, i);
        SomeInTrie(h, i);
      }
    }
  }

  lemma SomeInTrie(h: State, i: nat)
    requires HeapOk(h, {}) && i < BINS && Has(h.bins.treemap, i)
    ensures exists a: nat, s: nat :: InBins(h.bins, a, s)
  {
    hide TagsOk, Has;
    assert LargeBin(h.bins.trees[i], h.bins.treemap, i, h.Bits());
    var t := h.bins.trees[i];
    assert HasSize(t, t.size);
    NotSmall(t.size);
    assert In(t, t.ring[0], t.size);
    assert InBins(h.bins, t.ring[0], t.size);
  }

  // ---- What clients write ----

  function Scribble(t: Tags, q: nat, any: nat): Tags
    requires q in t.heads
  {
    t.(feet := t.feet[t.Next(q) := any])
  }

  lemma ScribbleChunk(t: Tags, q: nat, any: nat, a: nat)
    requires TagsOk(t) && t.Used(q) && a in t.live
    ensures ChunkOk(Scribble(t, q, any), a)
  {
    hide TagsOk;
    Look(t, a, q);
    Behind(t, q);
  }

  lemma ScribbleOk(t: Tags, q: nat, any: nat)
    requires TagsOk(t) && t.Used(q)
    ensures TagsOk(Scribble(t, q, any))
  {
    hide ChunkOk, Apart;
    var r := Scribble(t, q, any);
    forall a | a in r.live ensures ChunkOk(r, a) {
      ScribbleChunk(t, q, any, a);
    }
    forall a, b | a in r.live && b in r.live ensures Apart(r, a, b) {
      ScribbleApart(t, q, any, a, b);
    }
  }

  lemma ScribbleApart(t: Tags, q: nat, any: nat, a: nat, b: nat)
    requires TagsOk(t) && t.Used(q) && a in t.live && b in t.live
    ensures Apart(Scribble(t, q, any), a, b)
  {
    assert Apart(t, a, b);
  }

  /** A client may write over the whole of its chunk, of which the last word is the prev_foot of the
      chunk behind. */
  lemma ClientsMayWrite(h: State, q: nat, any: nat)
    requires HeapOk(h, {}) && q in InUse(h.tags)
    ensures q in h.tags.heads && HeapOk(h.(tags := Scribble(h.tags, q, any)), {})
    ensures InUse(Scribble(h.tags, q, any)) == InUse(h.tags)
  {
    hide InBins, BinsOk, TagsOk;
    ScribbleOk(h.tags, q, any);
  }
}
