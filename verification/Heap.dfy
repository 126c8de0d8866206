/** The state of an allocator with one segment, the invariant that its debugging checks write down,
    and the moves that malloc and free are made of. */
module Heap {
  import opened BestFit
  import opened BinMaps
  import opened BitStrings
  import opened BoundaryTags
  import opened HeapBins
  import opened SizeBins
  import opened SizeTrie

  /** `word` is sizeof(size_t). */
  datatype State = State(word: nat, tags: Tags, bins: Bins, dv: nat, dvsize: nat, topsize: nat) {
    /** Bits of a size_t. */
    function Bits(): nat {
      8 * word
    }
  }

  /** A free chunk that has to be in its bin: not top, not the designated victim, and not in the
      hands of an operation under way. */
  ghost predicate Idle(h: State, loose: set<nat>, a: nat, s: nat) {
    h.tags.Free(a) && h.tags.Size(a) == s && a != h.dv && a !in loose
  }

  /** The invariant, with the free chunks `loose` taken out for the moment. */
  ghost predicate HeapOk(h: State, loose: set<nat>) {
    && (h.word == 4 || h.word == 8) && h.tags.min == 4 * h.word
    && TagsOk(h.tags) && h.tags.end < Pow2(h.Bits()) && BinsOk(h.bins, h.Bits())
    && h.tags.top in h.tags.heads && h.topsize == h.tags.Size(h.tags.top)
    && (h.dvsize == 0 <==> h.dv == 0)
    && (h.dv != 0 ==> h.tags.Free(h.dv) && h.tags.Size(h.dv) == h.dvsize && h.dv !in loose)
    && (forall a :: a in loose ==> h.tags.Free(a))
    && (forall a: nat, s: nat {:trigger InBins(h.bins, a, s)} :: InBins(h.bins, a, s) <==> Idle(h, loose, a, s))
  }

  /** The chunks that clients hold, with their sizes. */
  ghost function InUse(t: Tags): map<nat, nat> {
    map a | a in t.live && t.Used(a) :: t.heads[a].size
  }

  // ---- Moves between bins, hands and the designated victim ----

  /** A chunk is unlinked from its bin. */
  lemma TakeFromBin(h: State, loose: set<nat>, p: nat, bins: Bins)
    requires HeapOk(h, loose) && p in h.tags.heads && InBins(h.bins, p, h.tags.Size(p))
    requires BinsOk(bins, h.Bits())
    requires forall c: nat, z: nat :: InBins(bins, c, z) <==> InBins(h.bins, c, z) && !(c == p && z == h.tags.Size(p))
    ensures HeapOk(h.(bins := bins), loose + {p})
  {
    hide InBins, BinsOk, TagsOk;
  }

  /** A chunk is put in its bin. */
  lemma PutInBin(h: State, loose: set<nat>, p: nat, bins: Bins)
    requires HeapOk(h, loose) && p in loose && p in h.tags.heads && BinsOk(bins, h.Bits())
    requires forall c: nat, z: nat :: InBins(bins, c, z) <==> InBins(h.bins, c, z) || (c == p && z == h.tags.Size(p))
    ensures HeapOk(h.(bins := bins), loose - {p})
  {
    hide InBins, BinsOk, TagsOk;
    ZeroIsNoChunk(h.tags);
  }

  /** The designated victim is given up. */
  lemma TakeDv(h: State, loose: set<nat>)
    requires HeapOk(h, loose) && h.dv != 0
    ensures HeapOk(h.(dv := 0, dvsize := 0), loose + {h.dv})
  {
    hide InBins, BinsOk;
    ZeroIsNoChunk(h.tags);
    hide TagsOk;
  }

  lemma ZeroIsNoChunk(t: Tags)
    requires TagsOk(t)
    ensures 0 !in t.live
  {
    if 0 in t.live {
      BaseIsFirst(t, 0);
    }
  }

  /** There is none, and a chunk becomes it. */
  lemma GiveDv(h: State, loose: set<nat>, p: nat)
    requires HeapOk(h, loose) && h.dv == 0 && p in loose && p in h.tags.heads
    ensures HeapOk(h.(dv := p, dvsize := h.tags.Size(p)), loose - {p})
  {
    hide InBins, BinsOk;
    ZeroIsNoChunk(h.tags);
    LookAround(h.tags, p);
    hide TagsOk;
  }

  // ---- Moves of the tags ----

  /** A chunk is handed out whole. */
  lemma UseLoose(h: State, loose: set<nat>, p: nat)
    requires HeapOk(h, loose) && p in loose
    ensures p in h.tags.heads && h.tags.Next(p) in h.tags.heads
    ensures HeapOk(h.(tags := UseWhole(h.tags, p)), loose - {p})
    ensures InUse(UseWhole(h.tags, p)) == InUse(h.tags)[p := h.tags.Size(p)]
  {
    hide InBins, BinsOk, TagsOk;
    UseWholeOk(h.tags, p);
    NextIsThere(h.tags, p);
  }

  /** A chunk is split and its front handed out. */
  lemma SplitLoose(h: State, loose: set<nat>, p: nat, nb: nat)
    requires HeapOk(h, loose) && p in loose && CanSplit(h.tags, p, nb)
    ensures HeapOk(h.(tags := SplitUse(h.tags, p, nb)), loose - {p} + {p + nb})
    ensures InUse(SplitUse(h.tags, p, nb)) == InUse(h.tags)[p := nb]
    ensures SplitUse(h.tags, p, nb).Free(p + nb) && SplitUse(h.tags, p, nb).Size(p + nb) == h.tags.Size(p) - nb
  {
    hide InBins, BinsOk, TagsOk;
    SplitUseOk(h.tags, p, nb);
    TopIsLive(h.tags);
  }

  /** Top is split and its front handed out. */
  lemma SplitTopMove(h: State, loose: set<nat>, nb: nat)
    requires HeapOk(h, loose) && CanSplitTop(h.tags, nb)
    ensures h.topsize >= nb && HeapOk(h.(tags := SplitTop(h.tags, nb), topsize := h.topsize - nb), loose)
    ensures InUse(SplitTop(h.tags, nb)) == InUse(h.tags)[h.tags.top := nb]
  {
    hide InBins, BinsOk, TagsOk;
    SplitTopOk(h.tags, nb);
  }

  /** Chunks are joined to a free one. */
  lemma JoinMove(h: State, loose: set<nat>, p: nat, hi: nat)
    requires HeapOk(h, loose) && CanJoin(h.tags, p, hi)
    requires forall a :: p <= a < hi && h.tags.Free(a) ==> a in loose
    ensures HeapOk(h.(tags := Join(h.tags, p, hi)), (set a | a in loose && !(p <= a < hi)) + {p})
    ensures InUse(Join(h.tags, p, hi)) == InUse(h.tags) - (set a | a in h.tags.live && p <= a < hi)
  {
    hide InBins, BinsOk, TagsOk;
    JoinOk(h.tags, p, hi);
    JoinKeepsTop(h.tags, p, hi);
  }

  /** Chunks are joined to top. */
  lemma JoinTopMove(h: State, loose: set<nat>, p: nat)
    requires HeapOk(h, loose) && CanJoinTop(h.tags, p)
    requires forall a :: p <= a && h.tags.Free(a) ==> a in loose
    ensures p <= h.tags.end
    ensures HeapOk(h.(tags := JoinTop(h.tags, p), topsize := h.tags.end - p), set a | a in loose && a < p)
    ensures InUse(JoinTop(h.tags, p)) == InUse(h.tags) - (set a | a in h.tags.live && p <= a)
  {
    hide InBins, BinsOk, TagsOk;
    JoinTopOk(h.tags, p);
  }
}
