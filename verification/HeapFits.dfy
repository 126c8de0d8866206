/** Sizes that malloc asks for, and which free chunks fit them. */
module HeapFits {
  import opened BestFit
  import opened BinMaps
  import opened BitStrings
  import opened BoundaryTags
  import opened HeapBins
  import opened Heap
  import opened SizeBins
  import opened SizeTrie

  // ---- Requests ----

  function MinChunkSize(word: nat): nat {
    4 * word
  }

  function MinRequest(word: nat): nat
    requires word > 0
  {
    MinChunkSize(word) - word - 1
  }

  function MaxSmallRequest(word: nat): nat
    requires word <= 8
  {
    255 - 7 - word
  }

  /** MAX_REQUEST: -MIN_CHUNK_SIZE << 2 in a size_t. */
  function MaxRequest(word: nat): nat
    requires word == 4 || word == 8
  {
    Fits16(word);
    Pow2(8 * word) - 4 * MinChunkSize(word)
  }

  lemma Fits16(word: nat)
    requires word == 4 || word == 8
    ensures Pow2(8 * word) >= 0x1_0000_0000
  {
    Word32();
    Pow2Grows(32, 8 * word);
  }

  /** What the constants come to with words of 4 and of 8 bytes. */
  lemma SizesInBytes()
    ensures MinChunkSize(4) == 16 && MinRequest(4) == 11 && MaxSmallRequest(4) == 244 && MaxRequest(4) == 0xFFFF_FFC0
    ensures MinChunkSize(8) == 32 && MinRequest(8) == 23 && MaxSmallRequest(8) == 240 && MaxRequest(8) == 0xFFFF_FFFF_FFFF_FF80
  {
    Word32();
    assert Pow2(32) == 0x1_0000_0000;
    EightMore(32);
    EightMore(40);
    EightMore(48);
    EightMore(56);
  }

  /** pad_request: room for the overhead of one word, rounded up to the alignment of 8. */
  function PadRequest(bytes: nat, word: nat): nat {
    (bytes + word + 7) / 8 * 8
  }

  /** request2size. */
  function RequestToSize(bytes: nat, word: nat): nat
    requires word > 0
  {
    if bytes < MinRequest(word) then MinChunkSize(word) else PadRequest(bytes, word)
  }

  /** The size is aligned, large enough for a free chunk, leaves the client its bytes besides the
      overhead, and is the least one that does all of that. */
  lemma RequestIsLeast(bytes: nat, word: nat, s: nat)
    requires word == 4 || word == 8
    ensures var nb := RequestToSize(bytes, word);
            nb % 8 == 0 && nb >= MinChunkSize(word) && nb >= bytes + word
            && (s % 8 == 0 && s >= MinChunkSize(word) && s >= bytes + word ==> nb <= s)
    ensures bytes <= MaxSmallRequest(word) <==> RequestToSize(bytes, word) < 256
  {
    hide PadRequest;
    PadIsLeast(bytes, word, s);
    PadIsLeast(bytes, word, 248);
  }

  lemma PadIsLeast(bytes: nat, word: nat, s: nat)
    ensures var r := PadRequest(bytes, word);
            r % 8 == 0 && bytes + word <= r < bytes + word + 8 && (s % 8 == 0 && s >= bytes + word ==> r <= s)
  {
    var r := PadRequest(bytes, word);
    assert r == 8 * ((bytes + word + 7) / 8);
    if s % 8 == 0 && s >= bytes + word {
      assert s == 8 * (s / 8);
    }
  }

  // ---- Fits ----

  /** A free chunk, not top, that is large enough. */
  ghost predicate Fits(h: State, c: nat, nb: nat) {
    h.tags.Free(c) && h.tags.Size(c) >= nb
  }

  /** The bin of exactly the request's size or the next one is marked. */
  predicate ExactMarked(h: State, nb: nat) {
    Has(h.bins.smallmap, nb / 8) || Has(h.bins.smallmap, nb / 8 + 1)
  }

  /** The size that serves then. */
  function ExactSize(h: State, nb: nat): nat {
    if Has(h.bins.smallmap, nb / 8) then nb else nb + 8
  }

  /** The chunk is the first of the bin of its size. */
  predicate LeadsBin(b: Bins, p: nat, s: nat) {
    |b.small| == BINS && |b.trees| == BINS &&
    if IsSmall(s) then b.small[s / 8] != [] && b.small[s / 8][0] == p
    else TreeIndex(s) < BINS && Leads(b.trees[TreeIndex(s)], p, s)
  }

  /** Where malloc takes a chunk from. A small request is served by a bin that fits without a
      remainder, whatever else there is, and failing that by the designated victim if it is large
      enough. Otherwise it is the least chunk that fits, where the designated victim comes before
      others of its size, and top only when no other fits. From a bin it is the first of its size. */
  ghost predicate WellChosen(h: State, nb: nat, p: nat) {
    if nb < 256 && ExactMarked(h, nb) then Idle(h, {}, p, ExactSize(h, nb)) && LeadsBin(h.bins, p, ExactSize(h, nb))
    else if nb < 256 && nb <= h.dvsize then p == h.dv
    else if p == h.tags.top then forall c :: !Fits(h, c, nb)
    else
      && Fits(h, p, nb) && (forall c :: Fits(h, c, nb) ==> h.tags.Size(p) <= h.tags.Size(c))
      && (p != h.dv && Fits(h, h.dv, nb) ==> h.tags.Size(p) < h.dvsize)
      && (p != h.dv ==> LeadsBin(h.bins, p, h.tags.Size(p)))
  }

  /** How much of a chunk of size `s` is handed out: all of it if the rest would be no chunk. */
  function Portion(s: nat, nb: nat, word: nat): nat
    requires nb <= s
  {
    if s - nb < MinChunkSize(word) then s else nb
  }

  /** A free chunk of at least 256 bytes other than the designated victim is in a trie. */
  lemma LargeIsInTrie(h: State, c: nat)
    requires HeapOk(h, {}) && h.tags.Free(c) && c != h.dv && h.tags.Size(c) >= 256
    ensures TreeIndex(h.tags.Size(c)) < BINS == |h.bins.trees|
    ensures HasSize(h.bins.trees[TreeIndex(h.tags.Size(c))], h.tags.Size(c))
  {
    hide TagsOk, BinsOk, TreeIndex;
    var s := h.tags.Size(c);
    assert InBins(h.bins, c, s);
    NotSmall(s);
    InHasSize(h.bins.trees[TreeIndex(s)], c, s);
  }

  /** A smaller one is in a small bin that is marked. */
  lemma SmallIsInRing(h: State, c: nat)
    requires HeapOk(h, {}) && h.tags.Free(c) && c != h.dv && h.tags.Size(c) < 256
    ensures h.tags.Size(c) % 8 == 0 && Has(h.bins.smallmap, h.tags.Size(c) / 8)
  {
    hide TagsOk, BinsOk, TreeIndex, Has;
    var s := h.tags.Size(c);
    assert InBins(h.bins, c, s);
    NotSmall(s);
  }

  /** The best fit of the tries is the best fit, up to the designated victim, if no small chunk fits. */
  lemma BestOfTries(h: State, nb: nat, v: Tree, rsize: nat, c: nat)
    requires HeapOk(h, {}) && |h.bins.trees| == BINS && Best(h.bins.trees, nb, h.Bits(), v, rsize)
    requires nb < 256 ==> forall j: nat :: j >= nb / 8 ==> !Has(h.bins.smallmap, j)
    requires Fits(h, c, nb) && c != h.dv
    ensures v != Nil && v.size <= h.tags.Size(c)
  {
    hide TagsOk, BinsOk, TreeIndex, Has, HeapOk;
    var s := h.tags.Size(c);
    if s < 256 {
      SmallIsInRing(h, c);
    } else {
      LargeIsInTrie(h, c);
    }
  }

  /** The node found is in the bins. */
  lemma FoundIsInBins(h: State, loose: set<nat>, nb: nat, v: Tree, rsize: nat)
    requires HeapOk(h, loose) && |h.bins.trees| == BINS && Best(h.bins.trees, nb, h.Bits(), v, rsize) && v != Nil
    ensures v.ring != [] && InBins(h.bins, v.ring[0], v.size) && Idle(h, loose, v.ring[0], v.size)
    ensures v.size == nb + rsize >= 256 && LeadsBin(h.bins, v.ring[0], v.size)
  {
    hide TagsOk, TreeIndex, Has;
    NotSmall(v.size);
  }

  /** A chunk from the first marked small bin that fits is the best fit, up to the designated victim. */
  lemma BestOfRings(h: State, nb: nat, i: nat, c: nat)
    requires HeapOk(h, {}) && nb % 8 == 0 && i < BINS && nb <= 8 * i
    requires forall j: nat :: nb / 8 <= j < i ==> !Has(h.bins.smallmap, j)
    requires Fits(h, c, nb) && c != h.dv
    ensures 8 * i <= h.tags.Size(c)
  {
    hide TagsOk, BinsOk, TreeIndex, Has, HeapOk;
    if h.tags.Size(c) < 256 {
      SmallIsInRing(h, c);
    }
  }

  /** The first chunk of a marked small bin. */
  lemma FirstOfRing(h: State, loose: set<nat>, i: nat)
    requires HeapOk(h, loose) && i < BINS && Has(h.bins.smallmap, i)
    ensures |h.bins.small| == BINS && h.bins.small[i] != [] && h.bins.smallmap < WORDS
    ensures InBins(h.bins, h.bins.small[i][0], 8 * i) && Idle(h, loose, h.bins.small[i][0], 8 * i)
  {
    hide TagsOk, Has, TreeIndex;
    FirstOfSmallBin(h.bins, h.Bits(), i);
  }

  /** A rest of a chunk in hand becomes the designated victim, and the old one goes to its bin; a rest
      that would be no chunk is handed out as well. */
  ghost predicate RestToDv(h: State, h': State, r: nat, rest: nat) {
    if rest < MinChunkSize(h.word) then h'.bins == h.bins && h'.dv == h.dv && h'.dvsize == h.dvsize
    else
      && h'.dv == r && h'.dvsize == rest
      && if h.dvsize == 0 then h'.bins == h.bins else Added(h.bins, h'.bins, h.dv, h.dvsize)
  }

  /** The rest goes to its bin, and the designated victim stays. */
  ghost predicate RestToBin(h: State, h': State, r: nat, rest: nat) {
    && h'.dv == h.dv && h'.dvsize == h.dvsize
    && if rest < MinChunkSize(h.word) then h'.bins == h.bins else Added(h.bins, h'.bins, r, rest)
  }

  /** One chunk leaves the bins and another one enters them. */
  ghost predicate Exchanged(b: Bins, b': Bins, a: nat, s: nat, r: nat, rest: nat) {
    forall c: nat, z: nat :: InBins(b', c, z) <==> (InBins(b, c, z) && !(c == a && z == s)) || (c == r && z == rest)
  }

  /** Where the rest of the chunk at `p` is after a request. Top stays top and the designated victim stays
      that. Of any other chunk a rest that is large enough becomes the designated victim if the request
      was small, and goes to its bin if it was not. Whatever else is free stays where it is. */
  ghost predicate RestIsKept(h: State, h': State, nb: nat, p: nat)
    requires p in h.tags.heads && nb <= h.tags.Size(p)
  {
    var s := h.tags.Size(p);
    var r, rest := p + nb, s - nb;
    if p == h.tags.top then
      h'.tags.top == r && h'.topsize == rest && h'.bins == h.bins && h'.dv == h.dv && h'.dvsize == h.dvsize
    else
      && h'.tags.top == h.tags.top && h'.topsize == h.topsize
      && if p == h.dv then
           && h'.bins == h.bins
           && if rest < MinChunkSize(h.word) then h'.dv == 0 && h'.dvsize == 0 else h'.dv == r && h'.dvsize == rest
         else if rest < MinChunkSize(h.word) then
           h'.dv == h.dv && h'.dvsize == h.dvsize && Dropped(h.bins, h'.bins, p, s)
         else if nb >= 256 then
           h'.dv == h.dv && h'.dvsize == h.dvsize && Exchanged(h.bins, h'.bins, p, s, r, rest)
         else
           && h'.dv == r && h'.dvsize == rest
           && if h.dvsize == 0 then Dropped(h.bins, h'.bins, p, s) else Exchanged(h.bins, h'.bins, p, s, h.dv, h.dvsize)
  }

  /** What a successful request does: one chunk that nobody held is held now, of the size asked for
      or less than a minimal chunk more, all others are held as before, and the rest is kept. */
  ghost predicate Allocated(h: State, h': State, nb: nat, p: nat) {
    && p in h.tags.heads && nb <= h.tags.Size(p) && p !in InUse(h.tags)
    && InUse(h'.tags) == InUse(h.tags)[p := if p == h.tags.top then nb else Portion(h.tags.Size(p), nb, h.word)]
    && WellChosen(h, nb, p) && RestIsKept(h, h', nb, p)
  }

  /** A chunk was taken from its bin, and the rest was kept. */
  lemma RestOfBinned(h: State, mid: State, h': State, nb: nat, p: nat, s: nat)
    requires HeapOk(h, {}) && Idle(h, {}, p, s) && nb <= s && p in h.tags.heads
    requires mid == h.(bins := mid.bins) && Dropped(h.bins, mid.bins, p, s)
    requires h'.tags.top == h.tags.top && h'.topsize == h.topsize
    requires if nb < 256 then RestToDv(mid, h', p + nb, s - nb) else RestToBin(mid, h', p + nb, s - nb)
    ensures RestIsKept(h, h', nb, p)
  {
    assert p != h.tags.top && p != h.dv;
    hide HeapOk, InBins;
  }

  /** What it means that a request cannot be met from the segment. */
  ghost predicate Exhausted(h: State, nb: nat) {
    (forall c :: !Fits(h, c, nb)) && h.topsize <= nb
  }

  /** The designated victim was split or used up. */
  lemma RestOfDv(h: State, h': State, nb: nat)
    requires HeapOk(h, {}) && 0 < nb <= h.dvsize && h.dv in h.tags.heads
    requires h'.bins == h.bins && h'.tags.top == h.tags.top && h'.topsize == h.topsize
    requires if h.dvsize - nb < MinChunkSize(h.word) then h'.dv == 0 && h'.dvsize == 0
             else h'.dv == h.dv + nb && h'.dvsize == h.dvsize - nb
    ensures h.tags.Size(h.dv) == h.dvsize && RestIsKept(h, h', nb, h.dv)
  {
    assert h.dv != h.tags.top && h.tags.Size(h.dv) == h.dvsize;
    hide HeapOk, InBins;
  }

  lemma AllocatedNow(h: State, h': State, nb: nat, p: nat, s: nat)
    requires HeapOk(h, {}) && p in h.tags.heads && 0 < nb <= h.tags.Size(p) && InUse(h'.tags) == InUse(h.tags)[p := s]
    requires s == if p == h.tags.top then nb else Portion(h.tags.Size(p), nb, h.word)
    requires WellChosen(h, nb, p) && RestIsKept(h, h', nb, p)
    ensures Allocated(h, h', nb, p)
  {
    hide BinsOk, InBins, Has, RestIsKept;
    LookAround(h.tags, h.tags.top);
  }
}
