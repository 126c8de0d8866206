/** What free joins: the chunk that is given back with the free chunks on both sides of it. */
module HeapFree {
  import opened BoundaryTags
  import opened Heap
  import opened HeapBins

  /** The range of the joined chunk: from the chunk before `q` if that is free, to behind the chunk
      after it if that is free; top is not part of it. */
  ghost predicate Span(t: Tags, q: nat, lo: nat, hi: nat) {
    && q in t.heads && t.Next(q) in t.heads && t.Next(q) != t.top
    && (if t.heads[q].pinuse then lo == q else q in t.feet && lo + t.feet[q] == q)
    && (hi == if t.heads[t.Next(q)].cinuse then t.Next(q) else t.Next(t.Next(q)))
  }

  /** The free chunks in a range. */
  ghost predicate FreesIn(t: Tags, lo: nat, hi: nat, loose: set<nat>) {
    forall a: nat :: a in loose <==> t.Free(a) && lo <= a < hi
  }

  /** A chunk before is free and in use before it. */
  lemma Before(t: Tags, q: nat)
    requires TagsOk(t) && t.Used(q) && !t.heads[q].pinuse
    ensures q in t.feet && 0 < t.feet[q] <= q
    ensures var prev := q - t.feet[q];
            t.Free(prev) && t.Size(prev) == t.feet[q] && t.Next(prev) == q && t.heads[prev].pinuse && t.Size(prev) % 8 == 0
  {
    hide TagsOk;
    LookAround(t, q);
    var prev := q - t.feet[q];
    LookAround(t, prev);
  }

  /** A chunk behind knows that this one is in use. A free one is top, or in use behind. */
  lemma Behind(t: Tags, q: nat)
    requires TagsOk(t) && t.Used(q)
    ensures q in t.heads && t.Next(q) in t.heads && t.Next(q) in t.live && t.heads[t.Next(q)].pinuse
    ensures t.Size(q) % 8 == 0 && t.Size(q) >= t.min && q != t.top && q > 0
    ensures var next := t.Next(q);
            !t.heads[next].cinuse && next != t.top ==>
              && t.Free(next) && t.Used(t.Next(next)) && !t.heads[t.Next(next)].pinuse && t.Size(next) % 8 == 0
  {
    LookAround(t, q);
    LookAround(t, t.Next(q));
    ZeroIsNoChunk(t);
    hide TagsOk;
  }

  /** No other chunk begins in the range. */
  lemma SpanMembers(t: Tags, q: nat, lo: nat, hi: nat, a: nat)
    requires TagsOk(t) && t.Used(q) && Span(t, q, lo, hi) && a in t.live && lo <= a < hi
    ensures a == lo || a == q || a == t.Next(q)
  {
    hide TagsOk;
    Behind(t, q);
    if !t.heads[q].pinuse {
      Before(t, q);
    }
    TwoApart(t, a, q);
    TwoApart(t, a, t.Next(q));
    TwoApart(t, a, lo);
  }

  lemma SpanEnds(t: Tags, q: nat, lo: nat, hi: nat)
    requires TagsOk(t) && t.Used(q) && Span(t, q, lo, hi)
    ensures CanJoin(t, lo, hi) && lo <= q < hi && t.Next(q) <= hi
    ensures !t.heads[t.Next(q)].cinuse ==> hi != t.Next(q)
    ensures lo != q ==> t.Free(lo)
  {
    SpanFront(t, q, lo, hi);
    SpanBack(t, q, lo, hi);
    hide TagsOk, Span;
  }

  lemma SpanFront(t: Tags, q: nat, lo: nat, hi: nat)
    requires TagsOk(t) && t.Used(q) && Span(t, q, lo, hi)
    ensures lo in t.live && lo in t.heads && t.heads[lo].pinuse && lo <= q && (q - lo) % 8 == 0
    ensures lo != q ==> t.Free(lo)
  {
    hide TagsOk;
    if !t.heads[q].pinuse {
      Before(t, q);
    }
  }

  lemma SpanBack(t: Tags, q: nat, lo: nat, hi: nat)
    requires TagsOk(t) && t.Used(q) && Span(t, q, lo, hi)
    ensures t.Used(hi) && q < t.Next(q) <= hi && (hi - q) % 8 == 0 && hi - q >= t.min
    ensures t.Next(q) in t.heads && (!t.heads[t.Next(q)].cinuse ==> hi != t.Next(q))
  {
    Behind(t, q);
    MinIsPositive(t);
    hide TagsOk;
  }

  lemma MinIsPositive(t: Tags)
    requires TagsOk(t)
    ensures t.min > 0
  {
  }

  lemma SpanOk(t: Tags, q: nat, lo: nat, hi: nat)
    requires TagsOk(t) && t.Used(q) && Span(t, q, lo, hi)
    ensures CanJoin(t, lo, hi) && lo <= q < hi
    ensures forall a: nat :: a in t.live && lo <= a < hi ==> a == lo || a == q || a == t.Next(q)
    ensures forall a: nat :: t.Free(a) && lo <= a < hi ==> (a == lo && lo != q) || (a == t.Next(q) && hi != t.Next(q))
    ensures forall a: nat :: t.Used(a) && lo <= a < hi ==> a == q
  {
    SpanEnds(t, q, lo, hi);
    forall a: nat | a in t.live && lo <= a < hi ensures a == lo || a == q || a == t.Next(q) {
      SpanMembers(t, q, lo, hi, a);
    }
    hide TagsOk, CanJoin;
  }

  /** The tags after joining, when all that is free in the range was in hand. */
  lemma JoinSpan(h: State, loose: set<nat>, q: nat, lo: nat, hi: nat)
    requires HeapOk(h, loose) && h.tags.Used(q) && Span(h.tags, q, lo, hi) && FreesIn(h.tags, lo, hi, loose)
    ensures CanJoin(h.tags, lo, hi) && HeapOk(h.(tags := Join(h.tags, lo, hi)), {lo})
    ensures InUse(Join(h.tags, lo, hi)) == InUse(h.tags) - {q}
  {
    HeapTags(h, loose);
    hide HeapOk, TagsOk;
    SpanOk(h.tags, q, lo, hi);
    JoinMove(h, loose, lo, hi);
    assert (set a | a in loose && !(lo <= a < hi)) + {lo} == {lo};
    OnlyOneUsed(h.tags, q, lo, hi);
  }

  lemma HeapTags(h: State, loose: set<nat>)
    requires HeapOk(h, loose)
    ensures TagsOk(h.tags) && h.tags.min == 4 * h.word && (h.word == 4 || h.word == 8)
    ensures h.dv != 0 ==> h.tags.Free(h.dv) && h.tags.Size(h.dv) == h.dvsize && h.dv !in loose
    ensures h.tags.top in h.tags.heads && h.topsize == h.tags.Size(h.tags.top)
    ensures forall a: nat :: a in loose ==> h.tags.Free(a)
    ensures forall a: nat :: h.tags.Free(a) && a != h.dv && a !in loose ==> Idle(h, loose, a, h.tags.Size(a))
  {
  }

  lemma OnlyOneUsed(t: Tags, q: nat, lo: nat, hi: nat)
    requires t.Used(q) && lo <= q < hi && forall a: nat :: t.Used(a) && lo <= a < hi ==> a == q
    ensures InUse(t) - (set a | a in t.live && lo <= a < hi) == InUse(t) - {q}
  {
  }

  /** The same for a chunk in front of top. */
  lemma TopFront(t: Tags, q: nat, lo: nat)
    requires TagsOk(t) && t.Used(q) && t.Next(q) == t.top
    requires if t.heads[q].pinuse then lo == q else q in t.feet && lo + t.feet[q] == q
    ensures lo in t.live && lo in t.heads && t.heads[lo].pinuse && 0 < lo <= q && (lo != q ==> t.Free(lo))
    ensures q < t.top < t.end && t.top in t.heads && !t.heads[t.top].cinuse && t.Next(t.top) == t.end
  {
    ZeroIsNoChunk(t);
    LookAround(t, t.top);
    hide TagsOk;
    Behind(t, q);
    LookAround(t, q);
    if !t.heads[q].pinuse {
      Before(t, q);
    }
  }

  lemma TopMembers(t: Tags, q: nat, lo: nat, a: nat)
    requires TagsOk(t) && t.Used(q) && t.Next(q) == t.top && a in t.live
    requires if t.heads[q].pinuse then lo == q else q in t.feet && lo + t.feet[q] == q
    ensures a < t.end && (lo <= a ==> a == lo || a == q || a == t.top)
  {
    TopFront(t, q, lo);
    hide TagsOk;
    TwoApart(t, a, q);
    TwoApart(t, a, t.top);
    TwoApart(t, a, lo);
    LookAround(t, a);
    if lo != q { Before(t, q); }
  }

  lemma JoinTopSpan(h: State, loose: set<nat>, q: nat, lo: nat)
    requires HeapOk(h, loose) && h.tags.Used(q) && h.tags.Next(q) == h.tags.top
    requires if h.tags.heads[q].pinuse then lo == q else q in h.tags.feet && lo + h.tags.feet[q] == q
    requires FreesIn(h.tags, lo, h.tags.end, loose)
    ensures lo <= h.tags.end && HeapOk(h.(tags := JoinTop(h.tags, lo), topsize := h.tags.end - lo), {})
    ensures InUse(JoinTop(h.tags, lo)) == InUse(h.tags) - {q}
  {
    HeapTags(h, loose);
    var t := h.tags;
    hide HeapOk, TagsOk;
    TopFront(t, q, lo);
    forall a | a in t.live ensures lo <= a ==> a == lo || a == q || a == t.top {
      TopMembers(t, q, lo, a);
    }
    JoinTopMove(h, loose, lo);
    assert (set a | a in loose && a < lo) == {};
    assert InUse(t) - (set a | a in t.live && lo <= a) == InUse(t) - {q};
  }

  /** The free chunks of a range are its ends, as far as they are free. */
  lemma FreesOfSpan(t: Tags, q: nat, lo: nat, hi: nat, loose: set<nat>)
    requires TagsOk(t) && t.Used(q) && Span(t, q, lo, hi)
    requires forall a :: a in loose <==> (a == lo && lo != q) || (a == t.Next(q) && hi != t.Next(q))
    ensures FreesIn(t, lo, hi, loose)
  {
    SpanOk(t, q, lo, hi);
    Behind(t, q);
    if !t.heads[q].pinuse {
      Before(t, q);
    }
    LookAround(t, q);
    LookAround(t, t.Next(q));
    hide TagsOk;
  }

  /** When the designated victim is one of the chunks joined, the joined chunk is the new one. */
  lemma DvJoins(h: State, loose: set<nat>, q: nat, lo: nat, hi: nat)
    requires HeapOk(h, loose) && h.dv != 0 && h.tags.Used(q) && Span(h.tags, q, lo, hi)
    requires FreesIn(h.tags, lo, hi, loose + {h.dv})
    ensures CanJoin(h.tags, lo, hi)
    ensures HeapOk(h.(tags := Join(h.tags, lo, hi), dv := lo, dvsize := hi - lo), {})
    ensures InUse(Join(h.tags, lo, hi)) == InUse(h.tags) - {q}
  {
    hide HeapOk, InUse;
    var bare := h.(dv := 0, dvsize := 0);
    TakeDv(h, loose);
    JoinSpan(bare, loose + {h.dv}, q, lo, hi);
    var joined := bare.(tags := Join(h.tags, lo, hi));
    GiveDv(joined, {lo}, lo);
    assert {lo} - {lo} == {};
  }

  /** When the chunk behind is top, what is joined is top, and the designated victim may be used up. */
  lemma TopJoins(h: State, loose: set<nat>, q: nat, lo: nat)
    requires HeapOk(h, loose) && h.tags.Used(q) && h.tags.Next(q) == h.tags.top
    requires if h.tags.heads[q].pinuse then lo == q else q in h.tags.feet && lo + h.tags.feet[q] == q
    requires if lo == q || lo == h.dv then loose == {} else loose == {lo}
    ensures lo <= h.tags.end
    ensures var gone := lo == h.dv;
            HeapOk(h.(tags := JoinTop(h.tags, lo), topsize := h.tags.end - lo,
                      dv := if gone then 0 else h.dv, dvsize := if gone then 0 else h.dvsize), {})
    ensures InUse(JoinTop(h.tags, lo)) == InUse(h.tags) - {q}
  {
    FreesToTop(h, loose, q, lo);
    hide HeapOk, InUse;
    if lo == h.dv {
      TakeDv(h, loose);
      assert loose + {h.dv} == {lo};
      JoinTopSpan(h.(dv := 0, dvsize := 0), {lo}, q, lo);
    } else {
      JoinTopSpan(h, loose, q, lo);
    }
  }

  lemma FreesToTop(h: State, loose: set<nat>, q: nat, lo: nat)
    requires HeapOk(h, loose) && h.tags.Used(q) && h.tags.Next(q) == h.tags.top
    requires if h.tags.heads[q].pinuse then lo == q else q in h.tags.feet && lo + h.tags.feet[q] == q
    requires if lo == q || lo == h.dv then loose == {} else loose == {lo}
    ensures lo == h.dv ==> h.dv != 0
    ensures FreesIn(h.tags, lo, h.tags.end, if lo == h.dv then {lo} else loose)
  {
    HeapTags(h, loose);
    var t := h.tags;
    hide HeapOk, TagsOk;
    TopFront(t, q, lo);
    forall a | a in t.live ensures lo <= a ==> a == lo || a == q || a == t.top {
      TopMembers(t, q, lo, a);
    }
    LookAround(t, lo);
  }

  // ---- What a free does ----

  /** Where the joined chunk begins and ends. */
  function JoinedFrom(t: Tags, q: nat): nat
    requires q in t.heads
  {
    if !t.heads[q].pinuse && q in t.feet && t.feet[q] <= q then q - t.feet[q] else q
  }

  function JoinedTo(t: Tags, q: nat): nat
    requires q in t.heads
  {
    var next := t.Next(q);
    if next in t.heads && !t.heads[next].cinuse then t.Next(next) else next
  }

  /** The tags and the victim after a free that joined from `p` on. */
  ghost predicate JoinedAs(h: State, h': State, q: nat, p: nat) {
    var t := h.tags;
    && q in t.heads && t.Next(q) in t.heads
    && var hi := JoinedTo(t, q);
       if t.Next(q) == t.top then
         && p <= t.end && h'.tags == JoinTop(t, p) && h'.topsize == t.end - p
         && if p == h.dv then h'.dv == 0 && h'.dvsize == 0 else h'.dv == h.dv && h'.dvsize == h.dvsize
       else
         && p < hi && hi in t.heads && h'.tags == Join(t, p, hi) && h'.topsize == h.topsize
         && if h.dv == p || h.dv == t.Next(q) then h'.dv == p && h'.dvsize == hi - p
            else h'.dv == h.dv && h'.dvsize == h.dvsize
  }

  /** What a free does: the chunk is held no more, and it is one free chunk with its free neighbours.
      In front of top that is top. If the designated victim was one of the neighbours it is the
      victim, which is given up for top. Otherwise it is in its bin. Whatever else was free stays
      where it was. */
  ghost predicate Released(h: State, h': State, q: nat) {
    var t := h.tags;
    && InUse(h'.tags) == InUse(t) - {q} && q in t.heads
    && var lo, next, hi := JoinedFrom(t, q), t.Next(q), JoinedTo(t, q);
       && lo <= q < hi
       && (if next == t.top then
             && h'.tags.top == lo && h'.topsize == hi - lo
             && if h.dv == lo then h'.dv == 0 && h'.dvsize == 0 else h'.dv == h.dv && h'.dvsize == h.dvsize
           else
             && h'.tags.top == t.top && h'.topsize == h.topsize
             && if h.dv == lo || h.dv == next then h'.dv == lo && h'.dvsize == hi - lo
                else h'.dv == h.dv && h'.dvsize == h.dvsize)
       && forall c: nat, z: nat :: InBins(h'.bins, c, z) <==>
            (InBins(h.bins, c, z) && !(lo <= c < hi)) || (c == lo && z == hi - lo && lo != h'.tags.top && lo != h'.dv)
  }

  lemma JoinedSpan(h: State, h': State, q: nat, p: nat, hi: nat)
    requires Span(h.tags, q, p, hi) && CanJoin(h.tags, p, hi) && h'.tags == Join(h.tags, p, hi) && h'.topsize == h.topsize
    requires if h.dv == p || h.dv == h.tags.Next(q) then h'.dv == p && h'.dvsize == hi - p
             else h'.dv == h.dv && h'.dvsize == h.dvsize
    ensures JoinedAs(h, h', q, p)
  {
  }

  /** What was taken from the bins in between does not matter. */
  lemma JoinedBefore(h: State, mid: State, h': State, q: nat, p: nat)
    requires mid == h.(bins := mid.bins) && JoinedAs(mid, h', q, p)
    ensures JoinedAs(h, h', q, p)
  {
  }

  lemma FreeAfterJoin(t: Tags, p: nat, hi: nat, a: nat)
    requires TagsOk(t) && CanJoin(t, p, hi)
    ensures var r := Join(t, p, hi);
            && r.top == t.top >= hi
            && (r.Free(a) <==> a == p || (t.Free(a) && !(p <= a < hi)))
            && (r.Free(a) ==> r.Size(a) == if a == p then hi - p else t.Size(a))
  {
    JoinKeepsTop(t, p, hi);
  }

  lemma FreeAfterJoinTop(t: Tags, q: nat, lo: nat, a: nat)
    requires TagsOk(t) && t.Used(q) && t.Next(q) == t.top
    requires if t.heads[q].pinuse then lo == q else q in t.feet && lo + t.feet[q] == q
    ensures lo < t.end
    ensures var r := JoinTop(t, lo);
            r.top == lo && (r.Free(a) <==> t.Free(a) && !(lo <= a < t.end)) && (r.Free(a) ==> r.Size(a) == t.Size(a))
  {
    TopFront(t, q, lo);
    hide TagsOk;
    if t.Free(a) {
      TopMembers(t, q, lo, a);
    }
  }

  lemma BinsAreIdle(h: State, c: nat, z: nat)
    requires HeapOk(h, {})
    ensures InBins(h.bins, c, z) <==> h.tags.Free(c) && h.tags.Size(c) == z && c != h.dv
  {
  }

  lemma TopReleased(h: State, h': State, q: nat, p: nat, c: nat, z: nat)
    requires HeapOk(h, {}) && HeapOk(h', {}) && h.tags.Used(q) && JoinedAs(h, h', q, p) && h.tags.Next(q) == h.tags.top
    requires if h.tags.heads[q].pinuse then p == q else q in h.tags.feet && p + h.tags.feet[q] == q
    ensures JoinedTo(h.tags, q) == h.tags.end && h'.tags.top == p <= q < h.tags.end
    ensures InBins(h'.bins, c, z) <==> InBins(h.bins, c, z) && !(p <= c < h.tags.end)
  {
    BinsAreIdle(h, c, z);
    BinsAreIdle(h', c, z);
    HeapTags(h, {});
    ZeroIsNoChunk(h.tags);
    hide HeapOk, TagsOk, InBins, JoinTop;
    TopFront(h.tags, q, p);
    FreeAfterJoinTop(h.tags, q, p, c);
  }

  lemma BinReleased(h: State, h': State, q: nat, p: nat, c: nat, z: nat)
    requires HeapOk(h, {}) && HeapOk(h', {}) && h.tags.Used(q) && JoinedAs(h, h', q, p) && h.tags.Next(q) != h.tags.top
    requires if h.tags.heads[q].pinuse then p == q else q in h.tags.feet && p + h.tags.feet[q] == q
    ensures var hi := JoinedTo(h.tags, q);
            && h'.tags.top == h.tags.top != p && p <= q < hi
            && (InBins(h'.bins, c, z) <==> (InBins(h.bins, c, z) && !(p <= c < hi)) || (c == p && z == hi - p && p != h'.dv))
  {
    BinsAreIdle(h, c, z);
    BinsAreIdle(h', c, z);
    HeapTags(h, {});
    var t, hi := h.tags, JoinedTo(h.tags, q);
    hide HeapOk, TagsOk, InBins, Join;
    Behind(t, q);
    assert Span(t, q, p, hi);
    SpanOk(t, q, p, hi);
    FreeAfterJoin(t, p, hi, c);
  }

  lemma ReleasedIs(h: State, h': State, q: nat, p: nat)
    requires HeapOk(h, {}) && HeapOk(h', {}) && h.tags.Used(q) && JoinedAs(h, h', q, p) && InUse(h'.tags) == InUse(h.tags) - {q}
    requires if h.tags.heads[q].pinuse then p == q else q in h.tags.feet && p + h.tags.feet[q] == q
    ensures Released(h, h', q)
  {
    hide HeapOk, InBins, InUse, Join, JoinTop;
    assert JoinedFrom(h.tags, q) == p;
    if h.tags.Next(q) == h.tags.top {
      TopReleased(h, h', q, p, p, 0);
      forall c: nat, z: nat ensures InBins(h'.bins, c, z) <==> InBins(h.bins, c, z) && !(p <= c < h.tags.end) {
        TopReleased(h, h', q, p, c, z);
      }
    } else {
      BinReleased(h, h', q, p, p, 0);
      var hi := JoinedTo(h.tags, q);
      forall c: nat, z: nat
        ensures InBins(h'.bins, c, z) <==> (InBins(h.bins, c, z) && !(p <= c < hi)) || (c == p && z == hi - p && p != h'.dv)
      {
        BinReleased(h, h', q, p, c, z);
      }
    }
  }
}
