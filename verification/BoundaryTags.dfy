/** One segment of the allocator as its boundary tags describe it: chunks side by side, each with a
    head that tells its size, whether it is in use and whether the chunk before it is, and behind a
    free chunk its size once more. */
module BoundaryTags {
  /** A head word taken apart: the size and the flags PINUSE and CINUSE. */
  datatype Head = Head(size: nat, pinuse: bool, cinuse: bool)

  /** Heads and prev_foot fields by chunk address. Stale ones stay in memory; `live` tells the
      addresses at which chunks begin now. `min` is MIN_CHUNK_SIZE. */
  datatype Tags = Tags(min: nat, base: nat, end: nat, heads: map<nat, Head>, feet: map<nat, nat>, live: set<nat>, top: nat) {
    function Size(a: nat): nat
      requires a in heads
    {
      heads[a].size
    }

    /** next_chunk. */
    function Next(a: nat): nat
      requires a in heads
    {
      a + heads[a].size
    }

    predicate Used(a: nat) {
      a in live && a in heads && heads[a].cinuse
    }

    /** A free chunk other than top. */
    predicate Free(a: nat) {
      a in live && a in heads && !heads[a].cinuse && a != top
    }
  }

  /** What one chunk's tags say, and that they agree with those of its neighbours. */
  ghost predicate ChunkOk(t: Tags, a: nat) {
    && a in t.heads && t.base <= a && t.Size(a) > 0 && t.Next(a) <= t.end
    && (a == t.base ==> t.heads[a].pinuse)
    && (a == t.top ==> t.Next(a) == t.end && !t.heads[a].cinuse && t.heads[a].pinuse)
    && (a != t.top ==> NextOk(t, a))
    && (!t.heads[a].pinuse ==> PrevOk(t, a))
  }

  /** The chunk behind knows whether this one is in use; behind a free one there is its size, and a
      chunk in use. */
  ghost predicate NextOk(t: Tags, a: nat)
    requires a in t.heads
  {
    var next := t.Next(a);
    && next in t.live && next in t.heads && t.Size(a) % 8 == 0 && t.Size(a) >= t.min
    && t.heads[next].pinuse == t.heads[a].cinuse
    && (!t.heads[a].cinuse ==> t.heads[next].cinuse && next in t.feet && t.feet[next] == t.Size(a))
  }

  /** The foot leads to the free chunk before. */
  ghost predicate PrevOk(t: Tags, a: nat) {
    a in t.feet && 0 < t.feet[a] <= a &&
    var prev := a - t.feet[a];
    t.Free(prev) && t.Size(prev) == t.feet[a]
  }

  ghost predicate Apart(t: Tags, a: nat, b: nat) {
    a in t.heads && (a < b ==> a + t.heads[a].size <= b)
  }

  ghost predicate TagsOk(t: Tags) {
    && 0 < t.base && t.base % 8 == 0 && t.base in t.live && t.top in t.live && t.min >= 16 && t.min % 8 == 0
    && (forall a {:trigger ChunkOk(t, a)} :: a in t.live ==> ChunkOk(t, a))
    && (forall a, b {:trigger Apart(t, a, b)} :: a in t.live && b in t.live ==> Apart(t, a, b))
  }

  // ---- Splitting and using ----

  /** set_inuse_and_pinuse: the whole chunk is handed out. */
  function UseWhole(t: Tags, p: nat): (r: Tags)
    requires p in t.heads && t.Next(p) in t.heads
  {
    var next := t.Next(p);
    t.(heads := t.heads[p := Head(t.Size(p), true, true)][next := t.heads[next].(pinuse := true)])
  }

  /** What is known of a chunk and the one behind it. */
  ghost predicate Around(t: Tags, a: nat) {
    a in t.live && ChunkOk(t, a) && (a != t.top ==> ChunkOk(t, t.Next(a)))
      && (!t.heads[a].pinuse ==> ChunkOk(t, a - t.feet[a]))
  }

  lemma LookAround(t: Tags, a: nat)
    requires TagsOk(t) && a in t.live
    ensures Around(t, a)
  {
    assert ChunkOk(t, a);
    if a != t.top {
      assert ChunkOk(t, t.Next(a));
    }
    if !t.heads[a].pinuse {
      assert ChunkOk(t, a - t.feet[a]);
    }
  }

  lemma TopIsLive(t: Tags)
    requires TagsOk(t)
    ensures t.top in t.live
  {
  }

  /** Two live chunks do not overlap. */
  lemma TwoApart(t: Tags, a: nat, b: nat)
    requires TagsOk(t) && a in t.live && b in t.live
    ensures a in t.heads && b in t.heads && (a < b ==> t.Next(a) <= b) && (b < a ==> t.Next(b) <= a)
    ensures t.Size(a) > 0 && t.Size(b) > 0
    ensures t.Next(a) == t.Next(b) ==> a == b
  {
    assert Apart(t, a, b) && Apart(t, b, a) && ChunkOk(t, a) && ChunkOk(t, b);
  }

  lemma UseWholeChunk(t: Tags, p: nat, a: nat)
    requires TagsOk(t) && t.Free(p) && p in t.heads && t.Next(p) in t.heads && a in t.live
    ensures ChunkOk(UseWhole(t, p), a)
  {
    hide TagsOk;
    LookAround(t, a);
    LookAround(t, p);
    TwoApart(t, a, p);
    if a != t.top {
      TwoApart(t, t.Next(a), p);
    }
  }

  /** Sizes stay, so chunks stay apart. */
  lemma UseWholeApart(t: Tags, p: nat, a: nat, b: nat)
    requires TagsOk(t) && t.Free(p) && p in t.heads && t.Next(p) in t.heads && a in t.live && b in t.live
    ensures Apart(UseWhole(t, p), a, b)
  {
    assert Apart(t, a, b);
  }

  lemma NextIsThere(t: Tags, p: nat)
    requires TagsOk(t) && t.Free(p)
    ensures p in t.heads && t.Next(p) in t.heads && t.Next(p) in t.live && t.heads[t.Next(p)].cinuse && t.Next(p) != p
  {
    LookAround(t, p);
  }

  lemma UseWholeOk(t: Tags, p: nat)
    requires TagsOk(t) && t.Free(p)
    ensures p in t.heads && t.Next(p) in t.heads && TagsOk(UseWhole(t, p))
    ensures forall a: nat :: UseWhole(t, p).Used(a) <==> t.Used(a) || a == p
    ensures forall a: nat :: UseWhole(t, p).Free(a) <==> t.Free(a) && a != p
  {
    hide ChunkOk, Apart;
    NextIsThere(t, p);
    var r := UseWhole(t, p);
    forall a | a in r.live ensures ChunkOk(r, a) {
      UseWholeChunk(t, p, a);
    }
    forall a, b | a in r.live && b in r.live ensures Apart(r, a, b) {
      UseWholeApart(t, p, a, b);
    }
  }

  /** set_size_and_pinuse_of_inuse_chunk and set_size_and_pinuse_of_free_chunk: the front of a free
      chunk is handed out and the rest is a free chunk. */
  function SplitUse(t: Tags, p: nat, nb: nat): Tags
    requires p in t.heads && nb <= t.Size(p)
  {
    var r, rsize := p + nb, t.Size(p) - nb;
    t.(heads := t.heads[p := Head(nb, true, true)][r := Head(rsize, true, false)],
       feet := t.feet[r + rsize := rsize], live := t.live + {r})
  }

  ghost predicate CanSplit(t: Tags, p: nat, nb: nat) {
    t.Free(p) && nb % 8 == 0 && 0 < t.min <= nb && nb + t.min <= t.Size(p)
  }

  /** A live chunk against a chunk that is split or joined, and the chunks next to it as well. */
  ghost predicate Sees(t: Tags, a: nat, p: nat) {
    && Around(t, a) && a in t.live && p in t.live && t.top in t.live && Order(t, a, p)
    && (a != t.top ==> t.Next(a) in t.live && Order(t, t.Next(a), p))
    && (!t.heads[a].pinuse ==> a - t.feet[a] in t.live && Order(t, a - t.feet[a], p))
  }

  ghost predicate Order(t: Tags, a: nat, p: nat) {
    a in t.heads && p in t.heads && (a < p ==> t.Next(a) <= p) && (p < a ==> t.Next(p) <= a)
      && t.Size(a) > 0 && t.Size(p) > 0 && (t.Next(a) == t.Next(p) ==> a == p)
  }

  lemma Look(t: Tags, a: nat, p: nat)
    requires TagsOk(t) && a in t.live && p in t.live
    ensures Sees(t, a, p)
  {
    hide TagsOk;
    TopIsLive(t);
    LookAround(t, a);
    TwoApart(t, a, p);
    if a != t.top {
      TwoApart(t, t.Next(a), p);
    }
    if !t.heads[a].pinuse {
      TwoApart(t, a - t.feet[a], p);
    }
  }

  lemma SplitUseOther(t: Tags, p: nat, nb: nat, a: nat)
    requires TagsOk(t) && CanSplit(t, p, nb) && a in t.live && a != p
    ensures ChunkOk(SplitUse(t, p, nb), a)
  {
    hide TagsOk;
    Look(t, a, p);
    LookAround(t, p);
    RestIsNew(t, p, nb);
  }

  lemma SplitUseChunk(t: Tags, p: nat, nb: nat, a: nat)
    requires TagsOk(t) && CanSplit(t, p, nb) && a in t.live + {p + nb}
    ensures ChunkOk(SplitUse(t, p, nb), a)
  {
    hide TagsOk;
    if a in t.live && a != p {
      SplitUseOther(t, p, nb, a);
    } else {
      LookAround(t, p);
      RestIsNew(t, p, nb);
      TopIsLive(t);
    }
  }

  lemma SplitUseApart(t: Tags, p: nat, nb: nat, a: nat, b: nat)
    requires TagsOk(t) && CanSplit(t, p, nb) && a in t.live + {p + nb} && b in t.live + {p + nb}
    ensures Apart(SplitUse(t, p, nb), a, b)
  {
    var a', b' := if a in t.live then a else p, if b in t.live then b else p;
    TwoApart(t, a', b');
    TwoApart(t, a', p);
    TwoApart(t, b', p);
  }

  /** The rest begins inside the chunk. */
  lemma RestIsNew(t: Tags, p: nat, nb: nat)
    requires TagsOk(t) && p in t.live && 0 < nb
    ensures p in t.heads && (nb < t.Size(p) ==> p + nb !in t.live)
  {
    assert ChunkOk(t, p);
    if p + nb in t.live {
      TwoApart(t, p, p + nb);
    }
  }

  lemma SplitUseOk(t: Tags, p: nat, nb: nat)
    requires TagsOk(t) && CanSplit(t, p, nb)
    ensures TagsOk(SplitUse(t, p, nb)) && p + nb !in t.live
    ensures forall a: nat :: SplitUse(t, p, nb).Used(a) <==> t.Used(a) || a == p
    ensures forall a: nat :: SplitUse(t, p, nb).Free(a) <==> (t.Free(a) && a != p) || a == p + nb
  {
    hide ChunkOk, Apart;
    var r := SplitUse(t, p, nb);
    RestIsNew(t, p, nb);
    TopIsElsewhere(t, p, nb);
    forall a | a in r.live ensures ChunkOk(r, a) {
      SplitUseChunk(t, p, nb, a);
    }
    forall a, b | a in r.live && b in r.live ensures Apart(r, a, b) {
      SplitUseApart(t, p, nb, a, b);
    }
  }

  lemma TopIsElsewhere(t: Tags, p: nat, nb: nat)
    requires TagsOk(t) && p in t.live && p in t.heads && 0 < nb < t.Size(p)
    ensures p + nb != t.top
  {
    RestIsNew(t, p, nb);
  }

  /** Splitting top: its front is handed out, and top is what remains. */
  function SplitTop(t: Tags, nb: nat): Tags
    requires t.top in t.heads && nb <= t.Size(t.top)
  {
    var p, r, rsize := t.top, t.top + nb, t.Size(t.top) - nb;
    t.(heads := t.heads[p := Head(nb, true, true)][r := Head(rsize, true, false)], live := t.live + {r}, top := r)
  }

  ghost predicate CanSplitTop(t: Tags, nb: nat) {
    t.top in t.live && t.top in t.heads && nb % 8 == 0 && 0 < t.min <= nb < t.Size(t.top)
  }

  lemma SplitTopChunk(t: Tags, nb: nat, a: nat)
    requires TagsOk(t) && CanSplitTop(t, nb) && a in t.live + {t.top + nb}
    ensures ChunkOk(SplitTop(t, nb), a)
  {
    hide TagsOk;
    var p := t.top;
    LookAround(t, p);
    RestIsNew(t, p, nb);
    TopIsLive(t);
    if a in t.live {
      LookAround(t, a);
      TwoApart(t, a, p);
      if a != t.top {
        TwoApart(t, t.Next(a), p);
      }
      if !t.heads[a].pinuse {
        TwoApart(t, a - t.feet[a], p);
      }
    }
  }

  lemma SplitTopApart(t: Tags, nb: nat, a: nat, b: nat)
    requires TagsOk(t) && CanSplitTop(t, nb) && a in t.live + {t.top + nb} && b in t.live + {t.top + nb}
    ensures Apart(SplitTop(t, nb), a, b)
  {
    var p := t.top;
    var a', b' := if a in t.live then a else p, if b in t.live then b else p;
    TwoApart(t, a', b');
    TwoApart(t, a', p);
    TwoApart(t, b', p);
  }

  lemma SplitTopOk(t: Tags, nb: nat)
    requires TagsOk(t) && CanSplitTop(t, nb)
    ensures TagsOk(SplitTop(t, nb)) && t.top + nb !in t.live
    ensures forall a: nat :: SplitTop(t, nb).Used(a) <==> t.Used(a) || a == t.top
    ensures forall a: nat :: SplitTop(t, nb).Free(a) <==> t.Free(a)
  {
    hide ChunkOk, Apart;
    var r := SplitTop(t, nb);
    RestIsNew(t, t.top, nb);
    forall a | a in r.live ensures ChunkOk(r, a) {
      SplitTopChunk(t, nb, a);
    }
    forall a, b | a in r.live && b in r.live ensures Apart(r, a, b) {
      SplitTopApart(t, nb, a, b);
    }
  }

  // ---- Freeing and joining ----

  /** The chunks from `p` to the one at `hi` become one free chunk: its head, its size before `hi`,
      and PINUSE cleared there. */
  function Join(t: Tags, p: nat, hi: nat): Tags
    requires p < hi && hi in t.heads
  {
    t.(heads := t.heads[p := Head(hi - p, true, false)][hi := t.heads[hi].(pinuse := false)],
       feet := t.feet[hi := hi - p], live := (set a | a in t.live && !(p < a < hi)))
  }

  /** Between two chunks in use, or at the start of the segment. */
  ghost predicate CanJoin(t: Tags, p: nat, hi: nat) {
    && p in t.live && p in t.heads && t.heads[p].pinuse && t.Used(hi) && p < hi
    && (hi - p) % 8 == 0 && hi - p >= t.min
  }

  lemma JoinChunk(t: Tags, p: nat, hi: nat, a: nat)
    requires TagsOk(t) && CanJoin(t, p, hi) && a in t.live && !(p < a < hi)
    ensures ChunkOk(Join(t, p, hi), a)
  {
    if a == p {
      JoinChunkItself(t, p, hi);
    } else if a < p {
      JoinChunkBefore(t, p, hi, a);
    } else {
      JoinChunkBehind(t, p, hi, a);
    }
  }

  lemma JoinChunkItself(t: Tags, p: nat, hi: nat)
    requires TagsOk(t) && CanJoin(t, p, hi)
    ensures ChunkOk(Join(t, p, hi), p)
  {
    hide TagsOk;
    Look(t, p, hi);
    Look(t, hi, p);
    JoinKeepsTop(t, p, hi);
  }

  lemma JoinChunkBefore(t: Tags, p: nat, hi: nat, a: nat)
    requires TagsOk(t) && CanJoin(t, p, hi) && a in t.live && a < p
    ensures ChunkOk(Join(t, p, hi), a)
  {
    hide TagsOk;
    Look(t, a, p);
    Look(t, a, hi);
    JoinKeepsTop(t, p, hi);
  }

  lemma JoinChunkBehind(t: Tags, p: nat, hi: nat, a: nat)
    requires TagsOk(t) && CanJoin(t, p, hi) && a in t.live && hi <= a
    ensures ChunkOk(Join(t, p, hi), a)
  {
    hide TagsOk;
    Look(t, a, p);
    Look(t, a, hi);
    JoinKeepsTop(t, p, hi);
  }

  lemma JoinApart(t: Tags, p: nat, hi: nat, a: nat, b: nat)
    requires TagsOk(t) && CanJoin(t, p, hi) && a in t.live && b in t.live && !(p < a < hi) && !(p < b < hi)
    ensures Apart(Join(t, p, hi), a, b)
  {
    assert Apart(t, a, b);
  }

  lemma JoinKeepsTop(t: Tags, p: nat, hi: nat)
    requires TagsOk(t) && CanJoin(t, p, hi)
    ensures t.top >= hi && t.base <= p && t.top in t.heads
  {
    TwoApart(t, t.top, hi);
    LookAround(t, t.top);
    LookAround(t, hi);
    LookAround(t, p);
  }

  lemma JoinOk(t: Tags, p: nat, hi: nat)
    requires TagsOk(t) && CanJoin(t, p, hi)
    ensures TagsOk(Join(t, p, hi))
    ensures forall a: nat :: Join(t, p, hi).Used(a) <==> t.Used(a) && !(p <= a < hi)
    ensures forall a: nat :: Join(t, p, hi).Free(a) <==> (t.Free(a) && !(p <= a < hi)) || a == p
  {
    hide ChunkOk, Apart;
    var r := Join(t, p, hi);
    JoinKeepsTop(t, p, hi);
    forall a | a in r.live ensures ChunkOk(r, a) {
      JoinChunk(t, p, hi, a);
    }
    forall a, b | a in r.live && b in r.live ensures Apart(r, a, b) {
      JoinApart(t, p, hi, a, b);
    }
  }

  /** Joining with top: everything from `p` on is top. */
  function JoinTop(t: Tags, p: nat): Tags
    requires p <= t.end
  {
    t.(heads := t.heads[p := Head(t.end - p, true, false)], live := (set a | a in t.live && a <= p), top := p)
  }

  ghost predicate CanJoinTop(t: Tags, p: nat) {
    p in t.live && p in t.heads && t.heads[p].pinuse
  }

  lemma JoinTopChunk(t: Tags, p: nat, a: nat)
    requires TagsOk(t) && CanJoinTop(t, p) && a in t.live && a <= p && p <= t.end
    ensures ChunkOk(JoinTop(t, p), a)
  {
    hide TagsOk;
    LookAround(t, p);
    LookAround(t, a);
    TwoApart(t, a, p);
    TopIsLive(t);
    TwoApart(t, a, t.top);
    TwoApart(t, p, t.top);
    LookAround(t, t.top);
    if a != t.top {
      TwoApart(t, t.Next(a), p);
    }
  }

  lemma JoinTopOk(t: Tags, p: nat)
    requires TagsOk(t) && CanJoinTop(t, p)
    ensures p <= t.end && TagsOk(JoinTop(t, p))
    ensures forall a: nat :: JoinTop(t, p).Used(a) <==> t.Used(a) && a < p
    ensures forall a: nat :: JoinTop(t, p).Free(a) <==> t.Free(a) && a < p
  {
    LookAround(t, p);
    hide ChunkOk, Apart;
    var r := JoinTop(t, p);
    BaseIsFirst(t, p);
    forall a | a in r.live ensures ChunkOk(r, a) {
      JoinTopChunk(t, p, a);
    }
    forall a, b | a in r.live && b in r.live ensures Apart(r, a, b) {
      assert Apart(t, a, b);
      JoinTopApart(t, p, a, b);
    }
    TopIsLast(t);
  }

  lemma JoinTopApart(t: Tags, p: nat, a: nat, b: nat)
    requires TagsOk(t) && CanJoinTop(t, p) && p <= t.end && a in t.live && b in t.live && a <= p && b <= p
    ensures Apart(JoinTop(t, p), a, b)
  {
    assert Apart(t, a, b);
  }

  lemma BaseIsFirst(t: Tags, p: nat)
    requires TagsOk(t) && p in t.live
    ensures t.base <= p
  {
    assert ChunkOk(t, p);
  }

  lemma TopIsLast(t: Tags)
    requires TagsOk(t)
    ensures forall a :: a in t.live ==> a <= t.top && (a != t.top ==> a < t.top)
  {
    forall a | a in t.live ensures a <= t.top {
      TwoApart(t, a, t.top);
      assert ChunkOk(t, t.top) && ChunkOk(t, a);
    }
  }

  /** Every chunk is aligned, as the base is and every size but top's. */
  lemma ChunksAreAligned(t: Tags, a: nat)
    requires TagsOk(t) && a in t.live
    ensures a % 8 == 0
  {
    BaseIsFirst(t, a);
    AlignedFrom(t, t.base, a);
  }

  lemma {:induction false} AlignedFrom(t: Tags, from: nat, a: nat)
    requires TagsOk(t) && from in t.live && from % 8 == 0 && a in t.live && from <= a
    ensures a % 8 == 0
    decreases a - from
  {
    if from < a {
      TwoApart(t, from, a);
      TopIsLast(t);
      assert ChunkOk(t, from);
      AlignedFrom(t, t.Next(from), a);
    }
  }
}
