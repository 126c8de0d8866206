/** A buffer converter in general: one step reads a whole character from the front of the source
    and writes it, or stops; a conversion repeats steps. What follows from the shape of the steps
    alone is proved here for all converters at once. */
module Conversion {
  datatype Flags = Strict | Lenient

  datatype Result = ConversionOK | SourceExhausted | TargetExhausted | SourceIllegal

  /** One step on a non-empty source: give up with a result, or take units and put units. Some
      converters go on after an illegal value; `illegal` says that this step met one. */
  datatype Step<T> = Stop(result: Result) | Go(take: nat, put: seq<T>, illegal: bool)

  /** A step depends on the units left and on the room left in the target. */
  type Stepper<!S, !T> = (seq<S>, nat) -> Step<T>

  /** What a call reports: its result and how far the two pointers advanced, with what was
      written between. */
  datatype Outcome<T> = Outcome(result: Result, consumed: nat, written: seq<T>) {
    /** This outcome with one more step before it. */
    function After(take: nat, put: seq<T>, illegal: bool): Outcome<T> {
      Outcome(if illegal && result == ConversionOK then SourceIllegal else result, take + consumed, put + written)
    }

    /** This call followed by another, as one call would report it: one call remembers that it met
        an illegal value and went on, unless it stops for another reason later. */
    function Then(next: Outcome<T>, met: bool): Outcome<T> {
      Outcome(if met && next.result == ConversionOK then SourceIllegal else next.result,
              consumed + next.consumed, written + next.written)
    }
  }

  /** A step takes something that is there, puts what fits, and only stops for a reason. */
  ghost predicate Sound<S(!new), T(!new)>(step: Stepper<S, T>) {
    forall src, room :: src != [] ==> SoundStep(step(src, room), |src|, room)
  }

  ghost predicate SoundStep<T>(r: Step<T>, units: nat, room: nat) {
    match r
    case Stop(result) => result != ConversionOK
    case Go(take, put, illegal) => 1 <= take <= units && |put| <= room
  }

  /** The conversion of a whole buffer. */
  ghost function Convert<S(!new), T(!new)>(step: Stepper<S, T>, src: seq<S>, room: nat): (o: Outcome<T>)
    requires Sound(step)
    ensures o.consumed <= |src| && |o.written| <= room
    decreases |src|
  {
    if src == [] then Outcome(ConversionOK, 0, [])
    else
      assert SoundStep(step(src, room), |src|, room);
      match step(src, room)
      case Stop(result) => Outcome(result, 0, [])
      case Go(take, put, illegal) => Convert(step, src[take..], room - |put|).After(take, put, illegal)
  }

  /** A call met an illegal value and went on. */
  ghost predicate Met<S(!new), T(!new)>(step: Stepper<S, T>, src: seq<S>, room: nat)
    requires Sound(step)
    decreases |src|
  {
    src != [] &&
    assert SoundStep(step(src, room), |src|, room);
    match step(src, room)
    case Stop(result) => false
    case Go(take, put, illegal) => illegal || Met(step, src[take..], room - |put|)
  }

  lemma Unfold<S(!new), T(!new)>(step: Stepper<S, T>, src: seq<S>, room: nat)
    requires Sound(step) && src != [] && step(src, room).Go?
    ensures var r := step(src, room);
            1 <= r.take <= |src| && |r.put| <= room
            && Convert(step, src, room) == Convert(step, src[r.take..], room - |r.put|).After(r.take, r.put, r.illegal)
            && Met(step, src, room) == (r.illegal || Met(step, src[r.take..], room - |r.put|))
  {
    assert SoundStep(step(src, room), |src|, room);
  }

  lemma Stopped<S(!new), T(!new)>(step: Stepper<S, T>, src: seq<S>, room: nat)
    requires Sound(step) && (src == [] || step(src, room).Stop?)
    ensures Convert(step, src, room) == Outcome(if src == [] then ConversionOK else step(src, room).result, 0, [])
  {
  }

  lemma DropOfSum<S>(s: seq<S>, more: seq<S>, a: nat)
    requires a <= |s|
    ensures (s + more)[a..] == s[a..] + more
  {
  }

  lemma DropOfDrop<S>(s: seq<S>, a: nat, b: nat)
    requires a + b <= |s|
    ensures s[a..][b..] == s[a + b..]
  {
  }

  // ---- A conversion in progress ----

  /** After `s` units were taken and `w` put, perhaps with an illegal value met on the way, the
      rest of the conversion is what the outcome still depends on. */
  ghost predicate Progress<S(!new), T(!new)>(step: Stepper<S, T>, src: seq<S>, room: nat, s: nat, w: seq<T>, illegal: bool)
    requires Sound(step)
  {
    s <= |src| && |w| <= room && Convert(step, src, room) == Convert(step, src[s..], room - |w|).After(s, w, illegal)
  }

  lemma ProgressStart<S(!new), T(!new)>(step: Stepper<S, T>, src: seq<S>, room: nat)
    requires Sound(step)
    ensures Progress(step, src, room, 0, [], false)
  {
    assert src[0..] == src;
    var o := Convert(step, src, room);
    assert [] + o.written == o.written;
  }

  lemma AfterAfter<T>(o: Outcome<T>, take: nat, put: seq<T>, flag: bool, before: nat, w: seq<T>, illegal: bool)
    ensures o.After(take, put, flag).After(before, w, illegal) == o.After(before + take, w + put, illegal || flag)
  {
    assert w + (put + o.written) == (w + put) + o.written;
  }

  lemma ProgressGo<S(!new), T(!new)>(step: Stepper<S, T>, src: seq<S>, room: nat, s: nat, w: seq<T>, illegal: bool)
    requires Sound(step) && Progress(step, src, room, s, w, illegal) && s < |src| && step(src[s..], room - |w|).Go?
    ensures var r := step(src[s..], room - |w|);
            Progress(step, src, room, s + r.take, w + r.put, illegal || r.illegal)
  {
    hide Convert, Sound, Met;
    var r := step(src[s..], room - |w|);
    Unfold(step, src[s..], room - |w|);
    DropOfDrop(src, s, r.take);
    AfterAfter(Convert(step, src[s + r.take..], room - |w| - |r.put|), r.take, r.put, r.illegal, s, w, illegal);
    assert |w + r.put| == |w| + |r.put|;
  }

  lemma ProgressStop<S(!new), T(!new)>(step: Stepper<S, T>, src: seq<S>, room: nat, s: nat, w: seq<T>, illegal: bool)
    requires Sound(step) && Progress(step, src, room, s, w, illegal)
    requires s < |src| ==> step(src[s..], room - |w|).Stop?
    ensures Convert(step, src, room) == Outcome(
              if s < |src| then step(src[s..], room - |w|).result else if illegal then SourceIllegal else ConversionOK, s, w)
  {
    assert w + [] == w;
    if s < |src| {
      assert SoundStep(step(src[s..], room - |w|), |src[s..]|, room - |w|);
    }
  }

  // ---- Several calls ----

  /** A step would be made the same with more source and more room. */
  ghost predicate Steady<S(!new), T(!new)>(step: Stepper<S, T>) {
    forall src, more, room, extra: nat :: src != [] ==> SteadyAt(step, src, more, room, extra)
  }

  ghost predicate SteadyAt<S(!new), T(!new)>(step: Stepper<S, T>, src: seq<S>, more: seq<S>, room: nat, extra: nat) {
    step(src, room).Go? ==> step(src + more, room + extra) == step(src, room)
  }

  lemma AfterThen<T>(first: Outcome<T>, second: Outcome<T>, met: bool, take: nat, put: seq<T>, illegal: bool)
    ensures first.Then(second, met).After(take, put, illegal) == first.After(take, put, illegal).Then(second, illegal || met)
  {
    assert put + (first.written + second.written) == (put + first.written) + second.written;
  }

  /** One call on everything gives what a call on a part and a call on the rest give. */
  ghost predicate AddUp<S(!new), T(!new)>(step: Stepper<S, T>, src: seq<S>, more: seq<S>, room: nat, extra: nat)
    requires Sound(step)
  {
    var first := Convert(step, src, room);
    Convert(step, src + more, room + extra)
      == first.Then(Convert(step, src[first.consumed..] + more, room - |first.written| + extra), Met(step, src, room))
  }

  lemma OneMoreStep<S(!new), T(!new)>(step: Stepper<S, T>, src: seq<S>, more: seq<S>, room: nat, extra: nat, r: Step<T>)
    requires Sound(step) && src != [] && r == step(src, room) == step(src + more, room + extra) && r.Go?
    requires r.take <= |src| && |r.put| <= room && AddUp(step, src[r.take..], more, room - |r.put|, extra)
    ensures AddUp(step, src, more, room, extra)
  {
    hide Convert, Sound, Met;
    Unfold(step, src, room);
    Unfold(step, src + more, room + extra);
    DropOfSum(src, more, r.take);
    var left := room - |r.put|;
    var inner := Convert(step, src[r.take..], left);
    DropOfDrop(src, r.take, inner.consumed);
    ghost var second := Convert(step, src[r.take + inner.consumed..] + more, left - |inner.written| + extra);
    AfterThen(inner, second, Met(step, src[r.take..], left), r.take, r.put, r.illegal);
  }

  /** A call on part of the source with part of the target, and then a call on everything that is
      left with all the room that is left, give together what one call gives. */
  lemma {:induction false} CallsAddUp<S(!new), T(!new)>(step: Stepper<S, T>, src: seq<S>, more: seq<S>, room: nat, extra: nat)
    requires Sound(step) && Steady(step)
    ensures AddUp(step, src, more, room, extra)
    decreases |src|
  {
    if src == [] || step(src, room).Stop? {
      assert src[0..] + more == src + more;
    } else {
      var r := step(src, room);
      assert r == step(src + more, room + extra) by {
        assert SteadyAt(step, src, more, room, extra);
      }
      Unfold(step, src, room);
      CallsAddUp(step, src[r.take..], more, room - |r.put|, extra);
      OneMoreStep(step, src, more, room, extra, r);
    }
  }

  /** A step that never meets an illegal value and goes on. */
  ghost predicate Quiet<S(!new), T(!new)>(step: Stepper<S, T>) {
    forall src, room :: src != [] && step(src, room).Go? ==> !step(src, room).illegal
  }

  lemma {:induction false} QuietNeverMet<S(!new), T(!new)>(step: Stepper<S, T>, src: seq<S>, room: nat)
    requires Sound(step) && Quiet(step)
    ensures !Met(step, src, room)
    decreases |src|
  {
    if src != [] && step(src, room).Go? {
      Unfold(step, src, room);
      QuietNeverMet(step, src[step(src, room).take..], room - |step(src, room).put|);
    }
  }

  lemma {:induction false} StoppedForAReason<S(!new), T(!new)>(step: Stepper<S, T>, src: seq<S>, room: nat)
    requires Sound(step) && Convert(step, src, room).consumed < |src|
    ensures Convert(step, src, room).result != ConversionOK
    decreases |src|
  {
    if src != [] {
      assert SoundStep(step(src, room), |src|, room);
      if step(src, room).Go? {
        StoppedForAReason(step, src[step(src, room).take..], room - |step(src, room).put|);
      }
    }
  }

  /** A call that stopped before the end stops again at the same place for the same reason. */
  lemma {:induction false} StopsAgain<S(!new), T(!new)>(step: Stepper<S, T>, src: seq<S>, room: nat)
    requires Sound(step)
    ensures var first := Convert(step, src, room);
            first.consumed < |src| ==>
              Convert(step, src[first.consumed..], room - |first.written|) == Outcome(first.result, 0, [])
    decreases |src|
  {
    if src == [] || step(src, room).Stop? {
      assert src[0..] == src;
    } else {
      var r := step(src, room);
      Unfold(step, src, room);
      var rest, left := src[r.take..], room - |r.put|;
      var inner, first := Convert(step, rest, left), Convert(step, src, room);
      if inner.consumed < |rest| {
        StoppedForAReason(step, rest, left);
      }
      assert first == inner.After(r.take, r.put, r.illegal);
      assert first.consumed == r.take + inner.consumed && |first.written| == |r.put| + |inner.written|;
      assert inner.consumed < |rest| ==> first.result == inner.result;
      DropOfDrop(src, r.take, inner.consumed);
      hide *;
      StopsAgain(step, rest, left);
    }
  }

  /** Success means that everything was converted and nothing illegal was met, and nothing else does. */
  lemma {:induction false} OkIffAllConsumed<S(!new), T(!new)>(step: Stepper<S, T>, src: seq<S>, room: nat)
    requires Sound(step)
    ensures var o := Convert(step, src, room);
            o.result == ConversionOK <==> o.consumed == |src| && !Met(step, src, room)
    decreases |src|
  {
    if src != [] {
      assert SoundStep(step(src, room), |src|, room);
      match step(src, room)
      case Stop(result) =>
      case Go(take, put, illegal) => OkIffAllConsumed(step, src[take..], room - |put|);
    }
  }

  // ---- Whole characters ----

  /** A relation between source and target that one more step in front keeps. */
  ghost predicate Keeps<S(!new), T(!new)>(step: Stepper<S, T>, related: (seq<S>, seq<T>) -> bool) {
    related([], []) && forall src, room: nat, p, w :: src != [] ==> KeepsAt(step, related, src, room, p, w)
  }

  ghost predicate KeepsAt<S(!new), T(!new)>(step: Stepper<S, T>, related: (seq<S>, seq<T>) -> bool,
                                            src: seq<S>, room: nat, p: seq<S>, w: seq<T>) {
    var r := step(src, room);
    r.Go? && r.take <= |src| && related(p, w) ==> related(src[..r.take] + p, r.put + w)
  }

  /** What was consumed and what was written are then related, wherever the call stopped. */
  lemma {:induction false} StopsBetweenCharacters<S(!new), T(!new)>(step: Stepper<S, T>, related: (seq<S>, seq<T>) -> bool,
                                                                   src: seq<S>, room: nat)
    requires Sound(step) && Keeps(step, related)
    ensures var o := Convert(step, src, room); related(src[..o.consumed], o.written)
    decreases |src|
  {
    if src == [] || step(src, room).Stop? {
      assert src[..0] == [];
    } else {
      var r := step(src, room);
      Unfold(step, src, room);
      StopsBetweenCharacters(step, related, src[r.take..], room - |r.put|);
      var inner := Convert(step, src[r.take..], room - |r.put|);
      assert KeepsAt(step, related, src, room, src[r.take..][..inner.consumed], inner.written);
      TakeOfSum(src, r.take, inner.consumed);
    }
  }

  lemma TakeOfSum<T>(s: seq<T>, a: nat, b: nat)
    requires a + b <= |s|
    ensures s[..a] + s[a..][..b] == s[..a + b]
  {
  }

  // ---- Room ----

  /** With `k` units of room for every source unit a step does not run out of room, and it does
      not put more than that. */
  ghost predicate Needs<S(!new), T(!new)>(step: Stepper<S, T>, k: nat) {
    forall src, room :: src != [] ==> NeedsAt(step(src, room), k, |src|, room)
  }

  ghost predicate NeedsAt<T>(r: Step<T>, k: nat, units: nat, room: nat) {
    match r
    case Stop(result) => result == TargetExhausted ==> room < k * units
    case Go(take, put, illegal) => |put| <= k * take
  }

  lemma {:induction false} NeverExhausted<S(!new), T(!new)>(step: Stepper<S, T>, k: nat, src: seq<S>, room: nat)
    requires Sound(step) && Needs(step, k) && k * |src| <= room
    ensures Convert(step, src, room).result != TargetExhausted
    decreases |src|
  {
    if src != [] {
      assert NeedsAt(step(src, room), k, |src|, room);
      assert SoundStep(step(src, room), |src|, room);
      match step(src, room)
      case Stop(result) =>
      case Go(take, put, illegal) =>
        assert k * |src| == k * take + k * |src[take..]|;
        NeverExhausted(step, k, src[take..], room - |put|);
    }
  }
}
