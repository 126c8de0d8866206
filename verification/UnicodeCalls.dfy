/** Calls of the converters one after the other, and the buffers that utf8_wchar and wchar_utf8
    provide. */
module UnicodeCalls {
  import opened Conversion
  import opened Converters
  import opened Transcoding
  import opened UnicodeFacts
  import opened Utf

  // ---- Continuing a conversion ----

  /** The readers of UTF-8 can be stopped and called again, wherever source or target are cut. */
  lemma Utf8CallsAddUp(flags: Flags, src: seq<UTF8>, more: seq<UTF8>, room: nat, extra: nat)
    ensures Sound(From8To32(flags)) && Sound(From8To16(flags))
    ensures var first := Convert(From8To32(flags), src, room);
            Convert(From8To32(flags), src + more, room + extra)
              == first.Then(Convert(From8To32(flags), src[first.consumed..] + more, room - |first.written| + extra), false)
    ensures var first := Convert(From8To16(flags), src, room);
            Convert(From8To16(flags), src + more, room + extra)
              == first.Then(Convert(From8To16(flags), src[first.consumed..] + more, room - |first.written| + extra), false)
  {
    Traits8To32(flags);
    Traits8To16(flags);
    Quiet8(flags);
    Steady8To32(flags);
    Steady8To16(flags);
    hide *;
    CallsAddUp(From8To32(flags), src, more, room, extra);
    CallsAddUp(From8To16(flags), src, more, room, extra);
    QuietNeverMet(From8To32(flags), src, room);
    QuietNeverMet(From8To16(flags), src, room);
  }

  lemma Quiet8(flags: Flags)
    ensures Quiet(From8To32(flags)) && Quiet(From8To16(flags))
  {
    forall src: seq<UTF8>, room: nat | src != []
      ensures From8To32(flags)(src, room).Go? ==> !From8To32(flags)(src, room).illegal
      ensures From8To16(flags)(src, room).Go? ==> !From8To16(flags)(src, room).illegal
    {
      if Front8(src).Char? {
        Reader8NeverPatches(flags, src, room);
      }
      hide Front8;
    }
  }

  /** So can the readers of UTF-16: a surrogate pair cut in two is read by the next call. */
  lemma Utf16CallsAddUp(flags: Flags, src: seq<UTF16>, more: seq<UTF16>, room: nat, extra: nat)
    ensures Sound(From16To32(flags)) && Sound(From16To8(flags))
    ensures var first := Convert(From16To32(flags), src, room);
            Convert(From16To32(flags), src + more, room + extra)
              == first.Then(Convert(From16To32(flags), src[first.consumed..] + more, room - |first.written| + extra), false)
    ensures var first := Convert(From16To8(flags), src, room);
            Convert(From16To8(flags), src + more, room + extra)
              == first.Then(Convert(From16To8(flags), src[first.consumed..] + more, room - |first.written| + extra), false)
  {
    Traits16To32(flags);
    Traits16To8(flags);
    Quiet16(flags);
    Steady16To32(flags);
    Steady16To8(flags);
    hide *;
    CallsAddUp(From16To32(flags), src, more, room, extra);
    CallsAddUp(From16To8(flags), src, more, room, extra);
    QuietNeverMet(From16To32(flags), src, room);
    QuietNeverMet(From16To8(flags), src, room);
  }

  lemma Quiet16(flags: Flags)
    ensures Quiet(From16To32(flags)) && Quiet(From16To8(flags))
  {
    hide Front16, Write8;
  }

  predicate HasTooLarge(cs: seq<UTF32>) {
    exists i :: 0 <= i < |cs| && cs[i] > MAX_LEGAL
  }

  /** A writer from UTF-32 that went on after a value over 10FFFF remembers it only within the call:
      a later call on the rest forgets it. So the calls add up except that one call would report
      an illegal source where the last of several reports success. */
  lemma Utf32ToUtf8CallsAddUp(flags: Flags, src: seq<UTF32>, more: seq<UTF32>, room: nat, extra: nat)
    ensures Sound(From32To8(flags))
    ensures var first := Convert(From32To8(flags), src, room);
            Convert(From32To8(flags), src + more, room + extra)
              == first.Then(Convert(From32To8(flags), src[first.consumed..] + more, room - |first.written| + extra),
                            HasTooLarge(src[..first.consumed]))
  {
    hide Step32To8, HasTooLarge, Convert;
    Traits32To8(flags);
    Steady32To8(flags);
    BothFlagTooLarge(flags);
    MetIffTooLarge(From32To8(flags), true, src, room);
    hide *;
    CallsAddUp(From32To8(flags), src, more, room, extra);
  }

  lemma Utf32ToUtf16CallsAddUp(flags: Flags, src: seq<UTF32>, more: seq<UTF32>, room: nat, extra: nat)
    ensures Sound(From32To16(flags))
    ensures var first := Convert(From32To16(flags), src, room);
            Convert(From32To16(flags), src + more, room + extra)
              == first.Then(Convert(From32To16(flags), src[first.consumed..] + more, room - |first.written| + extra),
                            flags.Strict? && HasTooLarge(src[..first.consumed]))
  {
    hide Step32To16, HasTooLarge, Convert;
    Traits32To16(flags);
    Steady32To16(flags);
    BothFlagTooLarge(flags);
    MetIffTooLarge(From32To16(flags), flags.Strict?, src, room);
    hide *;
    CallsAddUp(From32To16(flags), src, more, room, extra);
  }

  lemma TooLargeOfPrefix(src: seq<UTF32>, n: nat)
    requires src != [] && n < |src|
    ensures HasTooLarge(src[..1 + n]) <==> src[0] > MAX_LEGAL || HasTooLarge(src[1..][..n])
  {
    assert src[..1 + n] == [src[0]] + src[1..][..n];
    if HasTooLarge(src[1..][..n]) {
      var i :| 0 <= i < n && src[1..][..n][i] > MAX_LEGAL;
      var j := i + 1;
      assert src[..1 + n][j] > MAX_LEGAL;
    }
  }

  lemma StepIsFlagged(flags: Flags, src: seq<UTF32>, room: nat)
    requires src != []
    ensures var r := Step32To8(flags, src, room); r.Go? ==> r.take == 1 && (r.illegal <==> src[0] > MAX_LEGAL)
    ensures var r := Step32To16(flags, src, room); r.Go? ==> r.take == 1 && (r.illegal <==> flags.Strict? && src[0] > MAX_LEGAL)
  {
    hide Write8, WritePair;
  }

  lemma OneMoreMet(src: seq<UTF32>, n: nat, on: bool, met: bool, metRest: bool)
    requires src != [] && n < |src|
    requires met == ((on && src[0] > MAX_LEGAL) || metRest) && metRest == (on && HasTooLarge(src[1..][..n]))
    ensures met == (on && HasTooLarge(src[..1 + n]))
  {
    TooLargeOfPrefix(src, n);
    hide HasTooLarge;
  }

  /** A step takes one value, and is flagged when that is too large. */
  ghost predicate FlagsTooLarge<T(!new)>(step: Stepper<UTF32, T>, on: bool) {
    forall src, room :: src != [] ==> FlagsAt(step, on, src, room)
  }

  ghost predicate FlagsAt<T(!new)>(step: Stepper<UTF32, T>, on: bool, src: seq<UTF32>, room: nat)
    requires src != []
  {
    var r := step(src, room);
    r.Go? ==> r.take == 1 && (r.illegal <==> on && src[0] > MAX_LEGAL)
  }

  lemma BothFlagTooLarge(flags: Flags)
    ensures FlagsTooLarge(From32To8(flags), true) && FlagsTooLarge(From32To16(flags), flags.Strict?)
  {
    forall src: seq<UTF32>, room: nat | src != []
      ensures FlagsAt(From32To8(flags), true, src, room) && FlagsAt(From32To16(flags), flags.Strict?, src, room)
    {
      StepIsFlagged(flags, src, room);
      hide Step32To8, Step32To16;
    }
  }

  lemma {:induction false} MetIffTooLarge<T(!new)>(step: Stepper<UTF32, T>, on: bool, src: seq<UTF32>, room: nat)
    requires Sound(step) && FlagsTooLarge(step, on)
    ensures Met(step, src, room) <==> on && HasTooLarge(src[..Convert(step, src, room).consumed])
    decreases |src|
  {
    if src != [] && step(src, room).Go? {
      assert FlagsAt(step, on, src, room);
      hide Sound, Convert, Met, HasTooLarge, FlagsTooLarge;
      var r := step(src, room);
      Unfold(step, src, room);
      var left := room - |r.put|;
      MetIffTooLarge(step, on, src[1..], left);
      OneMoreMet(src, Convert(step, src[1..], left).consumed, on, Met(step, src, room), Met(step, src[1..], left));
    }
  }

  // ---- The callers' buffers ----

  /** A target with a unit for every source byte, four bytes for every UTF-32 value or three for
      every UTF-16 unit is never exhausted. */
  lemma BuffersSuffice(flags: Flags, utf8: seq<UTF8>, utf16: seq<UTF16>, utf32: seq<UTF32>, room: nat)
    ensures Sound(From8To32(flags)) && Sound(From8To16(flags)) && Sound(From16To8(flags)) && Sound(From32To8(flags))
    ensures |utf8| <= room ==> Convert(From8To32(flags), utf8, room).result != TargetExhausted
    ensures |utf8| <= room ==> Convert(From8To16(flags), utf8, room).result != TargetExhausted
    ensures 3 * |utf16| <= room ==> Convert(From16To8(flags), utf16, room).result != TargetExhausted
    ensures 4 * |utf32| <= room ==> Convert(From32To8(flags), utf32, room).result != TargetExhausted
  {
    Traits8To32(flags);
    Traits8To16(flags);
    Traits16To8(flags);
    Traits32To8(flags);
    hide *;
    if |utf8| <= room {
      NeverExhausted(From8To32(flags), 1, utf8, room);
      NeverExhausted(From8To16(flags), 1, utf8, room);
    }
    if 3 * |utf16| <= room {
      NeverExhausted(From16To8(flags), 3, utf16, room);
    }
    if 4 * |utf32| <= room {
      NeverExhausted(From32To8(flags), 4, utf32, room);
    }
  }
}
