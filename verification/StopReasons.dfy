/** Why a reader of UTF-8 or UTF-16 stopped: what lies in front of it, and the room that is left. */
module StopReasons {
  import opened Conversion
  import opened Converters
  import opened LenientUtf16
  import Transcoding
  import UnicodeCalls
  import opened UnicodeFacts
  import opened Utf

  /** Whatever made a call end lies right behind what it consumed. */
  lemma StoppedHere<S(!new), T(!new)>(step: Stepper<S, T>, src: seq<S>, room: nat)
    requires Sound(step)
    ensures var o := Convert(step, src, room);
            o.consumed < |src| ==> step(src[o.consumed..], room - |o.written|) == Stop(o.result)
  {
    var o := Convert(step, src, room);
    StopsAgain(step, src, room);
    if o.consumed < |src| {
      var rest, left: nat := src[o.consumed..], room - |o.written|;
      if step(rest, left).Go? {
        Unfold(step, rest, left);
      } else {
        Stopped(step, rest, left);
      }
      hide Convert, Sound, Met;
    }
  }

  // ---- UTF-8 ----

  /** The character that the bytes begin with, as far as the check goes. */
  ghost predicate Begins8(rest: seq<UTF8>)
    requires rest != []
  {
    var n := TrailingBytes(rest[0]) + 1;
    n <= |rest| && n <= 4 && (WellFormed8(rest[..n]) || LooselyFormed(rest[..n]))
  }

  ghost predicate Reason8(result: Result, rest: seq<UTF8>, full: bool) {
    && rest != [] && result != ConversionOK
    && (result == SourceExhausted ==> TrailingBytes(rest[0]) >= |rest|)
    && (result == SourceIllegal ==> TrailingBytes(rest[0]) < |rest| && !Begins8(rest))
    && (result == TargetExhausted ==> Begins8(rest) && full)
  }

  lemma FrontReason8(rest: seq<UTF8>)
    requires rest != []
    ensures var c := Front8(rest);
            if c.Cannot? then (c.result == SourceExhausted || c.result == SourceIllegal) && Reason8(c.result, rest, false)
            else Begins8(rest) && c.take == TrailingBytes(rest[0]) + 1 && c.ch == Read8(rest[..c.take])
  {
    var n := TrailingBytes(rest[0]) + 1;
    if n <= |rest| {
      LegalIsWellFormedOrLoose(rest[..n]);
    }
  }

  /** A call that did not reach the end stopped in front of a sequence that is cut off, of one that the
      check refuses, or of one whose character does not fit in what is left. */
  lemma Utf8StopReasons(flags: Flags, src: seq<UTF8>, room: nat)
    ensures Sound(From8To32(flags)) && Sound(From8To16(flags))
    ensures var o := Convert(From8To32(flags), src, room);
            if o.consumed == |src| then o.result == ConversionOK
            else Reason8(o.result, src[o.consumed..], room == |o.written|)
    ensures var o := Convert(From8To16(flags), src, room);
            if o.consumed == |src| then o.result == ConversionOK
            else var rest := src[o.consumed..];
                 Reason8(o.result, rest, Begins8(rest) &&
                   room - |o.written| < if Read8(rest[..TrailingBytes(rest[0]) + 1]) > MAX_BMP then 2 else 1)
  {
    Traits8To32(flags);
    Traits8To16(flags);
    Stops8To32(flags, src, room);
    Stops8To16(flags, src, room);
    hide *;
  }

  lemma Stops8To32(flags: Flags, src: seq<UTF8>, room: nat)
    requires Sound(From8To32(flags))
    ensures var o := Convert(From8To32(flags), src, room);
            if o.consumed == |src| then o.result == ConversionOK
            else Reason8(o.result, src[o.consumed..], room == |o.written|)
  {
    var step := From8To32(flags);
    var o := Convert(step, src, room);
    StoppedHere(step, src, room);
    NeverMet8(flags, src, room);
    OkIffAllConsumed(step, src, room);
    hide Convert, Met, Sound;
    if o.consumed < |src| {
      var rest, left: nat := src[o.consumed..], room - |o.written|;
      FrontReason8(rest);
      if Front8(rest).Char? {
        Reader8NeverPatches(flags, rest, left);
      }
      hide Front8, Begins8, Read8;
    }
  }

  lemma Stops8To16(flags: Flags, src: seq<UTF8>, room: nat)
    requires Sound(From8To16(flags))
    ensures var o := Convert(From8To16(flags), src, room);
            if o.consumed == |src| then o.result == ConversionOK
            else var rest := src[o.consumed..];
                 Reason8(o.result, rest, Begins8(rest) &&
                   room - |o.written| < if Read8(rest[..TrailingBytes(rest[0]) + 1]) > MAX_BMP then 2 else 1)
  {
    var step := From8To16(flags);
    var o := Convert(step, src, room);
    StoppedHere(step, src, room);
    NeverMet8(flags, src, room);
    OkIffAllConsumed(step, src, room);
    hide Convert, Met, Sound;
    if o.consumed < |src| {
      var rest, left: nat := src[o.consumed..], room - |o.written|;
      FrontReason8(rest);
      if Front8(rest).Char? {
        Reader8NeverPatches(flags, rest, left);
      }
      hide Front8, Begins8, Read8;
    }
  }

  lemma NeverMet8(flags: Flags, src: seq<UTF8>, room: nat)
    ensures Sound(From8To32(flags)) && Sound(From8To16(flags))
    ensures !Met(From8To32(flags), src, room) && !Met(From8To16(flags), src, room)
  {
    Traits8To32(flags);
    Traits8To16(flags);
    UnicodeCalls.Quiet8(flags);
    QuietNeverMet(From8To32(flags), src, room);
    QuietNeverMet(From8To16(flags), src, room);
  }

  // ---- UTF-16 ----

  ghost predicate Reason16(flags: Flags, result: Result, rest: seq<UTF16>, full: bool) {
    && rest != [] && result != ConversionOK
    && (result == SourceExhausted ==> |rest| == 1 && High(rest[0]))
    && (result == SourceIllegal ==> flags.Strict? && UnpairedAt(rest, 0) && !(|rest| == 1 && High(rest[0])))
    && (result == TargetExhausted ==> full && !(|rest| == 1 && High(rest[0])) && (flags.Strict? ==> !UnpairedAt(rest, 0)))
  }

  lemma FrontReason16(flags: Flags, rest: seq<UTF16>)
    requires rest != []
    ensures var c := Front16(flags, rest);
            if c.Cannot? then
              (c.result == SourceExhausted || c.result == SourceIllegal) && Reason16(flags, c.result, rest, false)
            else Reason16(flags, TargetExhausted, rest, true) && Points(rest) != [] && c.ch == Points(rest)[0]
  {
  }

  /** A call that did not reach the end stopped in front of half a pair at the end, in strict mode of half
      a pair elsewhere, or of a character that does not fit in what is left. */
  lemma Utf16StopReasons(flags: Flags, src: seq<UTF16>, room: nat)
    ensures Sound(From16To32(flags)) && Sound(From16To8(flags))
    ensures var o := Convert(From16To32(flags), src, room);
            if o.consumed == |src| then o.result == ConversionOK
            else Reason16(flags, o.result, src[o.consumed..], room == |o.written|)
    ensures var o := Convert(From16To8(flags), src, room);
            if o.consumed == |src| then o.result == ConversionOK
            else var rest := src[o.consumed..];
                 Reason16(flags, o.result, rest, Points(rest) != [] && room - |o.written| < |Encode8(Points(rest)[0])|)
  {
    Traits16To32(flags);
    Traits16To8(flags);
    Stops16To32(flags, src, room);
    Stops16To8(flags, src, room);
    hide *;
  }

  lemma Stops16To32(flags: Flags, src: seq<UTF16>, room: nat)
    requires Sound(From16To32(flags))
    ensures var o := Convert(From16To32(flags), src, room);
            if o.consumed == |src| then o.result == ConversionOK
            else Reason16(flags, o.result, src[o.consumed..], room == |o.written|)
  {
    var step := From16To32(flags);
    var o := Convert(step, src, room);
    StoppedHere(step, src, room);
    NeverMet16(flags, src, room);
    OkIffAllConsumed(step, src, room);
    Reads16To32(flags);
    hide Convert, Met, Sound;
    if o.consumed < |src| {
      var rest, left: nat := src[o.consumed..], room - |o.written|;
      FrontReason16(flags, rest);
      ReadsHere(step, flags, Transcoding.Form32(), rest, left);
      hide Front16, Points, UnpairedAt;
    }
  }

  lemma Stops16To8(flags: Flags, src: seq<UTF16>, room: nat)
    requires Sound(From16To8(flags))
    ensures var o := Convert(From16To8(flags), src, room);
            if o.consumed == |src| then o.result == ConversionOK
            else var rest := src[o.consumed..];
                 Reason16(flags, o.result, rest, Points(rest) != [] && room - |o.written| < |Encode8(Points(rest)[0])|)
  {
    var step := From16To8(flags);
    var o := Convert(step, src, room);
    StoppedHere(step, src, room);
    NeverMet16(flags, src, room);
    OkIffAllConsumed(step, src, room);
    Reads16To8(flags);
    hide Convert, Met, Sound;
    if o.consumed < |src| {
      var rest, left: nat := src[o.consumed..], room - |o.written|;
      FrontReason16(flags, rest);
      ReadsHere(step, flags, Transcoding.Form8(), rest, left);
      hide Front16, Points, UnpairedAt, Encode8;
    }
  }

  lemma NeverMet16(flags: Flags, src: seq<UTF16>, room: nat)
    ensures Sound(From16To32(flags)) && Sound(From16To8(flags))
    ensures !Met(From16To32(flags), src, room) && !Met(From16To8(flags), src, room)
  {
    Traits16To32(flags);
    Traits16To8(flags);
    UnicodeCalls.Quiet16(flags);
    QuietNeverMet(From16To32(flags), src, room);
    QuietNeverMet(From16To8(flags), src, room);
  }
}
