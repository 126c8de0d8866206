/** The six converters as steps, each in the order of decisions of the program. */
module Converters {
  import opened Conversion
  import opened Utf

  /** A character read from the front of the source, or why there is none. */
  datatype Reading = Cannot(result: Result) | Char(ch: UTF32, take: nat)

  /** The front of UTF-8 text: the first byte announces the length, and the check comes before
      the bytes are added up. */
  function Front8(src: seq<UTF8>): Reading
    requires src != []
  {
    var extra := TrailingBytes(src[0]);
    if extra >= |src| then Cannot(SourceExhausted)
    else if !IsLegal(src[..extra + 1]) then Cannot(SourceIllegal)
    else Char(Read8(src[..extra + 1]), extra + 1)
  }

  /** The front of UTF-16 text. A lenient reader lets unpaired surrogates through. */
  function Front16(flags: Flags, src: seq<UTF16>): Reading
    requires src != []
  {
    if High(src[0]) then
      if |src| == 1 then Cannot(SourceExhausted)
      else if LowHalf(src[1]) then Char(ReadPair(src[0], src[1]), 2)
      else if flags.Strict? then Cannot(SourceIllegal)
      else Char(src[0], 1)
    else if flags.Strict? && LowHalf(src[0]) then Cannot(SourceIllegal)
    else Char(src[0], 1)
  }

  /** ConvertUTF8toUTF32. */
  function Step8To32(flags: Flags, src: seq<UTF8>, room: nat): Step<UTF32>
    requires src != []
  {
    match Front8(src)
    case Cannot(result) => Stop(result)
    case Char(ch, take) =>
      if room == 0 then Stop(TargetExhausted)
      else if ch > MAX_LEGAL then Go(take, [REPLACEMENT], true)
      else if !Surrogate(ch) then Go(take, [ch], false)
      else if flags.Strict? then Stop(SourceIllegal)
      else Go(take, [REPLACEMENT], false)
  }

  /** ConvertUTF8toUTF16. */
  function Step8To16(flags: Flags, src: seq<UTF8>, room: nat): Step<UTF16>
    requires src != []
  {
    match Front8(src)
    case Cannot(result) => Stop(result)
    case Char(ch, take) =>
      if room == 0 then Stop(TargetExhausted)
      else if ch <= MAX_BMP then
        if !Surrogate(ch) then Go(take, [ch], false)
        else if flags.Strict? then Stop(SourceIllegal)
        else Go(take, [REPLACEMENT], false)
      else if ch > MAX_LEGAL then
        if flags.Strict? then Stop(SourceIllegal) else Go(take, [REPLACEMENT], false)
      else if room == 1 then Stop(TargetExhausted)
      else Go(take, WritePair(ch), false)
  }

  /** ConvertUTF16toUTF32. */
  function Step16To32(flags: Flags, src: seq<UTF16>, room: nat): Step<UTF32>
    requires src != []
  {
    match Front16(flags, src)
    case Cannot(result) => Stop(result)
    case Char(ch, take) => if room == 0 then Stop(TargetExhausted) else Go(take, [ch], false)
  }

  /** What the writers of UTF-8 do with a character that is too large: three bytes for U+FFFD. */
  function Clipped(ch: UTF32): (r: UTF32)
    ensures r <= MAX_LEGAL
  {
    if ch > MAX_LEGAL then REPLACEMENT else ch
  }

  /** ConvertUTF16toUTF8. */
  function Step16To8(flags: Flags, src: seq<UTF16>, room: nat): Step<UTF8>
    requires src != []
  {
    match Front16(flags, src)
    case Cannot(result) => Stop(result)
    case Char(ch, take) =>
      var n := BytesToWrite(Clipped(ch));
      if n > room then Stop(TargetExhausted) else Go(take, Write8(Clipped(ch), n), false)
  }

  /** ConvertUTF32toUTF8. */
  function Step32To8(flags: Flags, src: seq<UTF32>, room: nat): Step<UTF8>
    requires src != []
  {
    if flags.Strict? && Surrogate(src[0]) then Stop(SourceIllegal)
    else
      var n := BytesToWrite(Clipped(src[0]));
      if n > room then Stop(TargetExhausted) else Go(1, Write8(Clipped(src[0]), n), src[0] > MAX_LEGAL)
  }

  /** ConvertUTF32toUTF16: the only one that looks at the room before the source, and that in
      strict mode steps over a value that is too large. */
  function Step32To16(flags: Flags, src: seq<UTF32>, room: nat): Step<UTF16>
    requires src != []
  {
    var ch := src[0];
    if room == 0 then Stop(TargetExhausted)
    else if ch <= MAX_BMP then
      if !Surrogate(ch) then Go(1, [ch], false)
      else if flags.Strict? then Stop(SourceIllegal)
      else Go(1, [REPLACEMENT], false)
    else if ch > MAX_LEGAL then
      if flags.Strict? then Go(1, [], true) else Go(1, [REPLACEMENT], false)
    else if room == 1 then Stop(TargetExhausted)
    else Go(1, WritePair(ch), false)
  }

  // ---- As steppers ----

  function From8To32(flags: Flags): Stepper<UTF8, UTF32> {
    (src, room: nat) => if src == [] then Stop(SourceExhausted) else Step8To32(flags, src, room)
  }

  function From8To16(flags: Flags): Stepper<UTF8, UTF16> {
    (src, room: nat) => if src == [] then Stop(SourceExhausted) else Step8To16(flags, src, room)
  }

  function From16To32(flags: Flags): Stepper<UTF16, UTF32> {
    (src, room: nat) => if src == [] then Stop(SourceExhausted) else Step16To32(flags, src, room)
  }

  function From16To8(flags: Flags): Stepper<UTF16, UTF8> {
    (src, room: nat) => if src == [] then Stop(SourceExhausted) else Step16To8(flags, src, room)
  }

  function From32To8(flags: Flags): Stepper<UTF32, UTF8> {
    (src, room: nat) => if src == [] then Stop(SourceExhausted) else Step32To8(flags, src, room)
  }

  function From32To16(flags: Flags): Stepper<UTF32, UTF16> {
    (src, room: nat) => if src == [] then Stop(SourceExhausted) else Step32To16(flags, src, room)
  }

  lemma FrontIsSteady8(src: seq<UTF8>, more: seq<UTF8>)
    requires src != [] && Front8(src).Char?
    ensures Front8(src + more) == Front8(src)
  {
    var n := TrailingBytes(src[0]) + 1;
    assert (src + more)[..n] == src[..n];
  }

  lemma FrontIsSteady16(flags: Flags, src: seq<UTF16>, more: seq<UTF16>)
    requires src != [] && Front16(flags, src).Char?
    ensures Front16(flags, src + more) == Front16(flags, src)
  {
  }

  lemma Fits8To32(flags: Flags, src: seq<UTF8>, room: nat)
    requires src != []
    ensures SoundStep(Step8To32(flags, src, room), |src|, room) && NeedsAt(Step8To32(flags, src, room), 1, |src|, room)
  {
  }

  lemma Traits8To32(flags: Flags)
    ensures Sound(From8To32(flags)) && Needs(From8To32(flags), 1)
  {
    hide Step8To32, SoundStep, NeedsAt;
    forall src: seq<UTF8>, room: nat | src != []
      ensures SoundStep(From8To32(flags)(src, room), |src|, room)
      ensures NeedsAt(From8To32(flags)(src, room), 1, |src|, room)
    {
      Fits8To32(flags, src, room);
    }
  }

  lemma Steady8To32(flags: Flags)
    ensures Steady(From8To32(flags))
  {
    forall src: seq<UTF8>, more, room: nat, extra: nat | src != []
      ensures SteadyAt(From8To32(flags), src, more, room, extra)
    {
      if Front8(src).Char? {
        FrontIsSteady8(src, more);
      }
      hide Front8, IsLegal, Read8, Write8, WritePair;
    }
  }

  lemma Fits8To16(flags: Flags, src: seq<UTF8>, room: nat)
    requires src != []
    ensures SoundStep(Step8To16(flags, src, room), |src|, room) && NeedsAt(Step8To16(flags, src, room), 1, |src|, room)
  {
  }

  lemma Traits8To16(flags: Flags)
    ensures Sound(From8To16(flags)) && Needs(From8To16(flags), 1)
  {
    hide Step8To16, SoundStep, NeedsAt;
    forall src: seq<UTF8>, room: nat | src != []
      ensures SoundStep(From8To16(flags)(src, room), |src|, room)
      ensures NeedsAt(From8To16(flags)(src, room), 1, |src|, room)
    {
      Fits8To16(flags, src, room);
    }
  }

  lemma Steady8To16(flags: Flags)
    ensures Steady(From8To16(flags))
  {
    forall src: seq<UTF8>, more, room: nat, extra: nat | src != []
      ensures SteadyAt(From8To16(flags), src, more, room, extra)
    {
      if Front8(src).Char? {
        FrontIsSteady8(src, more);
      }
      hide Front8, IsLegal, Read8, Write8, WritePair;
    }
  }

  lemma Fits16To32(flags: Flags, src: seq<UTF16>, room: nat)
    requires src != []
    ensures SoundStep(Step16To32(flags, src, room), |src|, room) && NeedsAt(Step16To32(flags, src, room), 1, |src|, room)
  {
  }

  lemma Traits16To32(flags: Flags)
    ensures Sound(From16To32(flags)) && Needs(From16To32(flags), 1)
  {
    hide Step16To32, SoundStep, NeedsAt;
    forall src: seq<UTF16>, room: nat | src != []
      ensures SoundStep(From16To32(flags)(src, room), |src|, room)
      ensures NeedsAt(From16To32(flags)(src, room), 1, |src|, room)
    {
      Fits16To32(flags, src, room);
    }
  }

  lemma Steady16To32(flags: Flags)
    ensures Steady(From16To32(flags))
  {
    forall src: seq<UTF16>, more, room: nat, extra: nat | src != []
      ensures SteadyAt(From16To32(flags), src, more, room, extra)
    {
      if Front16(flags, src).Char? {
        FrontIsSteady16(flags, src, more);
      }
      hide Front16, IsLegal, Read8, Write8, WritePair;
    }
  }

  lemma Fits16To8(flags: Flags, src: seq<UTF16>, room: nat)
    requires src != []
    ensures SoundStep(Step16To8(flags, src, room), |src|, room) && NeedsAt(Step16To8(flags, src, room), 3, |src|, room)
  {
  }

  lemma Traits16To8(flags: Flags)
    ensures Sound(From16To8(flags)) && Needs(From16To8(flags), 3)
  {
    hide Step16To8, SoundStep, NeedsAt;
    forall src: seq<UTF16>, room: nat | src != []
      ensures SoundStep(From16To8(flags)(src, room), |src|, room)
      ensures NeedsAt(From16To8(flags)(src, room), 3, |src|, room)
    {
      Fits16To8(flags, src, room);
    }
  }

  lemma Steady16To8(flags: Flags)
    ensures Steady(From16To8(flags))
  {
    forall src: seq<UTF16>, more, room: nat, extra: nat | src != []
      ensures SteadyAt(From16To8(flags), src, more, room, extra)
    {
      if Front16(flags, src).Char? {
        FrontIsSteady16(flags, src, more);
      }
      hide Front16, IsLegal, Read8, Write8, WritePair;
    }
  }

  lemma Fits32To8(flags: Flags, src: seq<UTF32>, room: nat)
    requires src != []
    ensures SoundStep(Step32To8(flags, src, room), |src|, room) && NeedsAt(Step32To8(flags, src, room), 4, |src|, room)
  {
  }

  lemma Traits32To8(flags: Flags)
    ensures Sound(From32To8(flags)) && Needs(From32To8(flags), 4)
  {
    hide Step32To8, SoundStep, NeedsAt;
    forall src: seq<UTF32>, room: nat | src != []
      ensures SoundStep(From32To8(flags)(src, room), |src|, room)
      ensures NeedsAt(From32To8(flags)(src, room), 4, |src|, room)
    {
      Fits32To8(flags, src, room);
    }
  }

  lemma Fits32To16(flags: Flags, src: seq<UTF32>, room: nat)
    requires src != []
    ensures SoundStep(Step32To16(flags, src, room), |src|, room) && NeedsAt(Step32To16(flags, src, room), 2, |src|, room)
  {
  }

  lemma Traits32To16(flags: Flags)
    ensures Sound(From32To16(flags)) && Needs(From32To16(flags), 2)
  {
    hide Step32To16, SoundStep, NeedsAt;
    forall src: seq<UTF32>, room: nat | src != []
      ensures SoundStep(From32To16(flags)(src, room), |src|, room)
      ensures NeedsAt(From32To16(flags)(src, room), 2, |src|, room)
    {
      Fits32To16(flags, src, room);
    }
  }

  lemma Steady32To8(flags: Flags)
    ensures Steady(From32To8(flags))
  {
    hide Write8, WritePair, BytesToWrite;
    forall src: seq<UTF32>, more, room: nat, extra: nat | src != []
      ensures SteadyAt(From32To8(flags), src, more, room, extra)
    {
    }
  }

  lemma Steady32To16(flags: Flags)
    ensures Steady(From32To16(flags))
  {
    hide Write8, WritePair, BytesToWrite;
    forall src: seq<UTF32>, more, room: nat, extra: nat | src != []
      ensures SteadyAt(From32To16(flags), src, more, room, extra)
    {
    }
  }
}
