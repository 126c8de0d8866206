/** What the converters do to text, that is to sequences of scalar values: every conversion of the
    standard form of a text gives the standard form of the same text, and nothing else converts. */
module Transcoding {
  import opened Conversion
  import opened Converters
  import opened Utf

  predicate Text(cs: seq<UTF32>) {
    forall i :: 0 <= i < |cs| ==> Scalar(cs[i])
  }

  /** An encoding form: the units of each character. */
  type Form<!T> = UTF32 -> seq<T>

  function Form8(): Form<UTF8> {
    (ch: UTF32) => if ch <= MAX_LEGAL then Encode8(ch) else []
  }

  function Form16(): Form<UTF16> {
    (ch: UTF32) => if ch <= MAX_LEGAL then Encode16(ch) else []
  }

  function Form32(): Form<UTF32> {
    (ch: UTF32) => [ch]
  }

  /** A text in an encoding form. */
  function All<T>(form: Form<T>, cs: seq<UTF32>): seq<T> {
    if cs == [] then [] else form(cs[0]) + All(form, cs[1..])
  }

  /** How many characters of a text fit. */
  function Fitting<T>(form: Form<T>, cs: seq<UTF32>, room: nat): (n: nat)
    ensures n <= |cs|
  {
    if cs == [] || |form(cs[0])| > room then 0 else 1 + Fitting(form, cs[1..], room - |form(cs[0])|)
  }

  /** They do fit, and one more would not. */
  lemma {:induction false} FittingIsMost<T>(form: Form<T>, cs: seq<UTF32>, room: nat)
    ensures var n := Fitting(form, cs, room);
            |All(form, cs[..n])| <= room && (n < |cs| ==> |All(form, cs[..n + 1])| > room)
  {
    if cs != [] {
      var n := Fitting(form, cs, room);
      if n < |cs| {
        assert cs[..n + 1][1..] == cs[1..][..n];
      }
      if |form(cs[0])| <= room {
        FittingIsMost(form, cs[1..], room - |form(cs[0])|);
        assert cs[..n][1..] == cs[1..][..n - 1];
      }
    }
  }

  lemma {:induction false} AllFit<T>(form: Form<T>, cs: seq<UTF32>, room: nat)
    ensures Fitting(form, cs, room) == |cs| <==> |All(form, cs)| <= room
  {
    FittingIsMost(form, cs, room);
    var n := Fitting(form, cs, room);
    if n == |cs| {
      assert cs[..n] == cs;
    } else {
      AllOfPrefix(form, cs, n + 1);
    }
  }

  lemma {:induction false} AllOfPrefix<T>(form: Form<T>, cs: seq<UTF32>, n: nat)
    requires n <= |cs|
    ensures All(form, cs) == All(form, cs[..n]) + All(form, cs[n..])
  {
    if n == 0 {
      assert cs[n..] == cs;
    } else {
      AllOfPrefix(form, cs[1..], n - 1);
      assert cs[1..][..n - 1] == cs[..n][1..] && cs[1..][n - 1..] == cs[n..];
    }
  }

  // ---- Text converts exactly ----

  /** On the units of a scalar value a step writes the units of that value, if there is room. */
  ghost predicate Transcodes<S(!new), T(!new)>(step: Stepper<S, T>, from: Form<S>, to: Form<T>) {
    forall ch: UTF32, rest, room: nat :: Scalar(ch) ==> TranscodesAt(step, from, to, ch, rest, room)
  }

  ghost predicate TranscodesAt<S(!new), T(!new)>(step: Stepper<S, T>, from: Form<S>, to: Form<T>,
                                                 ch: UTF32, rest: seq<S>, room: nat) {
    && from(ch) != []
    && step(from(ch) + rest, room) == if |to(ch)| > room then Stop(TargetExhausted) else Go(|from(ch)|, to(ch), false)
  }

  /** A text converts character by character as far as the target reaches. */
  lemma {:induction false} TextConverts<S(!new), T(!new)>(step: Stepper<S, T>, from: Form<S>, to: Form<T>, cs: seq<UTF32>, room: nat)
    requires Sound(step) && Transcodes(step, from, to) && Text(cs)
    ensures var n := Fitting(to, cs, room);
            Convert(step, All(from, cs), room)
              == Outcome(if n == |cs| then ConversionOK else TargetExhausted, |All(from, cs[..n])|, All(to, cs[..n]))
  {
    if cs == [] || |to(cs[0])| > room {
      TextStops(step, from, to, cs, room);
    } else {
      TextConverts(step, from, to, cs[1..], room - |to(cs[0])|);
      TextGoesOn(step, from, to, cs, room);
    }
  }

  lemma TextStops<S(!new), T(!new)>(step: Stepper<S, T>, from: Form<S>, to: Form<T>, cs: seq<UTF32>, room: nat)
    requires Sound(step) && Transcodes(step, from, to) && Text(cs) && (cs == [] || |to(cs[0])| > room)
    ensures Fitting(to, cs, room) == 0
    ensures Convert(step, All(from, cs), room) == Outcome(if cs == [] then ConversionOK else TargetExhausted, 0, [])
    ensures All(from, cs[..0]) == [] && All(to, cs[..0]) == []
  {
    if cs != [] {
      assert TranscodesAt(step, from, to, cs[0], All(from, cs[1..]), room);
    }
    Stopped(step, All(from, cs), room);
    hide Convert, Sound, Transcodes;
  }

  lemma TextGoesOn<S(!new), T(!new)>(step: Stepper<S, T>, from: Form<S>, to: Form<T>, cs: seq<UTF32>, room: nat)
    requires Sound(step) && Transcodes(step, from, to) && Text(cs) && cs != [] && |to(cs[0])| <= room
    requires var rest, left := cs[1..], room - |to(cs[0])|;
             var n := Fitting(to, rest, left);
             Convert(step, All(from, rest), left)
               == Outcome(if n == |rest| then ConversionOK else TargetExhausted, |All(from, rest[..n])|, All(to, rest[..n]))
    ensures var n := Fitting(to, cs, room);
            Convert(step, All(from, cs), room)
              == Outcome(if n == |cs| then ConversionOK else TargetExhausted, |All(from, cs[..n])|, All(to, cs[..n]))
  {
    hide Convert, Met, Sound;
    var ch, src, rest := cs[0], All(from, cs), All(from, cs[1..]);
    assert TranscodesAt(step, from, to, ch, rest, room);
    hide Transcodes;
    Unfold(step, src, room);
    assert src[|from(ch)|..] == rest;
    var n := Fitting(to, cs, room);
    assert cs[..n][0] == ch && cs[..n][1..] == cs[1..][..n - 1];
  }

  lemma FrontOfEncoded8(ch: UTF32, rest: seq<UTF8>)
    requires Scalar(ch)
    ensures Front8(Encode8(ch) + rest) == Char(ch, |Encode8(ch)|)
  {
    var e := Encode8(ch);
    Encode8IsWellFormed(ch);
    LegalIsWellFormedOrLoose(e);
    Read8OfEncode8(ch);
    hide Encode8, Read8, IsLegal, TrailingBytes, WellFormed8;
    assert (e + rest)[..|e|] == e;
  }

  lemma FrontOfEncoded16(flags: Flags, ch: UTF32, rest: seq<UTF16>)
    requires Scalar(ch)
    ensures Front16(flags, Encode16(ch) + rest) == Char(ch, |Encode16(ch)|)
  {
    if ch > MAX_BMP {
      WritePairIsEncode16(ch);
    }
  }

  lemma Put8(ch: UTF32)
    requires Scalar(ch)
    ensures Clipped(ch) == ch && Write8(ch, BytesToWrite(ch)) == Encode8(ch) && |Encode8(ch)| == BytesToWrite(ch)
  {
    Write8IsEncode8(ch);
  }

  lemma Transcodes8To32(flags: Flags)
    ensures Transcodes(From8To32(flags), Form8(), Form32())
  {
    forall ch: UTF32, rest: seq<UTF8>, room: nat | Scalar(ch)
      ensures TranscodesAt(From8To32(flags), Form8(), Form32(), ch, rest, room)
    {
      FrontOfEncoded8(ch, rest);
      hide Front8, Encode8;
    }
  }

  lemma Transcodes8To16(flags: Flags)
    ensures Transcodes(From8To16(flags), Form8(), Form16())
  {
    forall ch: UTF32, rest: seq<UTF8>, room: nat | Scalar(ch)
      ensures TranscodesAt(From8To16(flags), Form8(), Form16(), ch, rest, room)
    {
      Transcodes8To16At(flags, ch, rest, room);
      hide *;
    }
  }

  lemma Transcodes8To16At(flags: Flags, ch: UTF32, rest: seq<UTF8>, room: nat)
    requires Scalar(ch)
    ensures TranscodesAt(From8To16(flags), Form8(), Form16(), ch, rest, room)
  {
    hide Front8, Encode8, WritePair;
    FrontOfEncoded8(ch, rest);
    if ch > MAX_BMP {
      WritePairIsEncode16(ch);
    }
  }

  lemma Transcodes16To32(flags: Flags)
    ensures Transcodes(From16To32(flags), Form16(), Form32())
  {
    forall ch: UTF32, rest: seq<UTF16>, room: nat | Scalar(ch)
      ensures TranscodesAt(From16To32(flags), Form16(), Form32(), ch, rest, room)
    {
      FrontOfEncoded16(flags, ch, rest);
      hide Front16;
    }
  }

  lemma Transcodes16To8(flags: Flags)
    ensures Transcodes(From16To8(flags), Form16(), Form8())
  {
    forall ch: UTF32, rest: seq<UTF16>, room: nat | Scalar(ch)
      ensures TranscodesAt(From16To8(flags), Form16(), Form8(), ch, rest, room)
    {
      FrontOfEncoded16(flags, ch, rest);
      Put8(ch);
      hide Front16, Write8, BytesToWrite, Encode8, Clipped;
    }
  }

  lemma Transcodes32To8(flags: Flags)
    ensures Transcodes(From32To8(flags), Form32(), Form8())
  {
    forall ch: UTF32, rest: seq<UTF32>, room: nat | Scalar(ch)
      ensures TranscodesAt(From32To8(flags), Form32(), Form8(), ch, rest, room)
    {
      Put8(ch);
      hide Write8, BytesToWrite, Encode8, Clipped;
    }
  }

  lemma Transcodes32To16(flags: Flags)
    ensures Transcodes(From32To16(flags), Form32(), Form16())
  {
    forall ch: UTF32, rest: seq<UTF32>, room: nat | Scalar(ch)
      ensures TranscodesAt(From32To16(flags), Form32(), Form16(), ch, rest, room)
    {
      if ch > MAX_BMP {
        WritePairIsEncode16(ch);
      }
      hide WritePair;
    }
  }

}
