/** The promises of the converters: round trips, what a source was when a call succeeds, calls
    that continue one another, and the room the callers reserve. */
module UnicodeFacts {
  import opened Conversion
  import opened Converters
  import opened Transcoding
  import opened Utf

  // ---- Round trips ----

  /** There and back: with room enough both calls succeed, and the text is what it was. */
  lemma ThereAndBack<S(!new), T(!new)>(there: Stepper<S, T>, back: Stepper<T, S>, from: Form<S>, to: Form<T>,
                                       cs: seq<UTF32>, room: nat, roomBack: nat)
    requires Sound(there) && Sound(back) && Transcodes(there, from, to) && Transcodes(back, to, from) && Text(cs)
    requires |All(to, cs)| <= room && |All(from, cs)| <= roomBack
    ensures Convert(there, All(from, cs), room) == Outcome(ConversionOK, |All(from, cs)|, All(to, cs))
    ensures Convert(back, All(to, cs), roomBack) == Outcome(ConversionOK, |All(to, cs)|, All(from, cs))
  {
    TextConverts(there, from, to, cs, room);
    TextConverts(back, to, from, cs, roomBack);
    AllFit(to, cs, room);
    AllFit(from, cs, roomBack);
    assert cs[..|cs|] == cs;
  }

  lemma {:induction false} AllForm32(cs: seq<UTF32>)
    ensures All(Form32(), cs) == cs
  {
    if cs != [] {
      AllForm32(cs[1..]);
    }
  }

  /** UTF-32 to UTF-8 to UTF-32. */
  lemma RoundTrip32Via8(flags: Flags, flagsBack: Flags, cs: seq<UTF32>, room: nat, roomBack: nat)
    requires Text(cs) && |All(Form8(), cs)| <= room && |cs| <= roomBack
    ensures Sound(From32To8(flags)) && Sound(From8To32(flagsBack))
    ensures var a := Convert(From32To8(flags), cs, room);
            a == Outcome(ConversionOK, |cs|, All(Form8(), cs))
            && Convert(From8To32(flagsBack), a.written, roomBack) == Outcome(ConversionOK, |a.written|, cs)
  {
    Traits32To8(flags);
    Traits8To32(flagsBack);
    Transcodes32To8(flags);
    Transcodes8To32(flagsBack);
    AllForm32(cs);
    ThereAndBack(From32To8(flags), From8To32(flagsBack), Form32(), Form8(), cs, room, roomBack);
  }

  /** UTF-32 to UTF-16 to UTF-32. */
  lemma RoundTrip32Via16(flags: Flags, flagsBack: Flags, cs: seq<UTF32>, room: nat, roomBack: nat)
    requires Text(cs) && |All(Form16(), cs)| <= room && |cs| <= roomBack
    ensures Sound(From32To16(flags)) && Sound(From16To32(flagsBack))
    ensures var a := Convert(From32To16(flags), cs, room);
            a == Outcome(ConversionOK, |cs|, All(Form16(), cs))
            && Convert(From16To32(flagsBack), a.written, roomBack) == Outcome(ConversionOK, |a.written|, cs)
  {
    Traits32To16(flags);
    Traits16To32(flagsBack);
    Transcodes32To16(flags);
    Transcodes16To32(flagsBack);
    AllForm32(cs);
    ThereAndBack(From32To16(flags), From16To32(flagsBack), Form32(), Form16(), cs, room, roomBack);
  }

  /** UTF-16 to UTF-8 to UTF-16, and UTF-8 to UTF-16 to UTF-8. */
  lemma RoundTripBetween8And16(flags: Flags, flagsBack: Flags, cs: seq<UTF32>, room: nat, roomBack: nat)
    requires Text(cs) && |All(Form8(), cs)| <= room && |All(Form16(), cs)| <= roomBack
    ensures Sound(From16To8(flags)) && Sound(From8To16(flagsBack))
    ensures var utf8, utf16 := All(Form8(), cs), All(Form16(), cs);
            Convert(From16To8(flags), utf16, room) == Outcome(ConversionOK, |utf16|, utf8)
            && Convert(From8To16(flagsBack), utf8, roomBack) == Outcome(ConversionOK, |utf8|, utf16)
  {
    Traits16To8(flags);
    Traits8To16(flagsBack);
    Transcodes16To8(flags);
    Transcodes8To16(flagsBack);
    ThereAndBack(From16To8(flags), From8To16(flagsBack), Form16(), Form8(), cs, room, roomBack);
  }

  // ---- What a reader of UTF-8 accepts and writes ----

  /** After the check a character is a scalar value: the branches that replace surrogates or
      values over 10FFFF, or report them, are never taken, and the flag makes no difference. */
  lemma Reader8NeverPatches(flags: Flags, src: seq<UTF8>, room: nat)
    requires src != [] && Front8(src).Char?
    ensures var c := Front8(src);
            && Scalar(c.ch)
            && Step8To32(flags, src, room) == (if room == 0 then Stop(TargetExhausted) else Go(c.take, [c.ch], false))
            && Step8To16(flags, src, room)
                 == (if |Encode16(c.ch)| > room then Stop(TargetExhausted) else Go(c.take, Encode16(c.ch), false))
  {
    var c := Front8(src);
    Read8IsScalar(src[..c.take]);
    if c.ch > MAX_BMP {
      WritePairIsEncode16(c.ch);
    }
  }

  /** The pairs of bytes that the check should refuse and does not. */
  predicate HasLoose(p: seq<UTF8>) {
    exists i :: 0 <= i < |p| && LooseAt(p, i)
  }

  predicate LooseAt(p: seq<UTF8>, i: nat)
    requires i < |p|
  {
    i + 1 < |p| && (p[i] == 0xED || p[i] == 0xF4) && p[i + 1] < 0x80
  }

  /** Only the first byte of a legal sequence can be ED or F4. */
  lemma LegalIsLooseOnlyInFront(s: seq<UTF8>, rest: seq<UTF8>)
    requires 1 <= |s| <= 4 && TrailingBytes(s[0]) == |s| - 1 && IsLegal(s)
    ensures HasLoose(s + rest) <==> Loose(s) || HasLoose(rest)
  {
    var p := s + rest;
    if Loose(s) {
      assert LooseAt(p, 0);
    }
    if HasLoose(rest) {
      var i :| 0 <= i < |rest| && LooseAt(rest, i);
      var j := |s| + i;
      assert LooseAt(p, j);
    }
    if HasLoose(p) && !Loose(s) {
      var i :| 0 <= i < |p| && LooseAt(p, i);
      if i >= |s| {
        var j := i - |s|;
        assert LooseAt(rest, j);
      }
    }
  }

  /** The characters `cs` are scalar values, and `p` is their UTF-8 form unless an ED or F4 in it
      is followed by a byte below 80. */
  ghost predicate ReadFrom(p: seq<UTF8>, cs: seq<UTF32>) {
    Text(cs) && (p == All(Form8(), cs) <==> !HasLoose(p))
  }

  lemma OneCharacterMore(src: seq<UTF8>, ch: UTF32, take: nat, p: seq<UTF8>, cs: seq<UTF32>)
    requires src != [] && Front8(src) == Char(ch, take) && ReadFrom(p, cs)
    ensures take <= |src| && ReadFrom(src[..take] + p, [ch] + cs)
  {
    var s := src[..take];
    Encode8OfRead8(s);
    LegalIsLooseOnlyInFront(s, p);
    var all := [ch] + cs;
    assert all[1..] == cs;
    assert All(Form8(), all) == Encode8(ch) + All(Form8(), cs);
    if HasLoose(s + p) {
      TextIsNotLoose(all);
    }
  }

  /** What the reader of UTF-8 consumed and what it wrote. */
  lemma Utf8IsReadFaithfully(flags: Flags, src: seq<UTF8>, room: nat)
    ensures Sound(From8To32(flags))
    ensures var o := Convert(From8To32(flags), src, room); ReadFrom(src[..o.consumed], o.written)
  {
    var step, related := From8To32(flags), (p, cs) => ReadFrom(p, cs);
    Traits8To32(flags);
    assert [] == All(Form8(), []);
    forall s: seq<UTF8>, r: nat, p, cs | s != [] ensures KeepsAt(step, related, s, r, p, cs) {
      if step(s, r).Go? && ReadFrom(p, cs) {
        Reader8NeverPatches(flags, s, r);
        OneCharacterMore(s, Front8(s).ch, Front8(s).take, p, cs);
      }
      hide ReadFrom, Front8;
    }
    StopsBetweenCharacters(step, related, src, room);
  }

  /** The UTF-8 form of a text has no such pair. */
  lemma {:induction false} TextIsNotLoose(cs: seq<UTF32>)
    requires Text(cs)
    ensures !HasLoose(All(Form8(), cs))
  {
    if cs != [] {
      var e := Encode8(cs[0]);
      TextIsNotLoose(cs[1..]);
      Encode8IsWellFormed(cs[0]);
      LegalIsWellFormedOrLoose(e);
      LegalIsLooseOnlyInFront(e, All(Form8(), cs[1..]));
    }
  }

  /** The same of the reader that writes UTF-16: what it writes is the UTF-16 form of a text. */
  lemma Utf8ToUtf16IsFaithful(flags: Flags, src: seq<UTF8>, room: nat)
    ensures Sound(From8To16(flags))
    ensures var o := Convert(From8To16(flags), src, room);
            exists cs :: ReadFrom(src[..o.consumed], cs) && o.written == All(Form16(), cs)
  {
    var step, related := From8To16(flags), (p, w) => exists cs :: ReadFrom(p, cs) && w == All(Form16(), cs);
    Traits8To16(flags);
    assert ReadFrom([], []) && All(Form16(), []) == [];
    forall s: seq<UTF8>, r: nat, p, w | s != [] ensures KeepsAt(step, related, s, r, p, w) {
      if step(s, r).Go? && related(p, w) {
        var cs :| ReadFrom(p, cs) && w == All(Form16(), cs);
        var c := Front8(s);
        Reader8NeverPatches(flags, s, r);
        OneCharacterMore(s, c.ch, c.take, p, cs);
        AllOfMore(Form16(), c.ch, cs);
        assert step(s, r).put + w == All(Form16(), [c.ch] + cs);
      }
      hide ReadFrom, Front8;
    }
    StopsBetweenCharacters(step, related, src, room);
  }

  lemma AllOfMore<T>(form: Form<T>, ch: UTF32, cs: seq<UTF32>)
    ensures All(form, [ch] + cs) == form(ch) + All(form, cs)
  {
    assert ([ch] + cs)[1..] == cs;
  }

  /** A byte string is the UTF-8 form of a text exactly when the reader reports success and no ED
      or F4 in it is followed by a byte below 80. */
  lemma Utf8IsAcceptedIffText(flags: Flags, src: seq<UTF8>)
    ensures Sound(From8To32(flags))
    ensures Convert(From8To32(flags), src, |src|).result == ConversionOK && !HasLoose(src)
            <==> exists cs :: Text(cs) && src == All(Form8(), cs)
  {
    var step := From8To32(flags);
    Traits8To32(flags);
    var o := Convert(step, src, |src|);
    Utf8IsReadFaithfully(flags, src, |src|);
    OkIffAllConsumed(step, src, |src|);
    if o.result == ConversionOK && !HasLoose(src) {
      assert src[..o.consumed] == src;
      assert Text(o.written) && src == All(Form8(), o.written);
    }
    if cs :| Text(cs) && src == All(Form8(), cs) {
      TextIsNotLoose(cs);
      UnitsPerCharacter8(cs);
      RoundTrip32Via8(flags, flags, cs, |src|, |src|);
    }
  }

  lemma {:induction false} UnitsPerCharacter8(cs: seq<UTF32>)
    requires Text(cs)
    ensures |cs| <= |All(Form8(), cs)| <= 4 * |cs|
  {
    if cs != [] {
      UnitsPerCharacter8(cs[1..]);
    }
  }

  /** The looseness is real: these three bytes are no character, yet they are read as U+C040. */
  lemma LooseBytesAreAccepted(flags: Flags)
    ensures Sound(From8To32(flags))
    ensures Convert(From8To32(flags), [0xED, 0x41, 0x80], 3) == Outcome(ConversionOK, 3, [0xC040])
    ensures !WellFormed8([0xED, 0x41, 0x80])
  {
    Traits8To32(flags);
    var src: seq<UTF8> := [0xED, 0x41, 0x80];
    assert src[..3] == src;
    assert Front8(src) == Char(0xC040, 3);
    Reader8NeverPatches(flags, src, 3);
    Unfold(From8To32(flags), src, 3);
    assert src[3..] == [];
  }

  // ---- What a strict reader of UTF-16 accepts ----

  lemma StrictFrontWasEncoded(src: seq<UTF16>)
    requires src != [] && Front16(Strict, src).Char?
    ensures var c := Front16(Strict, src); Scalar(c.ch) && c.take <= |src| && src[..c.take] == Encode16(c.ch)
  {
    if High(src[0]) {
      PairWasEncoded(src[0], src[1]);
    }
  }

  /** `p` is the UTF-16 form and `w` the form `to` of one text. */
  ghost predicate SameText<T(!new)>(to: Form<T>, p: seq<UTF16>, w: seq<T>) {
    exists cs :: Text(cs) && p == All(Form16(), cs) && w == All(to, cs)
  }

  lemma OneMoreOfText<T(!new)>(to: Form<T>, src: seq<UTF16>, p: seq<UTF16>, w: seq<T>)
    requires src != [] && Front16(Strict, src).Char? && SameText(to, p, w)
    ensures var c := Front16(Strict, src); c.take <= |src| && SameText(to, src[..c.take] + p, to(c.ch) + w)
  {
    var c := Front16(Strict, src);
    var cs :| Text(cs) && p == All(Form16(), cs) && w == All(to, cs);
    StrictFrontWasEncoded(src);
    AllOfMore(Form16(), c.ch, cs);
    AllOfMore(to, c.ch, cs);
    assert Text([c.ch] + cs);
  }

  /** A strict call stops between characters, and what it wrote is the form of the text whose
      UTF-16 form it consumed. */
  lemma Utf16IsReadFaithfully(src: seq<UTF16>, room: nat)
    ensures Sound(From16To32(Strict)) && Sound(From16To8(Strict))
    ensures var o := Convert(From16To32(Strict), src, room); SameText(Form32(), src[..o.consumed], o.written)
    ensures var o := Convert(From16To8(Strict), src, room); SameText(Form8(), src[..o.consumed], o.written)
  {
    Traits16To32(Strict);
    Traits16To8(Strict);
    NoText(Form32());
    NoText(Form8());
    var to32, to8 := (p, w) => SameText(Form32(), p, w), (p, w) => SameText(Form8(), p, w);
    forall s: seq<UTF16>, r: nat, p, w | s != [] ensures KeepsAt(From16To32(Strict), to32, s, r, p, w) {
      if Front16(Strict, s).Char? && SameText(Form32(), p, w) {
        OneMoreOfText(Form32(), s, p, w);
      }
      hide SameText, Front16;
    }
    forall s: seq<UTF16>, r: nat, p, w | s != [] ensures KeepsAt(From16To8(Strict), to8, s, r, p, w) {
      if Front16(Strict, s).Char? && SameText(Form8(), p, w) {
        OneMoreOfText(Form8(), s, p, w);
        StrictFrontWasEncoded(s);
        Put8(Front16(Strict, s).ch);
      }
      hide SameText, Front16, Write8, Encode8;
    }
    StopsBetweenCharacters(From16To32(Strict), to32, src, room);
    StopsBetweenCharacters(From16To8(Strict), to8, src, room);
  }

  lemma NoText<T(!new)>(to: Form<T>)
    ensures SameText(to, [], [])
  {
    assert Text([]) && All(Form16(), []) == [] && All(to, []) == [];
  }

  /** A unit string is the UTF-16 form of a text exactly when the strict reader reports success. */
  lemma Utf16IsAcceptedIffText(src: seq<UTF16>)
    ensures Sound(From16To32(Strict))
    ensures Convert(From16To32(Strict), src, |src|).result == ConversionOK
            <==> exists cs :: Text(cs) && src == All(Form16(), cs)
  {
    var step := From16To32(Strict);
    Traits16To32(Strict);
    var o := Convert(step, src, |src|);
    Utf16IsReadFaithfully(src, |src|);
    OkIffAllConsumed(step, src, |src|);
    assert o.consumed == |src| ==> src[..o.consumed] == src;
    if cs :| Text(cs) && src == All(Form16(), cs) {
      UnitsPerCharacter16(cs);
      RoundTrip32Via16(Strict, Strict, cs, |src|, |src|);
    }
  }

  lemma {:induction false} UnitsPerCharacter16(cs: seq<UTF32>)
    requires Text(cs)
    ensures |cs| <= |All(Form16(), cs)|
  {
    if cs != [] {
      UnitsPerCharacter16(cs[1..]);
    }
  }
}
