/** What the two converters from UTF-32 do with any values: where they stop, what they write, and what
    they report, for texts and for values that no text has. */
module Utf32Writers {
  import opened Conversion
  import opened Converters
  import opened Transcoding
  import opened UnicodeCalls
  import opened Utf

  /** A converter that takes one value after the other. `least` is the room it asks for before it looks
      at a value, `stops` the values it does not take, `to` what it writes for the others, and `flags`
      says whether it reports a value that is too large. */
  ghost predicate Writer<T(!new)>(step: Stepper<UTF32, T>, least: nat, stops: bool, to: Form<T>, flags: bool) {
    forall src: seq<UTF32>, room: nat :: src != [] ==> WritesAt(step, least, stops, to, flags, src, room)
  }

  ghost predicate WritesAt<T(!new)>(step: Stepper<UTF32, T>, least: nat, stops: bool, to: Form<T>, flags: bool,
                                    src: seq<UTF32>, room: nat)
    requires src != []
  {
    var ch := src[0];
    step(src, room) == if room < least then Stop(TargetExhausted)
                       else if stops && Surrogate(ch) then Stop(SourceIllegal)
                       else if |to(ch)| > room then Stop(TargetExhausted)
                       else Go(1, to(ch), flags && ch > MAX_LEGAL)
  }

  predicate HasSurrogate(cs: seq<UTF32>) {
    exists i :: 0 <= i < |cs| && Surrogate(cs[i])
  }

  /** Why a call ended in front of the value `ch` with `left` units of room. */
  ghost predicate EndedAt<T(!new)>(result: Result, ch: UTF32, left: int, least: nat, stops: bool, to: Form<T>) {
    if left < least then result == TargetExhausted
    else if stops && Surrogate(ch) then result == SourceIllegal
    else result == TargetExhausted && |to(ch)| > left
  }

  /** What a call did: what it wrote for the values it took, none of which stops it, and why it ended. */
  ghost predicate Wrote<T(!new)>(o: Outcome<T>, src: seq<UTF32>, room: nat, least: nat, stops: bool, to: Form<T>, flags: bool) {
    && o.consumed <= |src| && o.written == All(to, src[..o.consumed])
    && (stops ==> !HasSurrogate(src[..o.consumed]))
    && (o.consumed == |src| ==> o.result == if flags && HasTooLarge(src) then SourceIllegal else ConversionOK)
    && (o.consumed < |src| ==> EndedAt(o.result, src[o.consumed], room - |o.written|, least, stops, to))
  }

  lemma HasOfMore(ch: UTF32, cs: seq<UTF32>)
    ensures HasSurrogate([ch] + cs) <==> Surrogate(ch) || HasSurrogate(cs)
    ensures HasTooLarge([ch] + cs) <==> ch > MAX_LEGAL || HasTooLarge(cs)
  {
    var all := [ch] + cs;
    assert all[0] == ch;
    assert forall i :: 0 <= i < |cs| ==> all[i + 1] == cs[i];
  }

  lemma WroteMore<T(!new)>(o: Outcome<T>, src: seq<UTF32>, room: nat, least: nat, stops: bool, to: Form<T>, flags: bool)
    requires src != [] && |to(src[0])| <= room && !(stops && Surrogate(src[0]))
    requires Wrote(o, src[1..], room - |to(src[0])|, least, stops, to, flags)
    ensures Wrote(o.After(1, to(src[0]), flags && src[0] > MAX_LEGAL), src, room, least, stops, to, flags)
  {
    var ch, rest := src[0], src[1..];
    var p := rest[..o.consumed];
    assert src[..1 + o.consumed] == [ch] + p && src == [ch] + rest;
    HasOfMore(ch, p);
    HasOfMore(ch, rest);
    assert ([ch] + p)[1..] == p;
    hide HasSurrogate, HasTooLarge;
    assert o.consumed < |rest| ==> o.result != ConversionOK;
  }

  lemma WroteNothing<T(!new)>(src: seq<UTF32>, room: nat, least: nat, stops: bool, to: Form<T>, flags: bool, result: Result)
    requires if src == [] then result == ConversionOK else EndedAt(result, src[0], room, least, stops, to)
    ensures Wrote(Outcome(result, 0, []), src, room, least, stops, to, flags)
  {
    assert src[..0] == [];
  }

  lemma {:induction false} WriterWrites<T(!new)>(step: Stepper<UTF32, T>, least: nat, stops: bool, to: Form<T>, flags: bool,
                                                 src: seq<UTF32>, room: nat)
    requires Sound(step) && Writer(step, least, stops, to, flags)
    ensures Wrote(Convert(step, src, room), src, room, least, stops, to, flags)
    decreases |src|
  {
    hide Convert, Met, Sound, Wrote;
    if src != [] {
      assert WritesAt(step, least, stops, to, flags, src, room);
    }
    hide Writer;
    if src == [] || step(src, room).Stop? {
      Stopped(step, src, room);
      WroteNothing(src, room, least, stops, to, flags, Convert(step, src, room).result);
    } else {
      Unfold(step, src, room);
      WriterWrites(step, least, stops, to, flags, src[1..], room - |to(src[0])|);
      WroteMore(Convert(step, src[1..], room - |to(src[0])|), src, room, least, stops, to, flags);
    }
  }

  // ---- The forms ----

  /** UTF-8 with U+FFFD for a value that is too large. A surrogate has three bytes of its own. */
  function Clipped8(): Form<UTF8> {
    (ch: UTF32) => if ch > MAX_LEGAL then [0xEF, 0xBF, 0xBD] else Encode8(ch)
  }

  /** UTF-16 with U+FFFD for whatever is no scalar value. */
  function Patched16(): Form<UTF16> {
    (ch: UTF32) => if Scalar(ch) then Encode16(ch) else [0xFFFD]
  }

  /** UTF-16 without the values that are too large. */
  function Dropped16(): Form<UTF16> {
    (ch: UTF32) => if ch > MAX_LEGAL then [] else Encode16(ch)
  }

  lemma Writes8(flags: Flags)
    ensures Sound(From32To8(flags)) && Needs(From32To8(flags), 4)
    ensures Writer(From32To8(flags), 0, flags.Strict?, Clipped8(), true)
  {
    Traits32To8(flags);
    forall src: seq<UTF32>, room: nat | src != []
      ensures WritesAt(From32To8(flags), 0, flags.Strict?, Clipped8(), true, src, room)
    {
      Writes8At(flags, src, room);
      hide *;
    }
  }

  lemma Writes8At(flags: Flags, src: seq<UTF32>, room: nat)
    requires src != []
    ensures WritesAt(From32To8(flags), 0, flags.Strict?, Clipped8(), true, src, room)
  {
    Write8IsEncode8(Clipped(src[0]));
    assert Encode8(REPLACEMENT) == [0xEF, 0xBF, 0xBD];
    assert BytesToWrite(Clipped(src[0])) == |Encode8(Clipped(src[0]))|;
    hide Encode8, Write8;
  }

  lemma Writes16(flags: Flags)
    ensures Sound(From32To16(flags)) && Needs(From32To16(flags), 2)
    ensures Writer(From32To16(flags), 1, flags.Strict?, if flags.Strict? then Dropped16() else Patched16(), flags.Strict?)
  {
    Traits32To16(flags);
    var to := if flags.Strict? then Dropped16() else Patched16();
    forall src: seq<UTF32>, room: nat | src != []
      ensures WritesAt(From32To16(flags), 1, flags.Strict?, to, flags.Strict?, src, room)
    {
      if MAX_BMP < src[0] <= MAX_LEGAL {
        WritePairIsEncode16(src[0]);
      }
    }
  }

  // ---- To UTF-8 ----

  /** A strict call takes no surrogate and stops in front of the first with sourceIllegal; U+FFFD
      stands for values that are too large, and a call that took one reports it at the end. */
  lemma StrictToUtf8(src: seq<UTF32>, room: nat)
    ensures Sound(From32To8(Strict))
    ensures var o := Convert(From32To8(Strict), src, room);
            && o.written == All(Clipped8(), src[..o.consumed]) && !HasSurrogate(src[..o.consumed])
            && (o.consumed == |src| ==> o.result == if HasTooLarge(src) then SourceIllegal else ConversionOK)
            && (o.consumed < |src| ==>
                  if Surrogate(src[o.consumed]) then o.result == SourceIllegal
                  else o.result == TargetExhausted && |Clipped8()(src[o.consumed])| > room - |o.written|)
    ensures 4 * |src| <= room ==>
              var o := Convert(From32To8(Strict), src, room); o.consumed == |src| || Surrogate(src[o.consumed])
  {
    Writes8(Strict);
    WriterWrites(From32To8(Strict), 0, true, Clipped8(), true, src, room);
    if 4 * |src| <= room {
      NeverExhausted(From32To8(Strict), 4, src, room);
    }
    hide Convert, Sound, Needs, Writer;
  }

  /** So with room enough it accepts exactly the texts. */
  lemma StrictToUtf8IffText(src: seq<UTF32>, room: nat)
    requires 4 * |src| <= room
    ensures Sound(From32To8(Strict)) && (Convert(From32To8(Strict), src, room).result == ConversionOK <==> Text(src))
  {
    StrictToUtf8(src, room);
    TextIff(src);
    var o := Convert(From32To8(Strict), src, room);
    hide Convert, Sound, HasSurrogate, HasTooLarge;
    if o.consumed == |src| {
      assert src[..o.consumed] == src;
    } else {
      FoundAt(src, o.consumed);
    }
  }

  lemma TextIff(cs: seq<UTF32>)
    ensures Text(cs) <==> !HasSurrogate(cs) && !HasTooLarge(cs)
  {
    if !Text(cs) {
      var i :| 0 <= i < |cs| && !Scalar(cs[i]);
      assert Surrogate(cs[i]) || cs[i] > MAX_LEGAL;
    }
  }

  lemma FoundAt(cs: seq<UTF32>, i: nat)
    requires i < |cs| && Surrogate(cs[i])
    ensures HasSurrogate(cs)
  {
  }

  /** A lenient call takes every value, and writes a surrogate as three bytes from ED on, which are not
      UTF-8; the flag makes no difference for values that are too large. */
  lemma LenientToUtf8(src: seq<UTF32>, room: nat)
    ensures Sound(From32To8(Lenient))
    ensures var o := Convert(From32To8(Lenient), src, room);
            && o.written == All(Clipped8(), src[..o.consumed])
            && (o.consumed == |src| ==> o.result == if HasTooLarge(src) then SourceIllegal else ConversionOK)
            && (o.consumed < |src| ==> o.result == TargetExhausted && |Clipped8()(src[o.consumed])| > room - |o.written|)
    ensures forall ch: UTF32 :: Surrogate(ch) ==>
              var w := Clipped8()(ch); w == [0xED, 0xA0 + (ch - 0xD800) / 0x40, 0x80 + ch % 0x40] && !WellFormed8(w)
  {
    Writes8(Lenient);
    WriterWrites(From32To8(Lenient), 0, false, Clipped8(), true, src, room);
    forall ch: UTF32 | Surrogate(ch)
      ensures var w := Clipped8()(ch); w == [0xED, 0xA0 + (ch - 0xD800) / 0x40, 0x80 + ch % 0x40] && !WellFormed8(w)
    {
      SurrogateBytes(ch);
    }
    hide Convert, Sound, Needs, Writer;
  }

  lemma SurrogateBytes(ch: UTF32)
    requires Surrogate(ch)
    ensures Encode8(ch) == [0xED, 0xA0 + (ch - 0xD800) / 0x40, 0x80 + ch % 0x40] && !WellFormed8(Encode8(ch))
  {
    var high, low := (ch - 0xD800) / 0x40, ch % 0x40;
    assert ch == 0xD800 + 0x40 * high + low && 0 <= high < 0x20;
    assert ch / 0x1000 == 0xD && ch / 0x40 == 0x360 + high;
  }

  // ---- To UTF-16 ----

  /** A strict call takes no surrogate and stops in front of the first, if any room is left to look at
      it; values that are too large are left out and reported at the end. */
  lemma StrictToUtf16(src: seq<UTF32>, room: nat)
    ensures Sound(From32To16(Strict))
    ensures var o := Convert(From32To16(Strict), src, room);
            && o.written == All(Dropped16(), src[..o.consumed]) && !HasSurrogate(src[..o.consumed])
            && (o.consumed == |src| ==> o.result == if HasTooLarge(src) then SourceIllegal else ConversionOK)
            && (o.consumed < |src| ==>
                  if room == |o.written| then o.result == TargetExhausted
                  else if Surrogate(src[o.consumed]) then o.result == SourceIllegal
                  else o.result == TargetExhausted && |Dropped16()(src[o.consumed])| > room - |o.written|)
    ensures 2 * |src| <= room ==>
              var o := Convert(From32To16(Strict), src, room); o.consumed == |src| || Surrogate(src[o.consumed])
  {
    Writes16(Strict);
    WriterWrites(From32To16(Strict), 1, true, Dropped16(), true, src, room);
    if 2 * |src| <= room {
      NeverExhausted(From32To16(Strict), 2, src, room);
    }
    hide Convert, Sound, Needs, Writer;
  }

  lemma StrictToUtf16IffText(src: seq<UTF32>, room: nat)
    requires 2 * |src| <= room
    ensures Sound(From32To16(Strict)) && (Convert(From32To16(Strict), src, room).result == ConversionOK <==> Text(src))
  {
    StrictToUtf16(src, room);
    TextIff(src);
    var o := Convert(From32To16(Strict), src, room);
    hide Convert, Sound, HasSurrogate, HasTooLarge;
    if o.consumed == |src| {
      assert src[..o.consumed] == src;
    } else {
      FoundAt(src, o.consumed);
    }
  }

  /** A lenient call takes every value, writes U+FFFD for whatever is no scalar value, and reports
      nothing but a full target. */
  lemma LenientToUtf16(src: seq<UTF32>, room: nat)
    ensures Sound(From32To16(Lenient))
    ensures var o := Convert(From32To16(Lenient), src, room);
            && o.written == All(Patched16(), src[..o.consumed])
            && (o.consumed == |src| ==> o.result == ConversionOK)
            && (o.consumed < |src| ==> o.result == TargetExhausted && |Patched16()(src[o.consumed])| > room - |o.written|)
  {
    Writes16(Lenient);
    WriterWrites(From32To16(Lenient), 1, false, Patched16(), false, src, room);
    hide Convert, Sound, Needs, Writer;
  }
}
