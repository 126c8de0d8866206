/** utf8_wchar and wchar_utf8: a buffer for the worst case, one lenient call, and the buffer cut to
    what was written. The width of wchar_t decides which of the two converters is called. */
module Utf8Wchar {
  import opened Conversion
  import opened Converters
  import opened ConvertUtf
  import opened Transcoding
  import opened UnicodeCalls
  import opened UnicodeFacts
  import opened Utf

  method Utf8Wchar32(utf8: seq<UTF8>) returns (ret: Result, wide: seq<UTF32>)
    ensures Sound(From8To32(Lenient))
    ensures var o := Convert(From8To32(Lenient), utf8, |utf8|);
            ret == o.result && wide == o.written && ReadFrom(utf8[..o.consumed], wide)
    ensures ret != TargetExhausted
  {
    var buffer := new UTF32[|utf8|];
    var s, t;
    ret, s, t := ConvertUTF8ToUTF32(utf8, buffer, 0, buffer.Length, Lenient);
    wide := buffer[..t];
    BuffersSuffice(Lenient, utf8, [], [], |utf8|);
    Utf8IsReadFaithfully(Lenient, utf8, |utf8|);
  }

  method Utf8Wchar16(utf8: seq<UTF8>) returns (ret: Result, wide: seq<UTF16>)
    ensures Sound(From8To16(Lenient))
    ensures var o := Convert(From8To16(Lenient), utf8, |utf8|); ret == o.result && wide == o.written
    ensures ret != TargetExhausted
  {
    var buffer := new UTF16[|utf8|];
    var s, t;
    ret, s, t := ConvertUTF8ToUTF16(utf8, buffer, 0, buffer.Length, Lenient);
    wide := buffer[..t];
    BuffersSuffice(Lenient, utf8, [], [], |utf8|);
  }

  method Wchar32Utf8(wide: seq<UTF32>) returns (ret: Result, utf8: seq<UTF8>)
    ensures Sound(From32To8(Lenient))
    ensures var o := Convert(From32To8(Lenient), wide, 6 * |wide|); ret == o.result && utf8 == o.written
    ensures ret != TargetExhausted
  {
    var buffer := new UTF8[|wide| * 6];
    BuffersSuffice(Lenient, [], [], wide, 6 * |wide|);
    if wide == [] {
      return ConversionOK, [];
    }
    var s, t;
    ret, s, t := ConvertUTF32ToUTF8(wide, buffer, 0, buffer.Length, Lenient);
    utf8 := buffer[..t];
  }

  method Wchar16Utf8(wide: seq<UTF16>) returns (ret: Result, utf8: seq<UTF8>)
    ensures Sound(From16To8(Lenient))
    ensures var o := Convert(From16To8(Lenient), wide, 6 * |wide|); ret == o.result && utf8 == o.written
    ensures ret != TargetExhausted
  {
    var buffer := new UTF8[|wide| * 6];
    BuffersSuffice(Lenient, [], wide, [], 6 * |wide|);
    if wide == [] {
      return ConversionOK, [];
    }
    var s, t;
    ret, s, t := ConvertUTF16ToUTF8(wide, buffer, 0, buffer.Length, Lenient);
    utf8 := buffer[..t];
  }

  /** A wide string survives wchar_utf8 and utf8_wchar exactly when it holds scalar values only: the
      lenient writer lets surrogates through, which the reader then refuses, and replaces values
      over 10FFFF. */
  lemma WideStringSurvivesIffText(cs: seq<UTF32>)
    ensures Sound(From32To8(Lenient)) && Sound(From8To32(Lenient))
    ensures var utf8 := Convert(From32To8(Lenient), cs, 6 * |cs|).written;
            Convert(From8To32(Lenient), utf8, |utf8|).written == cs <==> Text(cs)
  {
    Traits32To8(Lenient);
    Traits8To32(Lenient);
    var utf8 := Convert(From32To8(Lenient), cs, 6 * |cs|).written;
    Utf8IsReadFaithfully(Lenient, utf8, |utf8|);
    if Text(cs) {
      UnitsPerCharacter8(cs);
      RoundTrip32Via8(Lenient, Lenient, cs, 6 * |cs|, |All(Form8(), cs)|);
    }
  }
}
