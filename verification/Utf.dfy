/** Single characters in the three Unicode encoding forms: the definitions of section 3.9 of the
    Unicode Standard and section 3 of RFC 3629, and what the converters do with one character.
    Units are numbers and the definitions use quotients and remainders; the converters themselves
    shift and mask, and UtfBits relates the two. */
module Utf {
  type UTF32 = x: int | 0 <= x < 0x1_0000_0000
  type UTF16 = x: int | 0 <= x < 0x1_0000
  type UTF8 = x: int | 0 <= x < 0x100

  const MAX_BMP := 0xFFFF
  const MAX_LEGAL := 0x10FFFF
  const REPLACEMENT := 0xFFFD

  /** A Unicode scalar value. */
  predicate Scalar(ch: int) {
    0 <= ch < 0xD800 || 0xDFFF < ch <= MAX_LEGAL
  }

  predicate Surrogate(ch: int) {
    0xD800 <= ch <= 0xDFFF
  }

  // ---- Reference definitions ----

  /** The UTF-8 form, by the bit distribution of the standard. */
  function Encode8(ch: int): (s: seq<UTF8>)
    requires 0 <= ch <= MAX_LEGAL
    ensures 1 <= |s| <= 4
  {
    if ch < 0x80 then [ch]
    else if ch < 0x800 then [0xC0 + ch / 0x40, 0x80 + ch % 0x40]
    else if ch < 0x10000 then [0xE0 + ch / 0x1000, 0x80 + ch / 0x40 % 0x40, 0x80 + ch % 0x40]
    else [0xF0 + ch / 0x40000, 0x80 + ch / 0x1000 % 0x40, 0x80 + ch / 0x40 % 0x40, 0x80 + ch % 0x40]
  }

  /** The UTF-16 form. */
  function Encode16(ch: int): (s: seq<UTF16>)
    requires 0 <= ch <= MAX_LEGAL
    ensures 1 <= |s| <= 2
  {
    if ch <= MAX_BMP then [ch] else [0xD800 + (ch - 0x10000) / 0x400, 0xDC00 + (ch - 0x10000) % 0x400]
  }

  predicate Tail(b: UTF8) {
    0x80 <= b <= 0xBF
  }

  /** Table 3-7 of the standard: well-formed UTF-8 byte sequences of one character. */
  predicate WellFormed8(s: seq<UTF8>) {
    if |s| == 1 then s[0] <= 0x7F
    else if |s| == 2 then 0xC2 <= s[0] <= 0xDF && Tail(s[1])
    else if |s| == 3 then
      && Tail(s[2])
      && ((s[0] == 0xE0 && 0xA0 <= s[1] <= 0xBF) || (0xE1 <= s[0] <= 0xEC && Tail(s[1]))
          || (s[0] == 0xED && 0x80 <= s[1] <= 0x9F) || (0xEE <= s[0] <= 0xEF && Tail(s[1])))
    else
      && |s| == 4 && Tail(s[2]) && Tail(s[3])
      && ((s[0] == 0xF0 && 0x90 <= s[1] <= 0xBF) || (0xF1 <= s[0] <= 0xF3 && Tail(s[1]))
          || (s[0] == 0xF4 && 0x80 <= s[1] <= 0x8F))
  }

  // ---- The program's tables and checks ----

  /** trailingBytesForUTF8. */
  function TrailingBytes(b: UTF8): (n: nat)
    ensures n <= 5
  {
    if b < 0xC0 then 0 else if b < 0xE0 then 1 else if b < 0xF0 then 2 else if b < 0xF8 then 3
    else if b < 0xFC then 4 else 5
  }

  /** offsetsFromUTF8, of which the last two are never used. */
  function Offset(extra: nat): int
    requires extra <= 3
  {
    if extra == 0 then 0 else if extra == 1 then 0x00003080 else if extra == 2 then 0x000E2080 else 0x03C82080
  }

  /** firstByteMark. */
  function FirstByteMark(n: nat): int
    requires 1 <= n <= 4
  {
    if n == 1 then 0x00 else if n == 2 then 0xC0 else if n == 3 then 0xE0 else 0xF0
  }

  /** isLegalUTF8: the cases fall through from the longest to the shortest. */
  predicate IsLegal(s: seq<UTF8>) {
    && 1 <= |s| <= 4
    && (|s| == 4 ==> !(s[3] < 0x80 || s[3] > 0xBF))
    && (|s| >= 3 ==> !(s[2] < 0x80 || s[2] > 0xBF))
    && (|s| >= 2 ==>
          && !(s[1] > 0xBF)
          && (if s[0] == 0xE0 then !(s[1] < 0xA0)
              else if s[0] == 0xED then !(s[1] > 0x9F)
              else if s[0] == 0xF0 then !(s[1] < 0x90)
              else if s[0] == 0xF4 then !(s[1] > 0x8F)
              else !(s[1] < 0x80)))
    && !(s[0] >= 0x80 && s[0] < 0xC2)
    && !(s[0] > 0xF4)
  }

  /** The additive reading of a character: the bytes are added up unmasked, each sum shifted by
      six, and one constant taken off at the end removes all the marks. */
  function Read8(s: seq<UTF8>): int
    requires 1 <= |s| <= 4
  {
    var a := s[0] as int;
    var b := if |s| == 1 then a else a * 0x40 + s[1];
    var c := if |s| <= 2 then b else b * 0x40 + s[2];
    var d := if |s| <= 3 then c else c * 0x40 + s[3];
    d - Offset(|s| - 1)
  }

  /** bytesToWrite for a character that is not too large. */
  function BytesToWrite(ch: int): (n: nat)
    ensures 1 <= n <= 4
  {
    if ch < 0x80 then 1 else if ch < 0x800 then 2 else if ch < 0x10000 then 3 else 4
  }

  /** A trailing byte: (ch | byteMark) & byteMask. */
  function Mark(ch: int): UTF8 {
    0x80 + ch % 0x40
  }

  /** The bytes of a character, written back to front in the program: each takes six bits off. */
  function Write8(ch: int, n: nat): (s: seq<UTF8>)
    requires 0 <= ch <= MAX_LEGAL && n == BytesToWrite(ch)
    ensures |s| == n
  {
    if n == 1 then [ch + FirstByteMark(1)]
    else if n == 2 then [ch / 0x40 + FirstByteMark(2), Mark(ch)]
    else if n == 3 then [ch / 0x40 / 0x40 + FirstByteMark(3), Mark(ch / 0x40), Mark(ch)]
    else [ch / 0x40 / 0x40 / 0x40 + FirstByteMark(4), Mark(ch / 0x40 / 0x40), Mark(ch / 0x40), Mark(ch)]
  }

  /** The surrogate pair of a supplementary character. */
  function WritePair(ch: int): (s: seq<UTF16>)
    requires MAX_BMP < ch <= MAX_LEGAL
    ensures |s| == 2
  {
    var v := ch - 0x10000;
    [v / 0x400 + 0xD800, v % 0x400 + 0xDC00]
  }

  function ReadPair(high: UTF16, low: UTF16): int {
    (high - 0xD800) * 0x400 + (low - 0xDC00) + 0x10000
  }

  predicate High(u: UTF16) {
    0xD800 <= u <= 0xDBFF
  }

  predicate LowHalf(u: UTF16) {
    0xDC00 <= u <= 0xDFFF
  }

  // ---- What they compute ----

  /** The six-bit steps of the program write the form of the standard. */
  lemma Write8IsEncode8(ch: int)
    requires 0 <= ch <= MAX_LEGAL
    ensures Write8(ch, BytesToWrite(ch)) == Encode8(ch)
  {
  }

  /** A character's bytes are read back. */
  lemma Read8OfEncode8(ch: int)
    requires 0 <= ch <= MAX_LEGAL
    ensures Read8(Encode8(ch)) == ch
  {
    var a := ch / 0x40;
    assert ch == a * 0x40 + ch % 0x40;
    assert ch / 0x1000 == a / 0x40 && ch / 0x40000 == a / 0x1000;
    assert a == a / 0x40 * 0x40 + a % 0x40;
    assert a / 0x40 == a / 0x1000 * 0x40 + a / 0x40 % 0x40;
  }

  /** A scalar value's bytes are well-formed, and the first one announces their number. */
  lemma Encode8IsWellFormed(ch: int)
    requires Scalar(ch)
    ensures WellFormed8(Encode8(ch)) && TrailingBytes(Encode8(ch)[0]) == |Encode8(ch)| - 1
  {
    if ch < 0x80 {
    } else if ch < 0x800 {
      assert 0x02 <= ch / 0x40 < 0x20;
    } else if ch < 0x10000 {
      ThreeBytesAreWellFormed(ch);
    } else {
      FourBytesAreWellFormed(ch);
    }
  }

  lemma ThreeBytesAreWellFormed(ch: int)
    requires Scalar(ch) && 0x800 <= ch < 0x10000
    ensures WellFormed8(Encode8(ch)) && TrailingBytes(Encode8(ch)[0]) == |Encode8(ch)| - 1
  {
    var high, low := ch / 0x1000, ch / 0x40 % 0x40;
    assert ch == 0x1000 * high + 0x40 * low + ch % 0x40;
    assert high == 0x0 ==> low >= 0x20;
    assert high == 0xD ==> low < 0x20;
  }

  lemma FourBytesAreWellFormed(ch: int)
    requires 0x10000 <= ch <= MAX_LEGAL
    ensures WellFormed8(Encode8(ch)) && TrailingBytes(Encode8(ch)[0]) == |Encode8(ch)| - 1
  {
    var high, low := ch / 0x40000, ch / 0x1000 % 0x40;
    assert ch == 0x40000 * high + 0x1000 * low + ch % 0x1000;
    assert high <= 4 && (high == 0 ==> low >= 0x10) && (high == 4 ==> low < 0x10);
  }

  /** The bytes the check lets through beyond the standard: after ED and F4 it does not look
      whether the second byte is below 80. */
  predicate Loose(s: seq<UTF8>) {
    |s| >= 2 && (s[0] == 0xED || s[0] == 0xF4) && s[1] < 0x80
  }

  /** The sequences that are well formed but for a byte below 80 behind ED or F4. */
  predicate LooselyFormed(s: seq<UTF8>) {
    || (|s| == 3 && s[0] == 0xED && s[1] < 0x80 && Tail(s[2]))
    || (|s| == 4 && s[0] == 0xF4 && s[1] < 0x80 && Tail(s[2]) && Tail(s[3]))
  }

  /** isLegalUTF8 accepts the standard's sequences and the loose ones. */
  lemma LegalIsWellFormedOrLoose(s: seq<UTF8>)
    requires s != [] && TrailingBytes(s[0]) == |s| - 1
    ensures WellFormed8(s) <==> IsLegal(s) && !Loose(s)
    ensures IsLegal(s) <==> WellFormed8(s) || LooselyFormed(s)
  {
  }

  /** Reading a legal sequence gives a scalar value, even from a loose one, and it is in the BMP
      unless there were four bytes. */
  lemma Read8IsScalar(s: seq<UTF8>)
    requires 1 <= |s| <= 4 && TrailingBytes(s[0]) == |s| - 1 && IsLegal(s)
    ensures Scalar(Read8(s)) && (|s| == 4 <==> Read8(s) > MAX_BMP)
  {
  }

  lemma TwoBytesBack(a: UTF8, b: UTF8)
    requires 0xC2 <= a <= 0xDF && Tail(b)
    ensures var v := a * 0x40 + b - 0x3080; 0x80 <= v < 0x800 && Encode8(v) == [a, b]
  {
  }

  lemma ThreeBytesBack(a: UTF8, b: UTF8, c: UTF8)
    requires 0xE0 <= a <= 0xEF && Tail(b) && Tail(c) && (a == 0xE0 ==> 0xA0 <= b)
    ensures var v := (a * 0x40 + b) * 0x40 + c - 0xE2080; 0x800 <= v < 0x10000 && Encode8(v) == [a, b, c]
  {
    var v := (a * 0x40 + b) * 0x40 + c - 0xE2080;
    SplitBy64((a - 0xE0) * 0x40 + (b - 0x80), c - 0x80);
    SplitBy64(a - 0xE0, b - 0x80);
    assert v == ((a - 0xE0) * 0x40 + (b - 0x80)) * 0x40 + (c - 0x80);
    assert v / 0x1000 == v / 0x40 / 0x40;
  }

  lemma SplitBy64(high: int, low: int)
    requires 0 <= low < 0x40
    ensures (high * 0x40 + low) / 0x40 == high && (high * 0x40 + low) % 0x40 == low
  {
  }

  lemma FourBytesBack(a: UTF8, b: UTF8, c: UTF8, d: UTF8)
    requires 0xF0 <= a <= 0xF4 && Tail(b) && Tail(c) && Tail(d)
    requires (a == 0xF0 ==> 0x90 <= b) && (a == 0xF4 ==> b <= 0x8F)
    ensures var v := ((a * 0x40 + b) * 0x40 + c) * 0x40 + d - 0x3C82080; 0x10000 <= v <= MAX_LEGAL && Encode8(v) == [a, b, c, d]
  {
    var v := ((a * 0x40 + b) * 0x40 + c) * 0x40 + d - 0x3C82080;
    var upper := (a - 0xF0) * 0x40 + (b - 0x80);
    SplitBy64(upper * 0x40 + (c - 0x80), d - 0x80);
    SplitBy64(upper, c - 0x80);
    SplitBy64(a - 0xF0, b - 0x80);
    assert v == (upper * 0x40 + (c - 0x80)) * 0x40 + (d - 0x80);
    assert v / 0x1000 == v / 0x40 / 0x40 && v / 0x40000 == v / 0x1000 / 0x40;
  }

  /** It is the character the bytes are the form of exactly when the sequence is not loose. */
  lemma Encode8OfRead8(s: seq<UTF8>)
    requires 1 <= |s| <= 4 && TrailingBytes(s[0]) == |s| - 1 && IsLegal(s)
    ensures Scalar(Read8(s)) && (Encode8(Read8(s)) == s <==> !Loose(s))
  {
    Read8IsScalar(s);
    if |s| == 1 {
    } else if s[1] < 0x80 {
      var e := Encode8(Read8(s));
      assert |e| >= 2 ==> e[1] >= 0x80;
    } else if |s| == 2 {
      TwoBytesBack(s[0], s[1]);
      assert s == [s[0], s[1]];
    } else if |s| == 3 {
      hide Encode8;
      ThreeBytesBack(s[0], s[1], s[2]);
      assert s == [s[0], s[1], s[2]];
    } else {
      hide Encode8;
      FourBytesBack(s[0], s[1], s[2], s[3]);
      assert s == [s[0], s[1], s[2], s[3]];
    }
  }

  // ---- Surrogate pairs ----

  lemma WritePairIsEncode16(ch: int)
    requires MAX_BMP < ch <= MAX_LEGAL
    ensures WritePair(ch) == Encode16(ch)
    ensures High(WritePair(ch)[0]) && LowHalf(WritePair(ch)[1]) && ReadPair(WritePair(ch)[0], WritePair(ch)[1]) == ch
  {
  }

  lemma PairWasEncoded(high: UTF16, low: UTF16)
    requires High(high) && LowHalf(low)
    ensures MAX_BMP < ReadPair(high, low) <= MAX_LEGAL && Encode16(ReadPair(high, low)) == [high, low]
  {
  }
}
