/** The format in the terms of RFC 1951 itself, symbol by symbol and bit by bit: what the decoder and the
    reference encoder share is fixed here by the numbers that the standard prints. */
module Rfc1951 {
  import opened BitStrings
  import opened Huffman
  import opened Inflate
  import opened Deflate
  import opened DeflateBlocks
  import opened DeflateStream
  import InflateFacts

  // ---- Section 3.2.2: the canonical code ----

  /** The code words of one length are consecutive, and those of the next length that is used begin where
      these end, with zeroes put behind. */
  lemma {:induction false} NextCodeSkips(lengths: seq<nat>, len: nat, longer: nat)
    requires 0 < len < longer && forall l: nat :: len < l < longer ==> Count(lengths, l) == 0
    ensures NextCode(lengths, longer) == (NextCode(lengths, len) + Count(lengths, len)) * Pow2(longer - len)
    decreases longer
  {
    hide Count;
    if longer > len + 1 {
      NextCodeSkips(lengths, len, longer - 1);
      assert Count(lengths, longer - 1) == 0;
      DoubleProduct(Pow2(longer - 1 - len), NextCode(lengths, len) + Count(lengths, len));
    } else {
      assert Pow2(1) == 2;
    }
  }

  lemma CodeAtSlot(lengths: seq<nat>, len: nat, k: nat)
    requires 0 < len && k < Count(lengths, len)
    ensures var sym := SymbolsOf(lengths, len)[k];
            sym < |lengths| && lengths[sym] == len && Code(lengths, sym) == NextCode(lengths, len) + k
  {
    RankOfSymbol(lengths, len, k);
  }

  lemma {:induction false} NothingBetween(lengths: seq<nat>, len: nat, longer: nat, l: nat)
    requires len < l < longer && Start(lengths, len) + Count(lengths, len) == Start(lengths, longer)
    requires 0 < len
    ensures Count(lengths, l) == 0
  {
    hide Count;
    StartMonotone(lengths, len + 1, l);
    StartMonotone(lengths, l + 1, longer);
    assert Start(lengths, len + 1) == Start(lengths, len) + Count(lengths, len);
    assert Start(lengths, l + 1) == Start(lengths, l) + Count(lengths, l);
  }

  /** Of two coded symbols that follow each other in the order of length and symbol, the second has the
      code of the first plus one, with as many zeroes behind as it is longer. */
  lemma CodesFollow(lengths: seq<nat>, i: nat)
    requires i + 1 < Coded(lengths)
    ensures var t := Table(lengths, MAXBITS + 1);
            && t[i] < |lengths| && t[i + 1] < |lengths| && lengths[t[i]] <= lengths[t[i + 1]]
            && Code(lengths, t[i + 1]) == (Code(lengths, t[i]) + 1) * Pow2(lengths[t[i + 1]] - lengths[t[i]])
  {
    hide Code, Table, SymbolsOf, Count, NextCode, Start;
    TableSorted(lengths, i, i + 1);
    var len, k := SlotOwner(lengths, MAXBITS + 1, i);
    var longer, m := SlotOwner(lengths, MAXBITS + 1, i + 1);
    CodeAtSlot(lengths, len, k);
    CodeAtSlot(lengths, longer, m);
    if len < longer {
      LastAndFirst(lengths, len, k, longer, m);
      forall l: nat | len < l < longer ensures Count(lengths, l) == 0 {
        NothingBetween(lengths, len, longer, l);
      }
      NextCodeSkips(lengths, len, longer);
    } else {
      assert Pow2(0) == 1;
    }
  }

  lemma LastAndFirst(lengths: seq<nat>, len: nat, k: nat, longer: nat, m: nat)
    requires 0 < len < longer && k < Count(lengths, len) && Start(lengths, longer) + m == Start(lengths, len) + k + 1
    ensures k + 1 == Count(lengths, len) && m == 0 && Start(lengths, len) + Count(lengths, len) == Start(lengths, longer)
  {
    hide Count;
    assert Start(lengths, len + 1) == Start(lengths, len) + Count(lengths, len);
    StartMonotone(lengths, len + 1, longer);
  }

  lemma {:induction false} NoneShorter(lengths: seq<nat>, len: nat)
    requires 0 < len && Start(lengths, len) == 0
    ensures NextCode(lengths, len) == 0
  {
    hide Count;
    if len > 1 {
      NoneShorter(lengths, len - 1);
    } else {
      assert NextCode(lengths, 0) == 0;
    }
  }

  /** And the first has all zeroes. */
  lemma FirstCodeIsZero(lengths: seq<nat>)
    requires Coded(lengths) > 0
    ensures var t := Table(lengths, MAXBITS + 1); t[0] < |lengths| && Code(lengths, t[0]) == 0
  {
    var len, k := SlotOwner(lengths, MAXBITS + 1, 0);
    CodeAtSlot(lengths, len, k);
    NoneShorter(lengths, len);
  }

  // ---- Section 3.2.5: lengths and distances ----

  /** Four length codes share each number of extra bits from the second group on, and the ranges follow
      each other without a gap from 3 on; 258 has a code of its own. */
  lemma LengthCodes(k: nat)
    requires k < 27
    ensures LENS[0] == 3 && LENS[k + 1] == LENS[k] + Pow2(LEXT[k])
    ensures LENS[28] == 258 && LEXT[28] == 0
  {
    InflateFacts.LengthTable(k);
    hide Pow2;
  }

  /** And two distance codes, from 1 on. */
  lemma DistanceCodes(k: nat)
    requires k < 29
    ensures DISTS[0] == 1 && DISTS[k + 1] == DISTS[k] + Pow2(DEXT[k])
  {
    InflateFacts.DistanceTable(k);
    hide Pow2;
  }

  lemma LengthExtra(group: nat, i: nat)
    requires group < 7 && i < 4
    ensures LEXT[4 * group + i] == if group < 2 then 0 else group - 1
  {
  }

  lemma DistanceExtra(group: nat, i: nat)
    requires group < 15 && i < 2
    ensures DEXT[2 * group + i] == if group < 2 then 0 else group - 1
  {
  }

  // ---- Section 3.2.6: the fixed codes ----

  lemma {:induction false} CountOfRun(a: seq<nat>, v: nat, n: nat, len: nat)
    ensures Count(a + Repeat(v, n), len) == Count(a, len) + if v == len then n else 0
  {
    var b := a + Repeat(v, n);
    if n == 0 {
      assert b == a;
    } else {
      CountOfRun(a, v, n - 1, len);
      assert b[..|b| - 1] == a + Repeat(v, n - 1);
    }
  }

  lemma CountOfNone(len: nat)
    ensures Count([], len) == 0
  {
  }

  /** How many of the first `n` fixed literal lengths are `len`. */
  lemma FixedCounts(n: nat, len: nat)
    requires n <= 288
    ensures Count(FixedLiterals()[..n], len) ==
      if len == 8 then (if n < 144 then n else if n < 280 then 144 else n - 136)
      else if len == 9 then (if n < 144 then 0 else if n < 256 then n - 144 else 112)
      else if len == 7 then (if n < 256 then 0 else if n < 280 then n - 256 else 24)
      else 0
  {
    hide Count, FixedLiterals;
    FixedLiteralsAre();
    var a: nat := if n < 144 then n else 144;
    var b: nat := if n < 144 then 0 else if n < 256 then n - 144 else 112;
    var c: nat := if n < 256 then 0 else if n < 280 then n - 256 else 24;
    var d: nat := if n < 280 then 0 else n - 280;
    CountOfNone(len);
    CountOfRun([], 8, a, len);
    CountOfRun([] + Repeat(8, a), 9, b, len);
    CountOfRun([] + Repeat(8, a) + Repeat(9, b), 7, c, len);
    CountOfRun([] + Repeat(8, a) + Repeat(9, b) + Repeat(7, c), 8, d, len);
    assert FixedLiterals()[..n] == [] + Repeat(8, a) + Repeat(9, b) + Repeat(7, c) + Repeat(8, d);
  }

  lemma FixedNextCodes()
    ensures NextCode(FixedLiterals(), 7) == 0 && NextCode(FixedLiterals(), 8) == 0x30 && NextCode(FixedLiterals(), 9) == 0x190
  {
    hide Count, FixedLiterals;
    var all := FixedLiterals();
    assert all[..288] == all;
    forall len: nat ensures Count(all, len) == if len == 8 then 152 else if len == 9 then 112 else if len == 7 then 24 else 0 {
      FixedCounts(288, len);
    }
    forall len: nat | 1 <= len <= 7 ensures NextCode(all, len) == 0 {
      NoShortCodes(all, len);
    }
    assert NextCode(all, 8) == 2 * (NextCode(all, 7) + Count(all, 7));
    assert NextCode(all, 9) == 2 * (NextCode(all, 8) + Count(all, 8));
  }

  lemma {:induction false} NoShortCodes(lengths: seq<nat>, len: nat)
    requires 0 < len && forall l: nat :: 0 < l < len ==> Count(lengths, l) == 0
    ensures NextCode(lengths, len) == 0
  {
    hide Count;
    if len > 1 {
      NoShortCodes(lengths, len - 1);
    } else {
      assert NextCode(lengths, 0) == 0;
    }
  }

  /** The table of section 3.2.6, with the codes as numbers. */
  lemma FixedLiteralCodes(sym: nat)
    requires sym < 288
    ensures FixedLiterals()[sym] == (if sym <= 143 then 8 else if sym <= 255 then 9 else if sym <= 279 then 7 else 8)
    ensures Code(FixedLiterals(), sym) ==
      if sym <= 143 then 0x30 + sym else if sym <= 255 then 0x190 + (sym - 144)
      else if sym <= 279 then sym - 256 else 0xC0 + (sym - 280)
  {
    hide Count, NextCode;
    FixedNextCodes();
    FixedCounts(sym, FixedLiterals()[sym]);
  }

  lemma FixedDistanceCodes(sym: nat)
    requires sym < 30
    ensures FixedDistances()[sym] == 5 && Code(FixedDistances(), sym) == sym
  {
    hide Count;
    var all := FixedDistances();
    forall l: nat | 0 < l < 5 ensures Count(all, l) == 0 {
      CountOfNone(l);
      CountOfRun([], 5, 30, l);
      assert [] + Repeat(5, 30) == all;
    }
    NoShortCodes(all, 5);
    CountOfNone(5);
    CountOfRun([], 5, sym, 5);
    assert [] + Repeat(5, sym) == all[..sym];
  }

  // ---- Section 3.2.7: dynamic blocks ----

  /** The number of place `j` among `k` three-bit lengths, or zero if it was not sent. */
  function Sent(bits: seq<bool>, k: nat, j: nat): nat
    requires 3 * k <= |bits|
  {
    if j < k then FromBits(bits[3 * j..3 * j + 3]) else 0
  }

  lemma {:induction false} SentAt(bits: seq<bool>, k: nat, j: nat)
    requires k <= 19 && 3 * k <= |bits| && j < 19
    ensures CodeLengthCode(bits, k)[Order(j)] == Sent(bits, k, j)
  {
    hide FromBits, Order;
    if k > 0 {
      SentAt(bits, k - 1, j);
      if j < k - 1 {
        OrderInjective(j, k - 1);
      } else if k - 1 < j {
        OrderInjective(k - 1, j);
      }
    }
  }

  /** Which symbol each of the three-bit lengths belongs to. */
  lemma CodeLengthOrder(bits: seq<bool>, k: nat)
    requires k <= 19 && 3 * k <= |bits|
    ensures var cl := CodeLengthCode(bits, k);
            && cl[16] == Sent(bits, k, 0) && cl[17] == Sent(bits, k, 1) && cl[18] == Sent(bits, k, 2)
            && cl[0] == Sent(bits, k, 3) && cl[8] == Sent(bits, k, 4) && cl[7] == Sent(bits, k, 5)
            && cl[9] == Sent(bits, k, 6) && cl[6] == Sent(bits, k, 7) && cl[10] == Sent(bits, k, 8)
            && cl[5] == Sent(bits, k, 9) && cl[11] == Sent(bits, k, 10) && cl[4] == Sent(bits, k, 11)
            && cl[12] == Sent(bits, k, 12) && cl[3] == Sent(bits, k, 13) && cl[13] == Sent(bits, k, 14)
            && cl[2] == Sent(bits, k, 15) && cl[14] == Sent(bits, k, 16) && cl[1] == Sent(bits, k, 17)
            && cl[15] == Sent(bits, k, 18)
  {
    hide CodeLengthCode, Sent;
    forall j: nat | j < 19 ensures CodeLengthCode(bits, k)[Order(j)] == Sent(bits, k, j) {
      SentAt(bits, k, j);
    }
    assert Order(0) == 16 && Order(1) == 17 && Order(2) == 18 && Order(3) == 0 && Order(4) == 8 && Order(5) == 7;
    assert Order(6) == 9 && Order(7) == 6 && Order(8) == 10 && Order(9) == 5 && Order(10) == 11 && Order(11) == 4;
    assert Order(12) == 12 && Order(13) == 3 && Order(14) == 13 && Order(15) == 2 && Order(16) == 14 && Order(17) == 1;
    assert Order(18) == 15;
  }

  /** Symbols 16, 17 and 18 repeat the last length 3 to 6 times, or a zero 3 to 10 or 11 to 138 times;
      there must be a last length, and the repetition must not go past the end. */
  lemma RepeatCodes(cl: seq<nat>, bits: seq<bool>, acc: seq<nat>, n: nat)
    requires Complete(cl) && |cl| == 19 && |acc| < n && LengthsOk(acc)
    requires Decode(cl, bits).Symbol?
    ensures var o, d := ReadLengths(cl, bits, acc, n), Decode(cl, bits);
            && (d.sym < 16 ==> o == ReadLengths(cl, d.rest, acc + [d.sym], n))
            && (d.sym == 16 && acc == [] ==> o == LengthsInvalid(-5, d.rest))
            && (d.sym == 16 && acc != [] && |d.rest| >= 2 ==>
                  var m := 3 + FromBits(d.rest[..2]);
                  if |acc| + m > n then o == LengthsInvalid(-6, d.rest[2..])
                  else o == ReadLengths(cl, d.rest[2..], acc + Repeat(acc[|acc| - 1], m), n))
            && (d.sym == 17 && |d.rest| >= 3 ==>
                  var m := 3 + FromBits(d.rest[..3]);
                  if |acc| + m > n then o == LengthsInvalid(-6, d.rest[3..])
                  else o == ReadLengths(cl, d.rest[3..], acc + Repeat(0, m), n))
            && (d.sym == 18 && |d.rest| >= 7 ==>
                  var m := 11 + FromBits(d.rest[..7]);
                  if |acc| + m > n then o == LengthsInvalid(-6, d.rest[7..])
                  else o == ReadLengths(cl, d.rest[7..], acc + Repeat(0, m), n))
  {
    hide ReadLengths, Decode, FromBits, KraftSum;
    LengthsStep(cl, bits, acc, n);
  }

  /** The first 14 bits hold the numbers of codes, less 257, 1 and 4. */
  lemma HeaderCounts(h: Header)
    requires Readable(h)
    ensures var b := EncodeHeader(h);
            && |b| >= 14 && FromBits(b[..5]) == h.nlen - 257 && FromBits(b[5..10]) == h.ndist - 1
            && FromBits(b[10..14]) == |h.sent| - 4 && b[14..] == SendLengths(h.sent) + InstrBits(h)
  {
    hide ToBits, FromBits, SendLengths, InstrBits, KraftSum;
    assert Pow2(5) == 32 && Pow2(4) == 16;
    FromBitsOfToBits(h.nlen - 257, 5);
    FromBitsOfToBits(h.ndist - 1, 5);
    FromBitsOfToBits(|h.sent| - 4, 4);
    var b := EncodeHeader(h);
    assert b[..5] == ToBits(h.nlen - 257, 5) && b[5..10] == ToBits(h.ndist - 1, 5) && b[10..14] == ToBits(|h.sent| - 4, 4);
  }

  /** When a dynamic block is refused before its data, and with which number. */
  lemma DynamicErrors(bits: seq<bool>, out: seq<byte>, cap: Capacity)
    requires |bits| >= 14 && |bits| >= 14 + 3 * (FromBits(bits[10..14]) + 4) && FromBits(bits[10..14]) < 16
    ensures var nlen, ndist, ncode := FromBits(bits[..5]) + 257, FromBits(bits[5..10]) + 1, FromBits(bits[10..14]) + 4;
            var o, cl, rest := Dynamic(bits, out, cap), CodeLengthCode(bits[14..], ncode), bits[14 + 3 * ncode..];
            && (nlen > 286 || ndist > 30 ==> o == Invalid(-3, bits[14..], out))
            && (nlen <= 286 && ndist <= 30 ==>
                 && (Coded(cl) > 0 && KraftSum(cl) != 32768 ==> o == Invalid(-4, rest, out))
                 && (Coded(cl) > 0 && KraftSum(cl) == 32768 ==>
                      var r := ReadLengths(cl, rest, [], nlen + ndist);
                      && (r.LengthsInvalid? ==> o == Invalid(r.code, r.rest, out))
                      && (r.Lengths? ==>
                           if Refused(r.lengths[..nlen]) then o == Invalid(-7, r.rest, out)
                           else if Refused(r.lengths[nlen..]) then o == Invalid(-8, r.rest, out)
                           else o == Codes(r.lengths[..nlen], r.lengths[nlen..], r.rest, out, cap))))
  {
    hide FromBits, KraftSum, Coded, CodeLengthCode, ReadLengths, Codes;
    FixedPowers();
    hide Pow2;
    var nlen, ndist, ncode := FromBits(bits[..5]) + 257, FromBits(bits[5..10]) + 1, FromBits(bits[10..14]) + 4;
    assert bits[14..][3 * ncode..] == bits[14 + 3 * ncode..];
    var cl, rest := CodeLengthCode(bits[14..], ncode), bits[14 + 3 * ncode..];
    if nlen <= 286 && ndist <= 30 && Coded(cl) > 0 && KraftSum(cl) == 32768 {
      var r := ReadLengths(cl, rest, [], nlen + ndist);
      if r.Lengths? {
        RefusedIsBad(r.lengths[..nlen]);
        RefusedIsBad(r.lengths[nlen..]);
      }
    }
  }

  /** Over-subscribed codes, and incomplete ones unless they have a single symbol or none. */
  predicate Refused(lengths: seq<nat>) {
    KraftSum(lengths) > 32768 || (KraftSum(lengths) < 32768 && Coded(lengths) > 1)
  }

  lemma RefusedIsBad(lengths: seq<nat>)
    requires LengthsOk(lengths)
    ensures Refused(lengths) <==> BadCode(lengths)
  {
    hide KraftSum, Coded;
    FixedPowers();
    if Coded(lengths) == 0 {
      EmptyCode(lengths);
    }
  }

  // ---- Section 3.2.3 and 3.2.4: block headers ----

  /** A block begins with the mark of the last one and two bits for its kind: 00 stored, 01 fixed, 10
      dynamic, with the lower bit first. */
  lemma BlockHeader(last: bool, b: Body, out: seq<byte>, pos: nat)
    requires LegalBody(b, out, pos + 3)
    ensures var bits := EncodeBlock(last, b, out, pos);
            && |bits| >= 3 && bits[0] == last && bits[1] == b.FixedBody? && bits[2] == b.DynamicBody?
  {
    hide LegalBody, EncodeBody;
    assert ToBits(Kind(b), 2) == [Kind(b) % 2 == 1] + ToBits(Kind(b) / 2, 1);
    assert ToBits(Kind(b) / 2, 1) == [Kind(b) / 2 % 2 == 1] + ToBits(Kind(b) / 2 / 2, 0);
  }

  lemma ReservedKind(bits: seq<bool>, out: seq<byte>, cap: Capacity)
    requires |bits| >= 3 && bits[1] && bits[2]
    ensures Blocks(bits, out, cap) == Invalid(-1, bits[3..], out)
  {
    assert bits[1..3] == [true] + [true];
    assert ([true] + [true])[1..] == [true] && [true][1..] == [];
    assert FromBits([true]) == 1 && FromBits(bits[1..3]) == 3;
  }

  /** A stored block has its length and the complement of it in two bytes each, the lower one first. */
  lemma StoredHeader(data: seq<byte>)
    requires |data| < 65536
    ensures var b := StoredBytesOf(data);
            && |b| == 4 + |data| && TwoBytes(b[0], b[1]) == |data| && TwoBytes(b[2], b[3]) == 65535 - |data| && b[4..] == data
  {
  }

  // ---- A stream ----

  /** The eighteen bytes of three times abcdef: seven literals, and a match of length 11 six bytes back. */
  const TEXT: seq<byte> := [97, 98, 99, 100, 101, 102, 97, 98, 99, 100, 101, 102, 97, 98, 99, 100, 101, 102]
  const STREAM: seq<byte> := [0x4B, 0x4C, 0x4A, 0x4E, 0x49, 0x4D, 0x4B, 0x44, 0x22, 0x01]
  const MATCH := Match(8, 0, 4, 1)

  function LiteralsOf(bytes: seq<byte>): (t: seq<Token>)
    ensures |t| == |bytes|
  {
    if bytes == [] then [] else [Literal(bytes[0])] + LiteralsOf(bytes[1..])
  }

  lemma EndHasCode()
    ensures HasCode(FixedLiterals(), END_OF_BLOCK)
  {
    FixedHasCodes(256);
  }

  lemma FixedHasCodes(sym: nat)
    requires sym < 288
    ensures HasCode(FixedLiterals(), sym)
  {
    FixedLiteralCodes(sym);
  }

  /** A literal in front of tokens. */
  lemma LiteralInFront(b: byte, tokens: seq<Token>, out: seq<byte>)
    requires LegalTokens(FixedLiterals(), FixedDistances(), tokens, out + [b])
    ensures HasCode(FixedLiterals(), END_OF_BLOCK)
    ensures var ll, dl, all := FixedLiterals(), FixedDistances(), [Literal(b)] + tokens;
            && LegalTokens(ll, dl, all, out)
            && EncodeTokens(ll, dl, all, out) == Word(ll, b) + EncodeTokens(ll, dl, tokens, out + [b])
            && ExpandTokens(ll, dl, all, out) == ExpandTokens(ll, dl, tokens, out + [b])
  {
    FixedHasCodes(b);
    FixedHasCodes(256);
    var all := [Literal(b)] + tokens;
    assert all[0] == Literal(b) && all[1..] == tokens;
    hide FixedLiterals, FixedDistances, Word;
  }

  lemma LastMatch(out: seq<byte>)
    requires |out| == 7
    ensures HasCode(FixedLiterals(), END_OF_BLOCK) && Reaches(out, MATCH) && Codable(FixedLiterals(), FixedDistances(), MATCH)
    ensures var ll, dl := FixedLiterals(), FixedDistances();
            && LegalTokens(ll, dl, [MATCH], out)
            && EncodeTokens(ll, dl, [MATCH], out) == EncodeToken(ll, dl, MATCH) + Word(ll, 256)
            && ExpandTokens(ll, dl, [MATCH], out) == Apply(out, MATCH)
  {
    hide Length, Distance, InRange, HasCode, Word, CopyBack, ToBits, Codable, Reaches, FixedLiterals, FixedDistances, Apply,
         EncodeToken;
    MatchIsLegal(out);
    var ll, dl, none: seq<Token> := FixedLiterals(), FixedDistances(), [];
    assert [MATCH][1..] == none;
    assert LegalTokens(ll, dl, none, Apply(out, MATCH)) && EncodeTokens(ll, dl, none, Apply(out, MATCH)) == Word(ll, 256);
  }

  lemma MatchIsLegal(out: seq<byte>)
    requires |out| == 7
    ensures HasCode(FixedLiterals(), END_OF_BLOCK) && Reaches(out, MATCH) && Codable(FixedLiterals(), FixedDistances(), MATCH)
  {
    FixedHasCodes(265);
    FixedHasCodes(256);
    FixedDistanceCodes(4);
    hide FixedLiterals, FixedDistances;
    MatchNumbers();
    hide InRange, Distance;
  }

  lemma MatchNumbers()
    ensures InRange(MATCH) && Length(MATCH) == 11 && Distance(MATCH) == 6 && LEXT[8] == 1 && DEXT[4] == 1
  {
    LengthExtra(2, 0);
    DistanceExtra(2, 0);
    assert Pow2(1) == 2;
    assert LENS[8] == 11;
    assert DISTS[4] == 5;
  }

  lemma ValueOfFive(b: seq<bool>)
    requires |b| >= 5
    ensures CodeValue(b[..5]) == 16 * Bit(b[0]) + 8 * Bit(b[1]) + 4 * Bit(b[2]) + 2 * Bit(b[3]) + Bit(b[4])
  {
    hide *;
    NoValue();
    assert b[..0] == [];
    ValueOfOneMoreBit(b, 1);
    ValueOfOneMoreBit(b, 2);
    ValueOfOneMoreBit(b, 3);
    ValueOfOneMoreBit(b, 4);
    ValueOfOneMoreBit(b, 5);
  }

  lemma ValueOfSeven(b: seq<bool>)
    requires |b| >= 7
    ensures CodeValue(b[..7]) == 4 * CodeValue(b[..5]) + 2 * Bit(b[5]) + Bit(b[6])
  {
    hide *;
    ValueOfOneMoreBit(b, 6);
    ValueOfOneMoreBit(b, 7);
  }

  lemma ValueOfEight(b: seq<bool>)
    requires |b| >= 8
    ensures CodeValue(b[..8]) == 8 * CodeValue(b[..5]) + 4 * Bit(b[5]) + 2 * Bit(b[6]) + Bit(b[7])
  {
    hide *;
    ValueOfSeven(b);
    ValueOfOneMoreBit(b, 8);
  }

  lemma NoValue()
    ensures CodeValue([]) == 0
  {
  }

  lemma LiteralWord(b: byte)
    requires 97 <= b <= 102
    ensures Word(FixedLiterals(), b)
         == [true, false, false, true, false, b >= 100, b == 98 || b == 99 || b == 102, b == 97 || b == 99 || b == 101]
  {
    hide CodeValue, CodeWord, Code, Word, FixedLiterals;
    var w := [true, false, false, true, false, b >= 100, b == 98 || b == 99 || b == 102, b == 97 || b == 99 || b == 101];
    ValueOfFive(w);
    ValueOfEight(w);
    assert w[..8] == w;
    FixedLiteralCodes(b);
    WordOfBits(FixedLiterals(), b, w);
  }

  lemma MatchWords()
    ensures Word(FixedLiterals(), 265) == [false, false, false, true, false, false, true]
    ensures Word(FixedLiterals(), 256) == [false, false, false, false, false, false, false]
    ensures Word(FixedDistances(), 4) == [false, false, true, false, false]
  {
    hide CodeValue, CodeWord, Code, Word, FixedLiterals, FixedDistances;
    var l, e, d := [false, false, false, true, false, false, true], [false, false, false, false, false, false, false],
                   [false, false, true, false, false];
    ValueOfFive(l);
    ValueOfSeven(l);
    ValueOfFive(e);
    ValueOfSeven(e);
    ValueOfFive(d);
    assert l[..7] == l && e[..7] == e && d[..5] == d;
    FixedLiteralCodes(265);
    FixedLiteralCodes(256);
    FixedDistanceCodes(4);
    WordOfBits(FixedLiterals(), 265, l);
    WordOfBits(FixedLiterals(), 256, e);
    WordOfBits(FixedDistances(), 4, d);
  }

  /** The length code, its extra bit, the distance code, its extra bit. */
  lemma MatchBits(out: seq<byte>)
    requires |out| == 7
    ensures Codable(FixedLiterals(), FixedDistances(), MATCH)
    ensures EncodeToken(FixedLiterals(), FixedDistances(), MATCH)
         == [false, false, false, true, false, false, true] + [false] + [false, false, true, false, false] + [true]
  {
    MatchIsLegal(out);
    MatchNumbers();
    MatchWords();
    OneBit();
    hide Codable, Word, ToBits, FixedLiterals, FixedDistances;
  }

  lemma OneBit()
    ensures ToBits(0, 1) == [false] && ToBits(1, 1) == [true]
  {
  }

  /** The copy reaches into itself. */
  lemma TextCopied()
    requires Reaches(TEXT[..7], MATCH)
    ensures Apply(TEXT[..7], MATCH) == TEXT
  {
    MatchNumbers();
    hide CopyBack, Length, Distance;
    TextFrom(18);
    assert CopyBack(TEXT[..7], 6, 11)[..18] == CopyBack(TEXT[..7], 6, 11) && TEXT[..18] == TEXT;
  }

  lemma {:induction false} TextFrom(n: nat)
    requires 7 <= n <= 18
    ensures CopyBack(TEXT[..7], 6, 11)[..n] == TEXT[..n]
  {
    hide CopyBack;
    var r := CopyBack(TEXT[..7], 6, 11);
    if n > 7 {
      TextFrom(n - 1);
      TextRepeats(n - 1);
      InflateFacts.CopyRepeats(TEXT[..7], 6, 11, n - 8);
      assert r[..n - 1][n - 7] == TEXT[..n - 1][n - 7];
      assert r[..n] == r[..n - 1] + [r[n - 1]] && TEXT[..n] == TEXT[..n - 1] + [TEXT[n - 1]];
    } else {
      InflateFacts.CopyRepeats(TEXT[..7], 6, 11, 0);
    }
  }

  lemma TextRepeats(j: nat)
    requires 7 <= j < 18
    ensures TEXT[j] == TEXT[j - 6]
  {
  }

  lemma FourBits(v: nat)
    ensures ToBits(v, 4) == [v % 2 == 1, v / 2 % 2 == 1, v / 4 % 2 == 1, v / 8 % 2 == 1]
  {
    hide *;
    var a, b, c: nat := v / 2, v / 4, v / 8;
    Eighths(v);
    InflateFacts.ToBitsStep(v, 3);
    InflateFacts.ToBitsStep(a, 2);
    InflateFacts.ToBitsStep(b, 1);
    InflateFacts.ToBitsStep(c, 0);
    NoBitsAreNone(c / 2);
    assert ToBits(b, 2) == [b % 2 == 1, c % 2 == 1];
    assert ToBits(a, 3) == [a % 2 == 1, b % 2 == 1, c % 2 == 1];
  }

  lemma Eighths(v: nat)
    ensures v / 4 == v / 2 / 2 && v / 8 == v / 4 / 2
  {
  }

  lemma NoBitsAreNone(v: nat)
    ensures ToBits(v, 0) == []
  {
  }

  lemma ByteBits(b: byte)
    ensures ToBits(b, 8) == [b % 2 == 1, b / 2 % 2 == 1, b / 4 % 2 == 1, b / 8 % 2 == 1]
                            + [b / 16 % 2 == 1, b / 16 / 2 % 2 == 1, b / 16 / 4 % 2 == 1, b / 16 / 8 % 2 == 1]
  {
    hide ToBits;
    ToBitsSplit(b, 4, 4);
    FourBits(b);
    FourthShift(b);
    FourBits(b / 16);
  }

  lemma FourthShift(b: nat)
    ensures Shr(b, 4) == b / 16
  {
    assert Shr(b, 4) == Shr(b / 2, 3) && Shr(b / 2, 3) == Shr(b / 2 / 2, 2);
    assert Shr(b / 2 / 2, 2) == Shr(b / 2 / 2 / 2, 1) && Shr(b / 2 / 2 / 2, 1) == b / 2 / 2 / 2 / 2;
  }

  /** Bits put in front: the last of one byte and the first of a word make up the next byte. */
  lemma Splice(y: seq<bool>, x: seq<bool>, z: seq<bool>, e: seq<bool>, u: seq<bool>)
    requires u == z + e
    ensures (y + x) + u == y + ((x + z) + e)
  {
  }

  lemma FirstByte(bytes: seq<byte>)
    requires bytes != []
    ensures Unpack(bytes) == ToBits(bytes[0], 8) + Unpack(bytes[1..])
  {
  }

  /** The tokens, from the last to the first, with what each puts in the stream. */
  lemma StreamTokens()
    ensures var ll, dl := FixedLiterals(), FixedDistances();
            var tokens := LiteralsOf(TEXT[..7]) + [MATCH];
            && HasCode(ll, END_OF_BLOCK) && LegalTokens(ll, dl, tokens, [])
            && ExpandTokens(ll, dl, tokens, []) == TEXT
            && Codable(ll, dl, MATCH)
            && EncodeTokens(ll, dl, tokens, []) == Words(TEXT[..7], EncodeToken(ll, dl, MATCH) + Word(ll, 256))
  {
    var out := TEXT[..7];
    LastMatch(out);
    TextCopied();
    LiteralsInFront([], out, [MATCH]);
    assert [] + out == out;
    hide FixedLiterals, FixedDistances, Word, EncodeToken, EncodeTokens, ExpandTokens, LegalTokens, Apply, LiteralsOf, Words;
  }

  /** The words of literals in front of some bits. */
  function Words(bytes: seq<byte>, tail: seq<bool>): seq<bool> {
    if bytes == [] then tail else Word(FixedLiterals(), bytes[0]) + Words(bytes[1..], tail)
  }

  lemma {:induction false} LiteralsInFront(out: seq<byte>, bytes: seq<byte>, tokens: seq<Token>)
    requires LegalTokens(FixedLiterals(), FixedDistances(), tokens, out + bytes)
    ensures HasCode(FixedLiterals(), END_OF_BLOCK)
    ensures var ll, dl, all := FixedLiterals(), FixedDistances(), LiteralsOf(bytes) + tokens;
            && LegalTokens(ll, dl, all, out)
            && EncodeTokens(ll, dl, all, out) == Words(bytes, EncodeTokens(ll, dl, tokens, out + bytes))
            && ExpandTokens(ll, dl, all, out) == ExpandTokens(ll, dl, tokens, out + bytes)
    decreases |bytes|
  {
    hide *;
    EndHasCode();
    LiteralsStep(bytes, tokens);
    if bytes == [] {
      assert out + bytes == out;
    } else {
      assert out + bytes == (out + [bytes[0]]) + bytes[1..];
      LiteralsInFront(out + [bytes[0]], bytes[1..], tokens);
      LiteralInFront(bytes[0], LiteralsOf(bytes[1..]) + tokens, out);
    }
  }

  lemma LiteralsStep(bytes: seq<byte>, tokens: seq<Token>)
    ensures LiteralsOf([]) + tokens == tokens && forall tail :: Words([], tail) == tail
    ensures bytes != [] ==> LiteralsOf(bytes) + tokens == [Literal(bytes[0])] + (LiteralsOf(bytes[1..]) + tokens)
    ensures bytes != [] ==> forall tail :: Words(bytes, tail) == Word(FixedLiterals(), bytes[0]) + Words(bytes[1..], tail)
  {
    hide Word, FixedLiterals;
  }

  lemma WordsStep(bytes: seq<byte>, tail: seq<bool>)
    requires bytes != [] && 97 <= bytes[0] <= 102
    ensures var b := bytes[0];
            Words(bytes, tail) == ([true, false, false, true, false]
              + [b >= 100, b == 98 || b == 99 || b == 102, b == 97 || b == 99 || b == 101]) + Words(bytes[1..], tail)
  {
    LiteralWord(bytes[0]);
    hide Word, FixedLiterals;
  }

  /** From byte k on, the stream is the last three bits of literal k - 1 and the literals from k on. */
  ghost predicate Aligned(k: nat, tail: seq<bool>)
    requires 1 <= k <= 7
  {
    var b := TEXT[k - 1];
    Unpack(STREAM[k..]) == [b >= 100, b == 98 || b == 99 || b == 102, b == 97 || b == 99 || b == 101] + Words(TEXT[k..7], tail)
  }

  lemma AlignedBefore(k: nat, tail: seq<bool>)
    requires 1 <= k < 7 && Aligned(k + 1, tail)
    ensures Aligned(k, tail)
  {
    hide Unpack, Words, ToBits;
    var b, c := TEXT[k - 1], TEXT[k];
    var y, x := [b >= 100, b == 98 || b == 99 || b == 102, b == 97 || b == 99 || b == 101], [true, false, false, true, false];
    var z := [c >= 100, c == 98 || c == 99 || c == 102, c == 97 || c == 99 || c == 101];
    assert STREAM[k..][0] == STREAM[k] && STREAM[k..][1..] == STREAM[k + 1..];
    assert TEXT[k..7][0] == c && TEXT[k..7][1..] == TEXT[k + 1..7];
    FirstByte(STREAM[k..]);
    WordsStep(TEXT[k..7], tail);
    ByteBits(STREAM[k]);
    assert ToBits(STREAM[k], 8) == y + x;
    Splice(y, x, z, Words(TEXT[k + 1..7], tail), Unpack(STREAM[k + 1..]));
  }

  lemma LastBytes(tail: seq<bool>)
    requires tail == [false, false, false, true, false, false, true] + [false] + [false, false, true, false, false] + [true]
                     + [false, false, false, false, false, false, false]
    ensures Aligned(7, tail)
  {
    hide ToBits, Unpack, Words;
    ByteBits(0x44);
    ByteBits(0x22);
    ByteBits(0x01);
    NoBytes();
    assert STREAM[7..] == [0x44, 0x22, 0x01] && TEXT[7..7] == [] && TEXT[6] == 97;
    assert [0x44, 0x22, 0x01][1..] == [0x22, 0x01] && [0x22, 0x01][1..] == [0x01] && [0x01][1..] == [];
    FirstByte([0x44, 0x22, 0x01]);
    FirstByte([0x22, 0x01]);
    FirstByte([0x01]);
    LastBits(ToBits(0x44, 8), ToBits(0x22, 8), ToBits(0x01, 8), tail);
    LiteralsStep([], []);
  }

  lemma LastBits(a: seq<bool>, b: seq<bool>, c: seq<bool>, tail: seq<bool>)
    requires a == [false, false, true, false] + [false, false, true, false]
    requires b == [false, true, false, false] + [false, true, false, false]
    requires c == [true, false, false, false] + [false, false, false, false]
    requires tail == [false, false, false, true, false, false, true] + [false] + [false, false, true, false, false] + [true]
                     + [false, false, false, false, false, false, false]
    ensures a + (b + (c + [])) == [false, false, true] + tail
  {
    assert a == [false, false, true] + [false, false, false, true, false];
    assert b == [false, true] + ([false] + [false, false, true, false, false]);
    assert c == [true] + [false, false, false, false, false, false, false];
    assert [false, false, false, true, false, false, true] == [false, false, false, true, false] + [false, true];
  }

  lemma NoBytes()
    ensures Unpack([]) == []
  {
  }

  lemma StreamBits(tail: seq<bool>)
    requires tail == [false, false, false, true, false, false, true] + [false] + [false, false, true, false, false] + [true]
                     + [false, false, false, false, false, false, false]
    ensures Unpack(STREAM) == [true, true, false] + Words(TEXT[..7], tail)
  {
    hide Unpack, Words, ToBits, Aligned;
    LastBytes(tail);
    AlignedBefore(6, tail);
    AlignedBefore(5, tail);
    AlignedBefore(4, tail);
    AlignedBefore(3, tail);
    AlignedBefore(2, tail);
    AlignedBefore(1, tail);
    AlignedFromHeader(tail);
  }

  lemma AlignedFromHeader(tail: seq<bool>)
    requires Aligned(1, tail)
    ensures Unpack(STREAM) == [true, true, false] + Words(TEXT[..7], tail)
  {
    hide Unpack, Words, ToBits;
    var x, z := [true, false, false, true, false], [false, false, true];
    FirstByte(STREAM);
    ByteBits(0x4B);
    WordsStep(TEXT[..7], tail);
    assert TEXT[..7][1..] == TEXT[1..7] && TEXT[0] == 97;
    assert ToBits(0x4B, 8) == [true, true, false] + x;
    Splice([true, true, false], x, z, Words(TEXT[1..7], tail), Unpack(STREAM[1..]));
  }

  /** Ten bytes of DEFLATE, read off the standard: the decoder returns the eighteen bytes and is at the end. */
  lemma KnownStream(cap: Capacity)
    requires Inflate.Fits(cap, 18)
    ensures Decompress(STREAM, cap) == Done([], TEXT)
  {
    hide LegalBody, EncodeBody, ExpandBody, Unpack, Decompress, Words, LiteralsOf, Encode, Expand, LegalBlocks;
    var body := FixedBody(LiteralsOf(TEXT[..7]) + [MATCH]);
    StreamBody(body);
    OneFixedBlock(body);
    OneBlock(STREAM, body, TEXT, cap);
  }

  lemma OneBlock(source: seq<byte>, b: Body, out: seq<byte>, cap: Capacity)
    requires LegalBlocks([b], [], 0) && Unpack(source) == Encode([b], [], 0) && Expand([b], [], 0) == out
    requires Inflate.Fits(cap, |out|)
    ensures Decompress(source, cap) == Done([], out)
  {
    hide Unpack, Decompress, Encode, Expand, LegalBlocks;
    assert Encode([b], [], 0) == Encode([b], [], 0) + [];
    assert Encodes(source, [b], []);
    DecompressAcceptsExactlyEncodings(source, cap, [], out);
  }

  lemma StreamBody(body: Body)
    requires body == FixedBody(LiteralsOf(TEXT[..7]) + [MATCH])
    ensures LegalBody(body, [], 3) && ExpandBody(body, [], 3) == TEXT
    ensures Unpack(STREAM) == [true, true, false] + EncodeBody(body, [], 3)
  {
    hide FixedLiterals, FixedDistances, Word, EncodeToken, EncodeTokens, ExpandTokens, LegalTokens, LiteralsOf, Words, Unpack,
         HasCode, Codable;
    StreamTokens();
    MatchBits(TEXT[..7]);
    MatchWords();
    StreamBits(EncodeToken(FixedLiterals(), FixedDistances(), MATCH) + Word(FixedLiterals(), 256));
  }

  lemma OneFixedBlock(b: Body)
    requires b.FixedBody? && LegalBody(b, [], 3)
    ensures LegalBlocks([b], [], 0) && Expand([b], [], 0) == ExpandBody(b, [], 3)
    ensures Encode([b], [], 0) == [true, true, false] + EncodeBody(b, [], 3)
  {
    BlockHeader(true, b, [], 0);
    hide LegalBody, EncodeBody, ExpandBody;
    var bits := EncodeBlock(true, b, [], 0);
    assert bits[..3] == [true, true, false] && bits[3..] == EncodeBody(b, [], 3);
  }
}
