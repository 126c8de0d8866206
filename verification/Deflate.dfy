/** The encodings section 3.2 of RFC 1951 allows, and the proof that the decoder accepts exactly
    these and inverts every one of them. An encoding keeps every choice a compressor has: block
    kinds, padding, codes, the run-length coding of code lengths, and how a length is spelled. */
module Deflate {
  import opened BitStrings
  import opened Huffman
  import opened Inflate

  datatype Token =
    | Literal(b: byte)
    | Match(lsym: nat, lextra: nat, dsym: nat, dextra: nat)

  /** The length and the distance of a match whose symbols are in range. */
  predicate InRange(t: Token) {
    t.Match? ==> t.lsym < 29 && t.lextra < Pow2(LEXT[t.lsym]) && t.dsym < 30 && t.dextra < Pow2(DEXT[t.dsym])
  }

  function Length(t: Token): nat
    requires t.Match? && InRange(t)
  {
    LENS[t.lsym] + t.lextra
  }

  function Distance(t: Token): (d: nat)
    requires t.Match? && InRange(t)
    ensures d > 0
  {
    DISTS[t.dsym] + t.dextra
  }

  predicate HasCode(lengths: seq<nat>, sym: nat) {
    sym < |lengths| && lengths[sym] > 0
  }

  /** The token can be written in these codes. */
  predicate Codable(ll: seq<nat>, dl: seq<nat>, t: Token) {
    match t
    case Literal(b) => HasCode(ll, b)
    case Match(l, _, d, _) => InRange(t) && HasCode(ll, 257 + l) && HasCode(dl, d)
  }

  function EncodeToken(ll: seq<nat>, dl: seq<nat>, t: Token): seq<bool>
    requires Codable(ll, dl, t)
  {
    match t
    case Literal(b) => Word(ll, b)
    case Match(l, lextra, d, dextra) =>
      Word(ll, 257 + l) + (ToBits(lextra, LEXT[l]) + (Word(dl, d) + ToBits(dextra, DEXT[d])))
  }

  /** A match must not reach back before the start of the output. */
  predicate Reaches(out: seq<byte>, t: Token) {
    t.Match? ==> InRange(t) && Distance(t) <= |out|
  }

  /** What a token appends to the output. */
  function Apply(out: seq<byte>, t: Token): (r: seq<byte>)
    requires Reaches(out, t)
    ensures |r| >= |out|
  {
    match t
    case Literal(b) => out + [b]
    case Match(_, _, _, _) => CopyBack(out, Distance(t), Length(t))
  }

  predicate LegalTokens(ll: seq<nat>, dl: seq<nat>, tokens: seq<Token>, out: seq<byte>)
    decreases |tokens|
  {
    tokens != [] ==>
      Codable(ll, dl, tokens[0]) && Reaches(out, tokens[0]) && LegalTokens(ll, dl, tokens[1..], Apply(out, tokens[0]))
  }

  /** The tokens' code words, closed by the end-of-block word. */
  function EncodeTokens(ll: seq<nat>, dl: seq<nat>, tokens: seq<Token>, out: seq<byte>): seq<bool>
    requires HasCode(ll, END_OF_BLOCK) && LegalTokens(ll, dl, tokens, out)
    decreases |tokens|
  {
    if tokens == [] then Word(ll, END_OF_BLOCK)
    else EncodeToken(ll, dl, tokens[0]) + EncodeTokens(ll, dl, tokens[1..], Apply(out, tokens[0]))
  }

  function ExpandTokens(ll: seq<nat>, dl: seq<nat>, tokens: seq<Token>, out: seq<byte>): (r: seq<byte>)
    requires LegalTokens(ll, dl, tokens, out)
    ensures |r| >= |out|
    decreases |tokens|
  {
    if tokens == [] then out else ExpandTokens(ll, dl, tokens[1..], Apply(out, tokens[0]))
  }

  // ---- Tokens round trip ----

  lemma PairOfMatch(dl: seq<nat>, t: Token, tail: seq<bool>)
    requires t.Match? && InRange(t) && HasCode(dl, t.dsym)
    requires LengthsOk(dl) && NotOversubscribed(dl) && |dl| <= MAXDCODES
    ensures ReadPair(t.lsym, dl, ToBits(t.lextra, LEXT[t.lsym]) + (Word(dl, t.dsym) + (ToBits(t.dextra, DEXT[t.dsym]) + tail)))
         == Pair(Length(t), Distance(t), tail)
  {
    hide Decode, ToBits, FromBits, Pow2, Word, KraftSum;
    var lbits, dbits := ToBits(t.lextra, LEXT[t.lsym]), ToBits(t.dextra, DEXT[t.dsym]);
    var after := Word(dl, t.dsym) + (dbits + tail);
    var bits := lbits + after;
    assert bits[..LEXT[t.lsym]] == lbits && bits[LEXT[t.lsym]..] == after;
    FromBitsOfToBits(t.lextra, LEXT[t.lsym]);
    FromBitsOfToBits(t.dextra, DEXT[t.dsym]);
    DecodeOfWord(dl, t.dsym, dbits + tail);
    assert (dbits + tail)[..DEXT[t.dsym]] == dbits && (dbits + tail)[DEXT[t.dsym]..] == tail;
  }

  lemma CodesOfLiteral(ll: seq<nat>, dl: seq<nat>, b: byte, tail: seq<bool>, out: seq<byte>, cap: Capacity)
    requires LengthsOk(ll) && NotOversubscribed(ll) && |dl| <= MAXDCODES && HasCode(ll, b) && Fits(cap, |out| + 1)
    ensures Codes(ll, dl, Word(ll, b) + tail, out, cap) == Codes(ll, dl, tail, out + [b], cap)
  {
    hide Codes, Decode, Word, KraftSum;
    CodesStep(ll, dl, Word(ll, b) + tail, out, cap);
    DecodeOfWord(ll, b, tail);
  }

  lemma CodesOfMatch(ll: seq<nat>, dl: seq<nat>, k: nat, after: seq<bool>, tail: seq<bool>, len: nat, dist: nat,
                     out: seq<byte>, cap: Capacity)
    requires LengthsOk(ll) && NotOversubscribed(ll) && |dl| <= MAXDCODES && k < 29 && HasCode(ll, 257 + k)
    requires ReadPair(k, dl, after) == Pair(len, dist, tail) && 0 < dist <= |out| && Fits(cap, |out| + len)
    ensures Codes(ll, dl, Word(ll, 257 + k) + after, out, cap) == Codes(ll, dl, tail, CopyBack(out, dist, len), cap)
  {
    hide Codes, Decode, Word, KraftSum, ReadPair, CopyBack;
    CodesStep(ll, dl, Word(ll, 257 + k) + after, out, cap);
    DecodeOfWord(ll, 257 + k, after);
  }

  /** One token read back. */
  lemma CodesOfToken(ll: seq<nat>, dl: seq<nat>, t: Token, tail: seq<bool>, out: seq<byte>, cap: Capacity)
    requires LengthsOk(ll) && NotOversubscribed(ll) && LengthsOk(dl) && NotOversubscribed(dl) && |dl| <= MAXDCODES
    requires Codable(ll, dl, t) && Reaches(out, t) && Fits(cap, |Apply(out, t)|)
    ensures Codes(ll, dl, EncodeToken(ll, dl, t) + tail, out, cap) == Codes(ll, dl, tail, Apply(out, t), cap)
  {
    hide Codes, Decode, ToBits, Pow2, Word, KraftSum, CopyBack, ReadPair;
    match t {
      case Literal(b) =>
        CodesOfLiteral(ll, dl, b, tail, out, cap);
      case Match(l, lextra, d, dextra) =>
        var lbits, dbits := ToBits(lextra, LEXT[l]), ToBits(dextra, DEXT[d]);
        var after := lbits + (Word(dl, d) + (dbits + tail));
        assert EncodeToken(ll, dl, t) + tail == Word(ll, 257 + l) + after;
        PairOfMatch(dl, t, tail);
        CodesOfMatch(ll, dl, l, after, tail, Length(t), Distance(t), out, cap);
    }
  }

  lemma {:induction false} ExpandGrows(ll: seq<nat>, dl: seq<nat>, tokens: seq<Token>, out: seq<byte>)
    requires LegalTokens(ll, dl, tokens, out) && tokens != []
    ensures |Apply(out, tokens[0])| <= |ExpandTokens(ll, dl, tokens, out)|
  {
  }

  /** Decoding undoes the encoding of a block's tokens, whatever follows. */
  lemma {:induction false} CodesOfTokens(ll: seq<nat>, dl: seq<nat>, tokens: seq<Token>, tail: seq<bool>, out: seq<byte>, cap: Capacity)
    requires LengthsOk(ll) && NotOversubscribed(ll) && LengthsOk(dl) && NotOversubscribed(dl) && |dl| <= MAXDCODES
    requires HasCode(ll, END_OF_BLOCK) && LegalTokens(ll, dl, tokens, out)
    requires Fits(cap, |ExpandTokens(ll, dl, tokens, out)|)
    ensures Codes(ll, dl, EncodeTokens(ll, dl, tokens, out) + tail, out, cap)
         == Done(tail, ExpandTokens(ll, dl, tokens, out))
    decreases |tokens|
  {
    hide Decode, KraftSum, Apply, EncodeToken, Word, Codable, Reaches;
    if tokens == [] {
      DecodeOfWord(ll, END_OF_BLOCK, tail);
    } else {
      hide Codes;
      var next := Apply(out, tokens[0]);
      var rest := EncodeTokens(ll, dl, tokens[1..], next) + tail;
      assert EncodeTokens(ll, dl, tokens, out) + tail == EncodeToken(ll, dl, tokens[0]) + rest;
      ExpandGrows(ll, dl, tokens, out);
      CodesOfToken(ll, dl, tokens[0], rest, out, cap);
      CodesOfTokens(ll, dl, tokens[1..], tail, next, cap);
    }
  }

  // ---- And what is decoded was encoded ----

  lemma MatchOfPair(k: nat, dl: seq<nat>, bits: seq<bool>) returns (t: Token)
    requires k < 29 && |dl| <= MAXDCODES && ReadPair(k, dl, bits).Pair?
    ensures t.Match? && t.lsym == k && InRange(t) && HasCode(dl, t.dsym)
    ensures var p := ReadPair(k, dl, bits);
            Length(t) == p.len && Distance(t) == p.dist &&
            bits == ToBits(t.lextra, LEXT[k]) + (Word(dl, t.dsym) + (ToBits(t.dextra, DEXT[t.dsym]) + p.rest))
  {
    hide Decode, ToBits, FromBits, Pow2, Word;
    var lbits, after := bits[..LEXT[k]], bits[LEXT[k]..];
    WordOfDecode(dl, after);
    var Symbol(d, rest) := Decode(dl, after);
    var dbits := rest[..DEXT[d]];
    ToBitsOfFromBits(lbits);
    ToBitsOfFromBits(dbits);
    t := Match(k, FromBits(lbits), d, FromBits(dbits));
    assert rest == dbits + rest[DEXT[d]..];
    assert bits == lbits + after;
  }

  /** The first token of decoded data. */
  lemma FirstToken(ll: seq<nat>, dl: seq<nat>, bits: seq<bool>, out: seq<byte>, cap: Capacity) returns (t: Token, tail: seq<bool>)
    requires |dl| <= MAXDCODES && Codes(ll, dl, bits, out, cap).Done?
    requires Decode(ll, bits).Symbol? && Decode(ll, bits).sym != END_OF_BLOCK
    ensures Codable(ll, dl, t) && Reaches(out, t) && Fits(cap, |Apply(out, t)|)
    ensures bits == EncodeToken(ll, dl, t) + tail && |tail| < |bits|
    ensures Codes(ll, dl, bits, out, cap) == Codes(ll, dl, tail, Apply(out, t), cap)
  {
    hide Codes, Decode, Word, ReadPair, CopyBack, ToBits, Pow2;
    CodesStep(ll, dl, bits, out, cap);
    WordOfDecode(ll, bits);
    var Symbol(sym, rest) := Decode(ll, bits);
    if sym < END_OF_BLOCK {
      t, tail := Literal(sym), rest;
    } else {
      t := MatchOfPair(sym - 257, dl, rest);
      tail := ReadPair(sym - 257, dl, rest).rest;
      assert bits == EncodeToken(ll, dl, t) + tail;
    }
  }

  /** Data that decodes is the encoding of legal tokens, and the output is their expansion. */
  lemma {:induction false} TokensOfCodes(ll: seq<nat>, dl: seq<nat>, bits: seq<bool>, out: seq<byte>, cap: Capacity)
    returns (tokens: seq<Token>)
    requires |dl| <= MAXDCODES && Codes(ll, dl, bits, out, cap).Done? && Fits(cap, |out|)
    ensures HasCode(ll, END_OF_BLOCK) && LegalTokens(ll, dl, tokens, out)
    ensures var o := Codes(ll, dl, bits, out, cap);
            bits == EncodeTokens(ll, dl, tokens, out) + o.rest && o.out == ExpandTokens(ll, dl, tokens, out)
            && Fits(cap, |o.out|)
    decreases |bits|
  {
    hide Decode, Word, ReadPair, CopyBack, Codable, Reaches, Apply, EncodeToken;
    if Decode(ll, bits).sym == END_OF_BLOCK {
      WordOfDecode(ll, bits);
      tokens := [];
    } else {
      hide Codes;
      var t, tail := FirstToken(ll, dl, bits, out, cap);
      var ts := TokensOfCodes(ll, dl, tail, Apply(out, t), cap);
      tokens := [t] + ts;
      assert tokens[1..] == ts;
    }
  }
}
