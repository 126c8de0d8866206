/** Whole DEFLATE streams: block headers, the run-length coded code lengths of dynamic blocks,
    stored blocks, and the theorem that puff's specification accepts exactly the encodings. */
module DeflateBlocks {
  import opened BitStrings
  import opened Huffman
  import opened Inflate
  import opened Deflate

  // ---- Code lengths, run-length coded (section 3.2.7) ----

  datatype Instr =
    | One(len: nat)
    | Run(sym: nat, extra: nat)

  predicate LegalInstr(cl: seq<nat>, i: Instr, acc: seq<nat>, n: nat) {
    match i
    case One(len) => len < 16 && HasCode(cl, len) && |acc| < n
    case Run(sym, extra) =>
      && 16 <= sym <= 18 && HasCode(cl, sym) && extra < Pow2(RunBits(sym))
      && (sym == 16 ==> acc != []) && |acc| + RunBase(sym) + extra <= n
  }

  function EncodeInstr(cl: seq<nat>, i: Instr): seq<bool>
    requires HasCode(cl, if i.One? then i.len else i.sym)
  {
    match i
    case One(len) => Word(cl, len)
    case Run(sym, extra) => Word(cl, sym) + ToBits(extra, RunBits(sym))
  }

  function ApplyInstr(i: Instr, acc: seq<nat>): (r: seq<nat>)
    requires i.Run? && i.sym == 16 ==> acc != []
    ensures |r| > |acc|
  {
    match i
    case One(len) => acc + [len]
    case Run(sym, extra) => acc + Repeat(RunValue(sym, acc), RunBase(sym) + extra)
  }

  predicate LegalInstrs(cl: seq<nat>, instrs: seq<Instr>, acc: seq<nat>, n: nat)
    decreases |instrs|
  {
    if instrs == [] then |acc| == n
    else LegalInstr(cl, instrs[0], acc, n) && LegalInstrs(cl, instrs[1..], ApplyInstr(instrs[0], acc), n)
  }

  function EncodeInstrs(cl: seq<nat>, instrs: seq<Instr>, acc: seq<nat>, n: nat): seq<bool>
    requires LegalInstrs(cl, instrs, acc, n)
    decreases |instrs|
  {
    if instrs == [] then [] else EncodeInstr(cl, instrs[0]) + EncodeInstrs(cl, instrs[1..], ApplyInstr(instrs[0], acc), n)
  }

  function ExpandInstrs(cl: seq<nat>, instrs: seq<Instr>, acc: seq<nat>, n: nat): (r: seq<nat>)
    requires LegalInstrs(cl, instrs, acc, n)
    ensures |r| == n
    decreases |instrs|
  {
    if instrs == [] then acc else ExpandInstrs(cl, instrs[1..], ApplyInstr(instrs[0], acc), n)
  }

  lemma LengthsOfInstr(cl: seq<nat>, i: Instr, tail: seq<bool>, acc: seq<nat>, n: nat)
    requires Complete(cl) && |cl| == 19 && |acc| <= n && LengthsOk(acc) && LegalInstr(cl, i, acc, n)
    ensures LengthsOk(ApplyInstr(i, acc)) && |ApplyInstr(i, acc)| <= n
    ensures ReadLengths(cl, EncodeInstr(cl, i) + tail, acc, n) == ReadLengths(cl, tail, ApplyInstr(i, acc), n)
  {
    hide Decode, Word, KraftSum, ToBits, FromBits;
    match i {
      case One(len) =>
        DecodeOfWord(cl, len, tail);
      case Run(sym, extra) =>
        var ebits := ToBits(extra, RunBits(sym));
        assert EncodeInstr(cl, i) + tail == Word(cl, sym) + (ebits + tail);
        DecodeOfWord(cl, sym, ebits + tail);
        FromBitsOfToBits(extra, RunBits(sym));
        assert (ebits + tail)[..RunBits(sym)] == ebits && (ebits + tail)[RunBits(sym)..] == tail;
    }
  }

  /** The code lengths come back from their instructions. */
  lemma {:induction false} LengthsOfInstrs(cl: seq<nat>, instrs: seq<Instr>, tail: seq<bool>, acc: seq<nat>, n: nat)
    requires Complete(cl) && |cl| == 19 && |acc| <= n && LengthsOk(acc) && LegalInstrs(cl, instrs, acc, n)
    ensures ReadLengths(cl, EncodeInstrs(cl, instrs, acc, n) + tail, acc, n) == Lengths(ExpandInstrs(cl, instrs, acc, n), tail)
    decreases |instrs|
  {
    hide Decode, KraftSum, EncodeInstr, ApplyInstr, Complete, HasCode;
    if instrs == [] {
      assert [] + tail == tail;
    } else {
      hide ReadLengths;
      var next := ApplyInstr(instrs[0], acc);
      var rest := EncodeInstrs(cl, instrs[1..], next, n) + tail;
      assert EncodeInstrs(cl, instrs, acc, n) + tail == EncodeInstr(cl, instrs[0]) + rest;
      LengthsOfInstr(cl, instrs[0], rest, acc, n);
      LengthsOfInstrs(cl, instrs[1..], tail, next, n);
    }
  }

  lemma FirstInstr(cl: seq<nat>, bits: seq<bool>, acc: seq<nat>, n: nat) returns (i: Instr, tail: seq<bool>)
    requires Complete(cl) && |cl| == 19 && |acc| < n && LengthsOk(acc)
    requires ReadLengths(cl, bits, acc, n).Lengths?
    ensures LegalInstr(cl, i, acc, n) && LengthsOk(ApplyInstr(i, acc))
    ensures bits == EncodeInstr(cl, i) + tail && |tail| < |bits| && |ApplyInstr(i, acc)| <= n
    ensures ReadLengths(cl, bits, acc, n) == ReadLengths(cl, tail, ApplyInstr(i, acc), n)
  {
    hide ReadLengths, Decode, Word, KraftSum, ToBits, FromBits;
    LengthsStep(cl, bits, acc, n);
    WordOfDecode(cl, bits);
    var Symbol(sym, rest) := Decode(cl, bits);
    if sym < 16 {
      i, tail := One(sym), rest;
    } else {
      var ebits := rest[..RunBits(sym)];
      ToBitsOfFromBits(ebits);
      i, tail := Run(sym, FromBits(ebits)), rest[RunBits(sym)..];
      assert rest == ebits + tail;
      assert bits == EncodeInstr(cl, i) + tail;
    }
  }

  lemma {:induction false} InstrsOfLengths(cl: seq<nat>, bits: seq<bool>, acc: seq<nat>, n: nat) returns (instrs: seq<Instr>)
    requires Complete(cl) && |cl| == 19 && |acc| <= n && LengthsOk(acc)
    requires ReadLengths(cl, bits, acc, n).Lengths?
    ensures LegalInstrs(cl, instrs, acc, n)
    ensures var r := ReadLengths(cl, bits, acc, n);
            bits == EncodeInstrs(cl, instrs, acc, n) + r.rest && r.lengths == ExpandInstrs(cl, instrs, acc, n)
    decreases |bits|
  {
    hide Decode, KraftSum, EncodeInstr, ApplyInstr, Complete, HasCode;
    if |acc| == n {
      instrs := [];
      assert bits == [] + bits;
    } else {
      hide ReadLengths;
      var i, tail := FirstInstr(cl, bits, acc, n);
      var rest := InstrsOfLengths(cl, tail, ApplyInstr(i, acc), n);
      instrs := [i] + rest;
      assert instrs[1..] == rest;
    }
  }

  // ---- The code-length code ----

  /** The code-length code's lengths, in the order they are sent; the rest are zero. */
  function SentCode(sent: seq<nat>): (cl: seq<nat>)
    requires |sent| <= 19
    ensures |cl| == 19
  {
    seq(19, s requires 0 <= s < 19 => if Position(s) < |sent| then sent[Position(s)] else 0)
  }

  function SendLengths(sent: seq<nat>): (b: seq<bool>)
    ensures |b| == 3 * |sent|
  {
    if sent == [] then [] else SendLengths(sent[..|sent| - 1]) + ToBits(sent[|sent| - 1], 3)
  }

  predicate Threebit(sent: seq<nat>) {
    forall i :: 0 <= i < |sent| ==> sent[i] < 8
  }

  lemma SentCodeNext(sent: seq<nat>, v: nat)
    requires |sent| < 19
    ensures SentCode(sent + [v]) == SentCode(sent)[Order(|sent|) := v]
  {
    hide Order, Position;
    PositionOfOrder(|sent|);
    forall s | 0 <= s < 19 ensures SentCode(sent + [v])[s] == SentCode(sent)[Order(|sent|) := v][s] {
      assert Order(Position(s)) == s;
    }
  }

  lemma CodeLengthCodeNext(bits: seq<bool>, k: nat, three: seq<bool>)
    requires 0 < k <= 19 && 3 * k <= |bits| && bits[3 * (k - 1)..3 * k] == three
    ensures FromBits(three) < 8
    ensures CodeLengthCode(bits, k) == CodeLengthCode(bits, k - 1)[Order(k - 1) := FromBits(three)]
  {
    hide FromBits, Order;
    assert Pow2(3) == 8;
  }

  lemma {:induction false} CodeOfSent(sent: seq<nat>, tail: seq<bool>)
    requires |sent| <= 19 && Threebit(sent)
    ensures CodeLengthCode(SendLengths(sent) + tail, |sent|) == SentCode(sent)
  {
    hide FromBits, ToBits, Order, Position;
    if sent == [] {
      assert SentCode([]) == seq(19, _ => 0);
    } else {
      var k := |sent|;
      var init, last := sent[..k - 1], sent[k - 1];
      var bits := SendLengths(sent) + tail;
      var three := ToBits(last, 3);
      CodeOfSent(init, three + tail);
      assert bits == SendLengths(init) + (three + tail);
      assert Pow2(3) == 8;
      FromBitsOfToBits(last, 3);
      CodeLengthCodeNext(bits, k, three);
      SentCodeNext(init, last);
      assert init + [last] == sent;
    }
  }

  lemma {:induction false} SentOfBits(bits: seq<bool>, k: nat) returns (sent: seq<nat>)
    requires 3 * k <= |bits|
    ensures |sent| == k && Threebit(sent) && SendLengths(sent) == bits[..3 * k]
  {
    hide FromBits, ToBits;
    if k == 0 {
      sent := [];
    } else {
      var init := SentOfBits(bits, k - 1);
      var three := bits[3 * (k - 1)..3 * k];
      assert FromBits(three) < Pow2(3) == 8;
      ToBitsOfFromBits(three);
      sent := init + [FromBits(three)];
      assert sent[..k - 1] == init;
      assert bits[..3 * k] == bits[..3 * (k - 1)] + three;
    }
  }

  // ---- Blocks ----

  datatype Header = Header(nlen: nat, ndist: nat, sent: seq<nat>, instrs: seq<Instr>)

  datatype Body =
    | StoredBody(pad: seq<bool>, data: seq<byte>)
    | FixedBody(tokens: seq<Token>)
    | DynamicBody(header: Header, tokens: seq<Token>)

  /** The header describes a complete code-length code and, in it, all the code lengths. */
  predicate Readable(h: Header) {
    && 257 <= h.nlen <= MAXLCODES && 1 <= h.ndist <= MAXDCODES
    && 4 <= |h.sent| <= 19 && Threebit(h.sent)
    && Complete(SentCode(h.sent))
    && LegalInstrs(SentCode(h.sent), h.instrs, [], h.nlen + h.ndist)
  }

  function CodeLengths(h: Header): (r: seq<nat>)
    requires Readable(h)
    ensures |r| == h.nlen + h.ndist
  {
    ExpandInstrs(SentCode(h.sent), h.instrs, [], h.nlen + h.ndist)
  }

  function Literals(h: Header): (r: seq<nat>)
    requires Readable(h)
    ensures |r| == h.nlen <= MAXLCODES
  {
    CodeLengths(h)[..h.nlen]
  }

  function Distances(h: Header): (r: seq<nat>)
    requires Readable(h)
    ensures |r| == h.ndist <= MAXDCODES
  {
    CodeLengths(h)[h.nlen..]
  }

  predicate LegalHeader(h: Header) {
    Readable(h) && !BadCode(Literals(h)) && !BadCode(Distances(h))
  }

  function InstrBits(h: Header): seq<bool>
    requires Readable(h)
  {
    EncodeInstrs(SentCode(h.sent), h.instrs, [], h.nlen + h.ndist)
  }

  function EncodeHeader(h: Header): seq<bool>
    requires Readable(h)
  {
    ToBits(h.nlen - 257, 5) + (ToBits(h.ndist - 1, 5) + (ToBits(|h.sent| - 4, 4) + (SendLengths(h.sent) + InstrBits(h))))
  }

  function Kind(b: Body): nat {
    match b
    case StoredBody(_, _) => 0
    case FixedBody(_) => 1
    case DynamicBody(_, _) => 2
  }

  /** The bytes of a stored block: its length, the complement of the length, the data. */
  function StoredBytesOf(data: seq<byte>): seq<byte>
    requires |data| < 65536
  {
    [|data| % 256, |data| / 256, 255 - |data| % 256, 255 - |data| / 256] + data
  }

  /** A block's data may stand pos bits into the stream and after out bytes of output. */
  predicate LegalBody(b: Body, out: seq<byte>, pos: nat) {
    match b
    case StoredBody(pad, data) => (pos + |pad|) % 8 == 0 && |pad| < 8 && |data| < 65536
    case FixedBody(tokens) => LegalTokens(FixedLiterals(), FixedDistances(), tokens, out)
    case DynamicBody(h, tokens) =>
      LegalHeader(h) && HasCode(Literals(h), END_OF_BLOCK) && LegalTokens(Literals(h), Distances(h), tokens, out)
  }

  function EncodeBody(b: Body, out: seq<byte>, pos: nat): seq<bool>
    requires LegalBody(b, out, pos)
  {
    match b
    case StoredBody(pad, data) => pad + Unpack(StoredBytesOf(data))
    case FixedBody(tokens) => EncodeTokens(FixedLiterals(), FixedDistances(), tokens, out)
    case DynamicBody(h, tokens) => EncodeHeader(h) + EncodeTokens(Literals(h), Distances(h), tokens, out)
  }

  function ExpandBody(b: Body, out: seq<byte>, pos: nat): (r: seq<byte>)
    requires LegalBody(b, out, pos)
    ensures |r| >= |out|
  {
    match b
    case StoredBody(pad, data) => out + data
    case FixedBody(tokens) => ExpandTokens(FixedLiterals(), FixedDistances(), tokens, out)
    case DynamicBody(h, tokens) => ExpandTokens(Literals(h), Distances(h), tokens, out)
  }

  // ---- Stored blocks ----

  /** Dropping the bits up to the byte boundary drops exactly the padding. */
  lemma PaddingDropped(pad: nat, pos: nat, len: nat)
    requires (pos + pad) % 8 == 0 && pad < 8 && (pos + len) % 8 == 0
    ensures len % 8 == pad
  {
    assert (len - pad) % 8 == ((pos + len) - (pos + pad)) % 8 == 0;
  }

  lemma StoredRoundTrip(pad: seq<bool>, data: seq<byte>, tail: seq<bool>, out: seq<byte>, pos: nat, cap: Capacity)
    requires (pos + |pad|) % 8 == 0 && |pad| < 8 && |data| < 65536
    requires (pos + |pad| + |Unpack(StoredBytesOf(data)) + tail|) % 8 == 0 && Fits(cap, |out + data|)
    ensures Stored(pad + Unpack(StoredBytesOf(data)) + tail, out, cap) == Done(tail, out + data)
  {
    hide Unpack, Pack, StoredBytes, StoredData;
    var bits := pad + Unpack(StoredBytesOf(data)) + tail;
    PaddingDropped(|pad|, pos, |bits|);
    var src := StoredBytesOf(data) + Pack(tail);
    UnpackOfPack(tail);
    UnpackJoin(StoredBytesOf(data), Pack(tail));
    assert bits[|pad|..] == Unpack(src);
    StoredBlock(src, out, cap);
    assert src[4..] == data + Pack(tail);
    StoredBlockData(data + Pack(tail), |data|, out, cap);
    assert (data + Pack(tail))[..|data|] == data && (data + Pack(tail))[|data|..] == Pack(tail);
  }

  lemma StoredWasEncoded(bits: seq<bool>, out: seq<byte>, pos: nat, cap: Capacity) returns (b: Body)
    requires Stored(bits, out, cap).Done? && (pos + |bits|) % 8 == 0
    ensures b.StoredBody? && LegalBody(b, out, pos)
    ensures var o := Stored(bits, out, cap);
            bits == EncodeBody(b, out, pos) + o.rest && o.out == ExpandBody(b, out, pos) && Fits(cap, |o.out|)
  {
    hide Unpack, Pack, StoredBytes, StoredBytesOf;
    var pad := bits[..|bits| % 8];
    var src := Pack(bits[|bits| % 8..]);
    UnpackOfPack(bits[|bits| % 8..]);
    assert bits == pad + Unpack(src);
    var data := StoredBytesWere(src, out, cap);
    b := StoredBody(pad, data);
    ToNextByte(pos, |bits|);
    assert bits == EncodeBody(b, out, pos) + StoredBytes(Unpack(src), out, cap).rest;
  }

  lemma ToNextByte(pos: nat, n: nat)
    requires (pos + n) % 8 == 0
    ensures (pos + n % 8) % 8 == 0
  {
  }

  lemma StoredBytesWere(src: seq<byte>, out: seq<byte>, cap: Capacity) returns (data: seq<byte>)
    requires StoredBytes(Unpack(src), out, cap).Done?
    ensures |data| < 65536
    ensures var o := StoredBytes(Unpack(src), out, cap);
            Unpack(src) == Unpack(StoredBytesOf(data)) + o.rest && o.out == out + data && Fits(cap, |o.out|)
  {
    hide Unpack, StoredBytes, StoredData;
    StoredBlock(src, out, cap);
    var len := TwoBytes(src[0], src[1]);
    StoredBlockData(src[4..], len, out, cap);
    data := src[4..][..len];
    UnpackSplit(src, 4 + len);
    assert src[..4 + len] == StoredBytesOf(data);
    assert src[4 + len..] == src[4..][len..];
  }

  // ---- Fixed and dynamic blocks ----

  lemma GoodCodeFits(lengths: seq<nat>)
    requires LengthsOk(lengths) && !BadCode(lengths)
    ensures NotOversubscribed(lengths)
  {
    if Coded(lengths) == 0 {
      EmptyCode(lengths);
    }
  }

  lemma CompleteHasCodes(lengths: seq<nat>)
    requires Complete(lengths)
    ensures Coded(lengths) > 0
  {
    if Coded(lengths) == 0 {
      EmptyCode(lengths);
    }
  }

  lemma FixedRoundTrip(tokens: seq<Token>, tail: seq<bool>, out: seq<byte>, cap: Capacity)
    requires LegalTokens(FixedLiterals(), FixedDistances(), tokens, out)
    requires Fits(cap, |ExpandTokens(FixedLiterals(), FixedDistances(), tokens, out)|)
    ensures Fixed(EncodeTokens(FixedLiterals(), FixedDistances(), tokens, out) + tail, out, cap)
         == Done(tail, ExpandTokens(FixedLiterals(), FixedDistances(), tokens, out))
  {
    hide Codes, EncodeTokens, ExpandTokens, LegalTokens, KraftSum;
    FixedLiteralsComplete();
    FixedDistancesFit();
    CodesOfTokens(FixedLiterals(), FixedDistances(), tokens, tail, out, cap);
  }

  lemma {:induction false} ExpandedLengthsOk(cl: seq<nat>, instrs: seq<Instr>, acc: seq<nat>, n: nat)
    requires |cl| == 19 && LengthsOk(acc) && LegalInstrs(cl, instrs, acc, n)
    ensures LengthsOk(ExpandInstrs(cl, instrs, acc, n))
    decreases |instrs|
  {
    if instrs != [] {
      ExpandedLengthsOk(cl, instrs[1..], ApplyInstr(instrs[0], acc), n);
    }
  }

  lemma HeaderCodesFit(h: Header)
    requires LegalHeader(h)
    ensures LengthsOk(Literals(h)) && NotOversubscribed(Literals(h))
    ensures LengthsOk(Distances(h)) && NotOversubscribed(Distances(h))
  {
    hide Complete, BadCode, KraftSum, ExpandInstrs, SentCode, LegalInstrs;
    ExpandedLengthsOk(SentCode(h.sent), h.instrs, [], h.nlen + h.ndist);
    GoodCodeFits(Literals(h));
    GoodCodeFits(Distances(h));
  }

  /** The three counts and what follows them. */
  lemma HeaderCounts(nlen: nat, ndist: nat, ncode: nat, rest: seq<bool>)
    requires 257 <= nlen <= MAXLCODES && 1 <= ndist <= MAXDCODES && 4 <= ncode <= 19
    ensures var bits := ToBits(nlen - 257, 5) + (ToBits(ndist - 1, 5) + (ToBits(ncode - 4, 4) + rest));
            |bits| >= 14 && FromBits(bits[..5]) == nlen - 257 && FromBits(bits[5..10]) == ndist - 1
            && FromBits(bits[10..14]) == ncode - 4 && bits[14..] == rest
  {
    hide ToBits, FromBits;
    assert Pow2(5) == 32 && Pow2(4) == 16;
    FromBitsOfToBits(nlen - 257, 5);
    FromBitsOfToBits(ndist - 1, 5);
    FromBitsOfToBits(ncode - 4, 4);
    var bits := ToBits(nlen - 257, 5) + (ToBits(ndist - 1, 5) + (ToBits(ncode - 4, 4) + rest));
    assert bits[..5] == ToBits(nlen - 257, 5) && bits[5..10] == ToBits(ndist - 1, 5) && bits[10..14] == ToBits(ncode - 4, 4);
  }

  lemma HeaderLengths(h: Header, data: seq<bool>)
    requires Readable(h)
    ensures ReadLengths(SentCode(h.sent), InstrBits(h) + data, [], h.nlen + h.ndist)
         == Lengths(CodeLengths(h), data)
    ensures Coded(SentCode(h.sent)) > 0
  {
    hide ReadLengths, KraftSum, Coded, EncodeInstrs, LegalInstrs, ExpandInstrs, SentCode;
    LengthsOfInstrs(SentCode(h.sent), h.instrs, data, [], h.nlen + h.ndist);
    CompleteHasCodes(SentCode(h.sent));
  }

  /** A dynamic header is read as the code lengths it describes. */
  lemma HeaderRead(h: Header, data: seq<bool>, out: seq<byte>, cap: Capacity)
    requires Readable(h)
    ensures Dynamic(EncodeHeader(h) + data, out, cap) ==
      DynamicLengths(SentCode(h.sent), h.nlen, h.ndist, InstrBits(h) + data, out, cap)
  {
    hide ToBits, FromBits, KraftSum, Coded, InstrBits, LegalInstrs, SentCode, SendLengths, CodeLengthCode, DynamicLengths;
    var instrs := InstrBits(h);
    var rest := SendLengths(h.sent) + (instrs + data);
    assert EncodeHeader(h) + data
        == ToBits(h.nlen - 257, 5) + (ToBits(h.ndist - 1, 5) + (ToBits(|h.sent| - 4, 4) + rest));
    HeaderCounts(h.nlen, h.ndist, |h.sent|, rest);
    CodeOfSent(h.sent, instrs + data);
    assert rest[3 * |h.sent|..] == instrs + data;
  }

  lemma HeaderRoundTrip(h: Header, data: seq<bool>, out: seq<byte>, cap: Capacity)
    requires LegalHeader(h)
    ensures Dynamic(EncodeHeader(h) + data, out, cap) == Codes(Literals(h), Distances(h), data, out, cap)
  {
    hide Dynamic, EncodeHeader, Codes, ReadLengths, KraftSum, Coded, BadCode, InstrBits, LegalInstrs, ExpandInstrs,
         SentCode, CodeLengths;
    HeaderRead(h, data, out, cap);
    HeaderLengths(h, data);
  }

  lemma DynamicRoundTrip(h: Header, tokens: seq<Token>, tail: seq<bool>, out: seq<byte>, cap: Capacity)
    requires LegalHeader(h) && HasCode(Literals(h), END_OF_BLOCK)
    requires LegalTokens(Literals(h), Distances(h), tokens, out)
    requires Fits(cap, |ExpandTokens(Literals(h), Distances(h), tokens, out)|)
    ensures Dynamic(EncodeHeader(h) + EncodeTokens(Literals(h), Distances(h), tokens, out) + tail, out, cap)
         == Done(tail, ExpandTokens(Literals(h), Distances(h), tokens, out))
  {
    hide Codes, Dynamic, Readable, EncodeHeader, EncodeTokens, ExpandTokens, LegalTokens, KraftSum, Literals, Distances;
    var data := EncodeTokens(Literals(h), Distances(h), tokens, out);
    assert EncodeHeader(h) + data + tail == EncodeHeader(h) + (data + tail);
    HeaderRoundTrip(h, data + tail, out, cap);
    HeaderCodesFit(h);
    CodesOfTokens(Literals(h), Distances(h), tokens, tail, out, cap);
  }

  lemma HeaderOfBits(bits: seq<bool>, out: seq<byte>, cap: Capacity) returns (h: Header, data: seq<bool>)
    requires Dynamic(bits, out, cap).Done?
    ensures LegalHeader(h) && bits == EncodeHeader(h) + data
    ensures Dynamic(bits, out, cap) == Codes(Literals(h), Distances(h), data, out, cap)
  {
    hide ToBits, FromBits, KraftSum, Coded, BadCode, EncodeInstrs, ExpandInstrs, LegalInstrs, SentCode, SendLengths, CodeLengthCode,
         Codes, ReadLengths;
    assert Pow2(5) == 32 && Pow2(4) == 16;
    var nlen, ndist := FromBits(bits[..5]) + 257, FromBits(bits[5..10]) + 1;
    var ncode := FromBits(bits[10..14]) + 4;
    var b := bits[14..];
    var sent := SentOfBits(b, ncode);
    var after := b[3 * ncode..];
    assert b == SendLengths(sent) + after;
    CodeOfSent(sent, after);
    var instrs := InstrsOfLengths(SentCode(sent), after, [], nlen + ndist);
    h := Header(nlen, ndist, sent, instrs);
    data := ReadLengths(SentCode(sent), after, [], nlen + ndist).rest;
    ToBitsOfFromBits(bits[..5]);
    ToBitsOfFromBits(bits[5..10]);
    ToBitsOfFromBits(bits[10..14]);
    SixParts(bits, SendLengths(sent), InstrBits(h), data);
  }

  lemma SixParts(bits: seq<bool>, lengths: seq<bool>, instrs: seq<bool>, data: seq<bool>)
    requires |bits| >= 14 && bits[14..] == lengths + (instrs + data)
    ensures bits == (bits[..5] + (bits[5..10] + (bits[10..14] + (lengths + instrs)))) + data
  {
    assert bits == bits[..5] + (bits[5..10] + (bits[10..14] + bits[14..]));
  }
}
