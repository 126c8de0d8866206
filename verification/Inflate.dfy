/** What a DEFLATE decoder is to do with a bit string, after sections 3.2.3 to 3.2.7 of
    RFC 1951, including every error the program reports and where it stops reading. */
module Inflate {
  import opened BitStrings
  import opened Huffman

  const MAXLCODES := 286
  const MAXDCODES := 30
  const FIXLCODES := 288
  const END_OF_BLOCK := 256

  /** Base lengths and extra bits of the length symbols 257..285. */
  const LENS: seq<nat> := [
    3, 4, 5, 6, 7, 8, 9, 10, 11, 13, 15, 17, 19, 23, 27, 31,
    35, 43, 51, 59, 67, 83, 99, 115, 131, 163, 195, 227, 258]
  const LEXT: seq<nat> := [
    0, 0, 0, 0, 0, 0, 0, 0, 1, 1, 1, 1, 2, 2, 2, 2,
    3, 3, 3, 3, 4, 4, 4, 4, 5, 5, 5, 5, 0]

  /** Base distances and extra bits of the distance symbols 0..29. */
  const DISTS: seq<nat> := [
    1, 2, 3, 4, 5, 7, 9, 13, 17, 25, 33, 49, 65, 97, 129, 193,
    257, 385, 513, 769, 1025, 1537, 2049, 3073, 4097, 6145,
    8193, 12289, 16385, 24577]
  const DEXT: seq<nat> := [
    0, 0, 0, 0, 1, 1, 2, 2, 3, 3, 4, 4, 5, 5, 6, 6,
    7, 7, 8, 8, 9, 9, 10, 10, 11, 11,
    12, 12, 13, 13]

  /** The order in which the code lengths of the code-length code are sent. */
  const ORDER: seq<nat> := [16, 17, 18, 0, 8, 7, 9, 6, 10, 5, 11, 4, 12, 3, 13, 2, 14, 1, 15]

  function Order(i: nat): (sym: nat)
    requires i < 19
    ensures sym < 19
  {
    ORDER[i]
  }

  /** The room for output: none is needed when the data is only scanned. */
  datatype Capacity = Unlimited | Limit(size: nat)

  predicate Fits(cap: Capacity, n: nat) {
    cap.Unlimited? || n <= cap.size
  }

  /** How decoding ends. The bits that are left tell how many bytes have been taken in. */
  datatype Outcome =
    | Done(rest: seq<bool>, out: seq<byte>)
    | Invalid(code: int, rest: seq<bool>, out: seq<byte>)
    | NeedInput(out: seq<byte>)
    | NeedOutput
    | OutOfBounds(out: seq<byte>)

  /** len bytes copied one by one from dist bytes back; the copy may reach into itself. */
  function CopyBack(out: seq<byte>, dist: nat, len: nat): (r: seq<byte>)
    requires 0 < dist <= |out|
    ensures |r| == |out| + len
    decreases len
  {
    if len == 0 then out else CopyBack(out + [out[|out| - dist]], dist, len - 1)
  }

  datatype PairRead =
    | Pair(len: nat, dist: nat, rest: seq<bool>)
    | PairNeedsInput
    | PairInvalid(rest: seq<bool>)

  /** The rest of a length/distance pair after its length symbol, number k of the 29. */
  ghost function ReadPair(k: nat, dl: seq<nat>, bits: seq<bool>): (p: PairRead)
    requires k < 29 && |dl| <= MAXDCODES
    ensures p.Pair? ==> |p.rest| <= |bits| && p.dist > 0
  {
    if |bits| < LEXT[k] then PairNeedsInput else
      match Decode(dl, bits[LEXT[k]..])
      case OutOfInput => PairNeedsInput
      case NoCode(rest) => PairInvalid(rest)
      case Symbol(d, rest) =>
        if |rest| < DEXT[d] then PairNeedsInput
        else Pair(LENS[k] + FromBits(bits[..LEXT[k]]), DISTS[d] + FromBits(rest[..DEXT[d]]), rest[DEXT[d]..])
  }

  /** The compressed data of a block, up to its end-of-block symbol. */
  ghost function Codes(ll: seq<nat>, dl: seq<nat>, bits: seq<bool>, out: seq<byte>, cap: Capacity): (o: Outcome)
    requires |dl| <= MAXDCODES
    ensures o.Done? ==> |o.rest| <= |bits|
    decreases |bits|
  {
    match Decode(ll, bits)
    case OutOfInput => NeedInput(out)
    case NoCode(rest) => Invalid(-9, rest, out)
    case Symbol(sym, rest) =>
      if sym < END_OF_BLOCK then
        if !Fits(cap, |out| + 1) then NeedOutput else Codes(ll, dl, rest, out + [sym], cap)
      else if sym == END_OF_BLOCK then Done(rest, out)
      else if sym - 257 >= 29 then Invalid(-9, rest, out)
      else
        match ReadPair(sym - 257, dl, rest)
        case PairNeedsInput => NeedInput(out)
        case PairInvalid(r) => Invalid(-9, r, out)
        case Pair(len, dist, r) =>
          if dist > |out| then Invalid(-10, r, out)
          else if !Fits(cap, |out| + len) then NeedOutput
          else Codes(ll, dl, r, CopyBack(out, dist, len), cap)
  }

  /** A stored block: what is left of the current byte is dropped first. */
  function Stored(bits: seq<bool>, out: seq<byte>, cap: Capacity): (o: Outcome)
    ensures o.Done? ==> |o.rest| <= |bits|
  {
    StoredBytes(bits[|bits| % 8..], out, cap)
  }

  function StoredBytes(b: seq<bool>, out: seq<byte>, cap: Capacity): (o: Outcome)
    ensures o.Done? ==> |o.rest| <= |b|
  {
    if |b| < 32 then NeedInput(out) else
      var len := FromBits(b[..16]);
      if FromBits(b[16..24]) != 255 - len % 256 then Invalid(-2, b[24..], out)
      else if FromBits(b[24..32]) != 255 - len / 256 % 256 then Invalid(-2, b[32..], out)
      else StoredData(b[32..], len, out, cap)
  }

  function StoredData(b: seq<bool>, len: nat, out: seq<byte>, cap: Capacity): (o: Outcome)
    ensures o.Done? ==> |o.rest| <= |b|
  {
    if |b| < 8 * len then NeedInput(out)
    else if !Fits(cap, |out| + len) then NeedOutput
    else Done(b[8 * len..], out + Pack(b[..8 * len]))
  }

  function FixedLiterals(): (l: seq<nat>)
    ensures |l| == FIXLCODES
  {
    seq(FIXLCODES, i => if i < 144 then 8 else if i < 256 then 9 else if i < 280 then 7 else 8)
  }

  function FixedDistances(): (l: seq<nat>)
    ensures |l| == MAXDCODES
  {
    seq(MAXDCODES, _ => 5)
  }

  ghost function Fixed(bits: seq<bool>, out: seq<byte>, cap: Capacity): (o: Outcome)
    ensures o.Done? ==> |o.rest| <= |bits|
  {
    Codes(FixedLiterals(), FixedDistances(), bits, out, cap)
  }

  /** The code-length code after k of its three-bit lengths; those not sent are zero. */
  function CodeLengthCode(bits: seq<bool>, k: nat): (cl: seq<nat>)
    requires k <= 19 && 3 * k <= |bits|
    ensures |cl| == 19
    ensures forall i :: 0 <= i < 19 ==> cl[i] < 8
  {
    if k == 0 then seq(19, _ => 0) else
      assert FromBits(bits[3 * (k - 1)..3 * k]) < Pow2(3) == 8;
      CodeLengthCode(bits, k - 1)[Order(k - 1) := FromBits(bits[3 * (k - 1)..3 * k])]
  }

  predicate Complete(lengths: seq<nat>) {
    LengthsOk(lengths) && KraftSum(lengths) == Pow2(MAXBITS)
  }

  datatype LengthsRead =
    | Lengths(lengths: seq<nat>, rest: seq<bool>)
    | LengthsNeedInput
    | LengthsInvalid(code: int, rest: seq<bool>)

  function Repeat(value: nat, n: nat): (s: seq<nat>)
    ensures |s| == n && forall i :: 0 <= i < n ==> s[i] == value
  {
    seq(n, _ => value)
  }

  /** A run of lengths: how long, and of which length. Symbols 16, 17 and 18 of section 3.2.7. */
  function RunBits(sym: nat): nat {
    if sym == 16 then 2 else if sym == 17 then 3 else 7
  }

  function RunBase(sym: nat): nat {
    if sym == 18 then 11 else 3
  }

  function RunLength(sym: nat, bits: seq<bool>): (n: nat)
    requires |bits| >= RunBits(sym)
    ensures n >= 3
  {
    RunBase(sym) + FromBits(bits[..RunBits(sym)])
  }

  function RunValue(sym: nat, acc: seq<nat>): nat
    requires sym == 16 ==> acc != []
  {
    if sym == 16 then acc[|acc| - 1] else 0
  }

  /** The code lengths of a dynamic block, n of them, of which those in acc have been read. */
  ghost function ReadLengths(cl: seq<nat>, bits: seq<bool>, acc: seq<nat>, n: nat): (r: LengthsRead)
    requires Complete(cl) && |cl| == 19 && |acc| <= n && LengthsOk(acc)
    ensures r.Lengths? ==> |r.lengths| == n && LengthsOk(r.lengths) && |r.rest| <= |bits|
    decreases |bits|
  {
    CompleteAlwaysDecodes(cl, bits);
    if |acc| == n then Lengths(acc, bits)
    else
      match Decode(cl, bits)
      case OutOfInput => LengthsNeedInput
      case Symbol(sym, rest) =>
        if sym < 16 then ReadLengths(cl, rest, acc + [sym], n)
        else if sym == 16 && acc == [] then LengthsInvalid(-5, rest)
        else if |rest| < RunBits(sym) then LengthsNeedInput
        else if |acc| + RunLength(sym, rest) > n then LengthsInvalid(-6, rest[RunBits(sym)..])
        else ReadLengths(cl, rest[RunBits(sym)..], acc + Repeat(RunValue(sym, acc), RunLength(sym, rest)), n)
  }

  /** The codes a dynamic block may not have: over-subscribed ones, and incomplete ones of more
      than one symbol. */
  predicate BadCode(lengths: seq<nat>) {
    Coded(lengths) > 0 &&
    (KraftSum(lengths) > Pow2(MAXBITS) || (KraftSum(lengths) < Pow2(MAXBITS) && Coded(lengths) != 1))
  }

  /** How many bytes an empty code-length code makes each of its failing decodes take in. */
  function BytesPerFailure(bits: seq<bool>): nat {
    if |bits| % 8 == 7 then 1 else 2
  }

  /** A dynamic block. An empty code-length code is let through, each length read is then -9, and
      with input enough for all of them the table builder is led out of its arrays. */
  ghost function Dynamic(bits: seq<bool>, out: seq<byte>, cap: Capacity): (o: Outcome)
    ensures o.Done? ==> |o.rest| <= |bits|
  {
    if |bits| < 14 then NeedInput(out) else
      var nlen := FromBits(bits[..5]) + 257;
      var ndist := FromBits(bits[5..10]) + 1;
      assert FromBits(bits[10..14]) < Pow2(4) == 16;
      var ncode := FromBits(bits[10..14]) + 4;
      if nlen > MAXLCODES || ndist > MAXDCODES then Invalid(-3, bits[14..], out)
      else if |bits[14..]| < 3 * ncode then NeedInput(out)
      else DynamicLengths(CodeLengthCode(bits[14..], ncode), nlen, ndist, bits[14..][3 * ncode..], out, cap)
  }

  ghost function DynamicLengths(cl: seq<nat>, nlen: nat, ndist: nat, bits: seq<bool>, out: seq<byte>, cap: Capacity)
    : (o: Outcome)
    requires |cl| == 19 && LengthsOk(cl) && ndist <= MAXDCODES
    ensures o.Done? ==> |o.rest| <= |bits|
  {
    if Coded(cl) == 0 then
      if |bits| / 8 < (nlen + ndist) * BytesPerFailure(bits) then NeedInput(out) else OutOfBounds(out)
    else if !Complete(cl) then Invalid(-4, bits, out)
    else
      match ReadLengths(cl, bits, [], nlen + ndist)
      case LengthsNeedInput => NeedInput(out)
      case LengthsInvalid(code, rest) => Invalid(code, rest, out)
      case Lengths(lengths, rest) =>
        if BadCode(lengths[..nlen]) then Invalid(-7, rest, out)
        else if BadCode(lengths[nlen..]) then Invalid(-8, rest, out)
        else Codes(lengths[..nlen], lengths[nlen..], rest, out, cap)
  }

  ghost function Block(kind: nat, bits: seq<bool>, out: seq<byte>, cap: Capacity): (o: Outcome)
    ensures o.Done? ==> |o.rest| <= |bits|
  {
    if kind == 0 then Stored(bits, out, cap)
    else if kind == 1 then Fixed(bits, out, cap)
    else if kind == 2 then Dynamic(bits, out, cap)
    else Invalid(-1, bits, out)
  }

  /** Blocks until the last one or an error. */
  ghost function Blocks(bits: seq<bool>, out: seq<byte>, cap: Capacity): (o: Outcome)
    decreases |bits|
  {
    if |bits| < 3 then NeedInput(out) else
      var o := Block(FromBits(bits[1..3]), bits[3..], out, cap);
      if o.Done? && !bits[0] then Blocks(o.rest, o.out, cap) else o
  }

  ghost function Decompress(source: seq<byte>, cap: Capacity): Outcome {
    Blocks(Unpack(source), [], cap)
  }

  /** One round of decoding a block's data. */
  lemma CodesStep(ll: seq<nat>, dl: seq<nat>, bits: seq<bool>, out: seq<byte>, cap: Capacity)
    requires |dl| <= MAXDCODES
    ensures
      var o := Codes(ll, dl, bits, out, cap);
      match Decode(ll, bits)
      case OutOfInput => o == NeedInput(out)
      case NoCode(rest) => o == Invalid(-9, rest, out)
      case Symbol(sym, rest) =>
        if sym < 256 then
          if !Fits(cap, |out| + 1) then o == NeedOutput else o == Codes(ll, dl, rest, out + [sym], cap)
        else if sym == 256 then o == Done(rest, out)
        else if sym - 257 >= 29 then o == Invalid(-9, rest, out)
        else
          match ReadPair(sym - 257, dl, rest)
          case PairNeedsInput => o == NeedInput(out)
          case PairInvalid(after) => o == Invalid(-9, after, out)
          case Pair(len, dist, after) =>
            if dist > |out| then o == Invalid(-10, after, out)
            else if !Fits(cap, |out| + len) then o == NeedOutput
            else o == Codes(ll, dl, after, CopyBack(out, dist, len), cap)
  {
    hide Decode, ReadPair, CopyBack;
  }

  /** One round of reading code lengths. */
  lemma LengthsStep(cl: seq<nat>, bits: seq<bool>, acc: seq<nat>, n: nat)
    requires Complete(cl) && |cl| == 19 && |acc| <= n && LengthsOk(acc)
    ensures !Decode(cl, bits).NoCode?
    ensures
      var o, d := ReadLengths(cl, bits, acc, n), Decode(cl, bits);
      if |acc| == n then o == Lengths(acc, bits)
      else if d.OutOfInput? then o == LengthsNeedInput
      else if d.sym < 16 then o == ReadLengths(cl, d.rest, acc + [d.sym], n)
      else if d.sym == 16 && acc == [] then o == LengthsInvalid(-5, d.rest)
      else if |d.rest| < RunBits(d.sym) then o == LengthsNeedInput
      else
        var run, after := RunLength(d.sym, d.rest), d.rest[RunBits(d.sym)..];
        if |acc| + run > n then o == LengthsInvalid(-6, after)
        else o == ReadLengths(cl, after, acc + Repeat(RunValue(d.sym, acc), run), n)
  {
    hide Decode, FromBits;
    CompleteAlwaysDecodes(cl, bits);
  }

  // ---- Stored blocks as bytes ----

  lemma FirstTwoBytes(src: seq<byte>)
    requires |src| >= 2
    ensures FromBits(Unpack(src)[..16]) == TwoBytes(src[0], src[1])
  {
    hide Unpack, FromBits;
    UnpackSlice(src, 0, 2);
    assert src[0..2] == [src[0], src[1]];
    FromBitsOfTwoBytes(src[0], src[1]);
    assert Unpack(src)[0..16] == Unpack(src)[..16];
  }

  lemma OneByte(src: seq<byte>, i: nat)
    requires i < |src|
    ensures FromBits(Unpack(src)[8 * i..8 * i + 8]) == src[i]
  {
    hide Unpack, FromBits;
    UnpackSlice(src, i, i + 1);
    assert src[i..i + 1] == [src[i]];
    FromBitsOfByte(src[i]);
  }

  /** The header of a stored block in terms of the bytes that follow the current one. */
  lemma StoredBlock(src: seq<byte>, out: seq<byte>, cap: Capacity)
    ensures
      var o := StoredBytes(Unpack(src), out, cap);
      if |src| < 4 then o == NeedInput(out) else
        var len := TwoBytes(src[0], src[1]);
        if src[2] != 255 - len % 256 then o == Invalid(-2, Unpack(src[3..]), out)
        else if src[3] != 255 - len / 256 % 256 then o == Invalid(-2, Unpack(src[4..]), out)
        else o == StoredData(Unpack(src[4..]), len, out, cap)
  {
    hide Unpack, FromBits, Pack, StoredData, TwoBytes;
    if |src| >= 4 {
      FirstTwoBytes(src);
      OneByte(src, 2);
      OneByte(src, 3);
      UnpackTail(src, 3);
      UnpackTail(src, 4);
    }
  }

  /** And its data. */
  lemma StoredBlockData(src: seq<byte>, len: nat, out: seq<byte>, cap: Capacity)
    ensures
      var o := StoredData(Unpack(src), len, out, cap);
      if |src| < len then o == NeedInput(out)
      else if !Fits(cap, |out| + len) then o == NeedOutput
      else o == Done(Unpack(src[len..]), out + src[..len])
  {
    hide Unpack, Pack;
    if |src| >= len {
      UnpackSplit(src, len);
      assert Unpack(src)[..8 * len] == Unpack(src[..len]);
      assert Unpack(src)[8 * len..] == Unpack(src[len..]);
      PackOfUnpack(src[..len]);
    }
  }

  // ---- The fixed codes ----

  lemma {:induction false} KraftOfRun(a: seq<nat>, v: nat, n: nat)
    requires 0 < v <= MAXBITS
    ensures KraftSum(a + Repeat(v, n)) == KraftSum(a) + n * Pow2(MAXBITS - v)
  {
    hide Pow2;
    var b := a + Repeat(v, n);
    if n == 0 {
      assert b == a;
    } else {
      KraftOfRun(a, v, n - 1);
      assert b[..|b| - 1] == a + Repeat(v, n - 1);
      var p := Pow2(MAXBITS - v);
      assert n * p == (n - 1) * p + p;
    }
  }

  /** The fixed literal/length code is complete, counting its two invalid symbols. */
  lemma FixedLiteralsComplete()
    ensures Complete(FixedLiterals())
  {
    FixedPowers();
    hide KraftSum, Pow2, FixedLiterals;
    NoKraft();
    var a := Repeat(8, 144);
    var b := a + Repeat(9, 112);
    var c := b + Repeat(7, 24);
    var d := c + Repeat(8, 8);
    assert [] + a == a;
    KraftOfRun([], 8, 144);
    KraftOfRun(a, 9, 112);
    KraftOfRun(b, 7, 24);
    KraftOfRun(c, 8, 8);
    FixedLiteralsAre();
  }

  lemma NoKraft()
    ensures KraftSum([]) == 0
  {
  }

  lemma FixedPowers()
    ensures Pow2(6) == 64 && Pow2(7) == 128 && Pow2(8) == 256 && Pow2(10) == 1024 && Pow2(MAXBITS) == 32768
  {
    assert Pow2(10) == 1024;
  }

  lemma FixedLiteralsAre()
    ensures FixedLiterals() == Repeat(8, 144) + Repeat(9, 112) + Repeat(7, 24) + Repeat(8, 8)
    ensures LengthsOk(FixedLiterals())
  {
  }

  /** The fixed distance code leaves two codes without a symbol. */
  lemma FixedDistancesFit()
    ensures LengthsOk(FixedDistances()) && NotOversubscribed(FixedDistances()) && !Complete(FixedDistances())
  {
    FixedPowers();
    hide KraftSum, Pow2;
    NoKraft();
    KraftOfRun([], 5, 30);
    assert [] + Repeat(5, 30) == FixedDistances();
  }

  // ---- The code-length code ----

  /** Where a symbol stands in ORDER. */
  function Position(sym: nat): (i: nat)
    requires sym < 19
    ensures i < 19 && Order(i) == sym
  {
    [3, 17, 15, 13, 11, 9, 7, 5, 4, 6, 8, 10, 12, 14, 16, 18, 0, 1, 2][sym]
  }

  lemma PositionOfOrder(i: nat)
    requires i < 19
    ensures Position(Order(i)) == i
  {
  }

  lemma OrderInjective(i: nat, j: nat)
    requires i < j < 19
    ensures Order(i) != Order(j)
  {
    hide Order, Position;
    PositionOfOrder(i);
    PositionOfOrder(j);
  }

  lemma {:induction false} NotSentIsZero(bits: seq<bool>, k: nat, i: nat)
    requires k <= i < 19 && 3 * k <= |bits|
    ensures CodeLengthCode(bits, k)[Order(i)] == 0
  {
    hide FromBits, Order, Position;
    if k > 0 {
      NotSentIsZero(bits, k - 1, i);
      OrderInjective(k - 1, i);
    }
  }
}
