/** src/puff.cpp as it stands: bit buffer, both decoders, block loops and output buffer are
    updated in place, and every function is proved against the module Inflate. A longjmp out
    of the bit reader is a result; a null output pointer is the scanning mode. */
module Puff {
  import opened BitStrings
  import opened Huffman
  import opened HuffmanTables
  import Spec = Inflate

  /** Stands for the table builder leaving its arrays, which has no return code. */
  const OUT_OF_BOUNDS := 100

  class State {
    const input: array<byte>
    const inlen: nat
    const output: array?<byte>
    const outlen: nat
    var outcnt: nat
    var incnt: nat
    var bitbuf: nat
    var bitcnt: nat
    ghost var produced: seq<byte>

    ghost predicate Valid()
      reads this, input, output
    {
      && incnt <= inlen <= input.Length
      && bitcnt < 8 && bitbuf < Pow2(bitcnt)
      && Written()
    }

    /** In writing mode the output so far is in the buffer; in scanning mode it is only counted. */
    ghost predicate Written()
      reads this`outcnt, this`produced, output
    {
      && outcnt == |produced|
      && (output != null ==> output != input && outcnt <= outlen <= output.Length && output[..outcnt] == produced)
    }

    /** The bits not read yet. */
    ghost function Bits(): seq<bool>
      reads this, input
      requires incnt <= inlen <= input.Length
    {
      ToBits(bitbuf, bitcnt) + Unpack(input[incnt..inlen])
    }

    ghost function Cap(): Spec.Capacity {
      if output == null then Spec.Unlimited else Spec.Limit(outlen)
    }

    /** What a return code says about the outcome the bits call for. */
    ghost predicate Agrees(r: int, o: Spec.Outcome)
      reads this, input, output
    {
      match o
      case Done(rest, out) => r == 0 && Valid() && Bits() == rest && produced == out
      case Invalid(code, rest, out) => r == code < 0 && Written() && produced == out && incnt == inlen - |rest| / 8
      case NeedInput(_) => r == 2
      case NeedOutput => r == 1
      case OutOfBounds(_) => r == OUT_OF_BOUNDS
    }

    constructor (input: array<byte>, inlen: nat, output: array?<byte>, outlen: nat)
      requires inlen <= input.Length
      requires output != null ==> output != input && outlen <= output.Length
      ensures Valid() && produced == [] && Bits() == Unpack(input[..inlen])
      ensures this.input == input && this.inlen == inlen && this.output == output && this.outlen == outlen
    {
      this.input, this.inlen, this.output, this.outlen := input, inlen, output, outlen;
      outcnt, incnt, bitbuf, bitcnt, produced := 0, 0, 0, 0, [];
      new;
      assert input[0..inlen] == input[..inlen];
      assert ToBits(0, 0) == [];
    }

    lemma LoadByte(val: nat, cnt: nat)
      requires incnt < inlen <= input.Length && val < Pow2(cnt)
      ensures val + Shl(input[incnt], cnt) < Pow2(cnt + 8)
      ensures ToBits(val + Shl(input[incnt], cnt), cnt + 8) + Unpack(input[incnt + 1..inlen])
           == ToBits(val, cnt) + Unpack(input[incnt..inlen])
    {
      var rest := input[incnt..inlen];
      assert rest[0] == input[incnt] && rest[1..] == input[incnt + 1..inlen];
      AppendByte(val, cnt, input[incnt], Unpack(rest[1..]));
    }

    /** bits: need bits, least significant first, or a jump out when the input ends. */
    method ReadBits(need: nat) returns (ok: bool, v: nat)
      requires Valid()
      modifies this`incnt, this`bitbuf, this`bitcnt
      ensures ok <==> |old(Bits())| >= need
      ensures ok ==> Valid() && v == FromBits(old(Bits())[..need]) && Bits() == old(Bits())[need..]
    {
      hide Pow2, ToBits, Unpack, FromBits, Shr, Low, Shl;
      ghost var all := Bits();
      var val: nat := bitbuf;
      while bitcnt < need
        invariant incnt <= inlen && val < Pow2(bitcnt)
        invariant bitcnt < 8 || bitcnt < need + 8
        invariant ToBits(val, bitcnt) + Unpack(input[incnt..inlen]) == all
        decreases need - bitcnt
      {
        if incnt == inlen { return false, 0; }
        LoadByte(val, bitcnt);
        val := val + Shl(input[incnt], bitcnt);
        incnt := incnt + 1;
        bitcnt := bitcnt + 8;
      }
      TakeBits(val, need, bitcnt - need, Unpack(input[incnt..inlen]), all);
      bitbuf := Shr(val, need);
      bitcnt := bitcnt - need;
      return true, Low(val, need);
    }

    /** decode, the plain one. */
    method DecodeSlow(h: Tables, ghost lengths: seq<nat>) returns (ok: bool, r: int)
      requires Valid() && Describe(h, lengths)
      modifies this`incnt, this`bitbuf, this`bitcnt
      ensures ok <==> !Huffman.Decode(lengths, old(Bits())).OutOfInput?
      ensures ok ==> Valid() && Bits() == Huffman.Decode(lengths, old(Bits())).rest
      ensures ok ==> var d := Huffman.Decode(lengths, old(Bits())); r == if d.Symbol? then d.sym else -9
    {
      hide Huffman.Decode, Searching, Pow2, ToBits, Unpack, FromBits, KraftSum, Coded, Table, Count;
      ghost var all := Bits();
      var code: nat, first: nat, index: nat := 0, 0, 0;
      assert all[0..] == all;
      StartSearching(lengths, all);
      for len := 1 to MAXBITS + 1
        invariant Valid() && Searching(lengths, all, len, code, first, index)
        invariant len - 1 <= |all|
        invariant Bits() == all[len - 1..]
      {
        var more, b := ReadBits(1);
        if !more {
          RanOutOfBits(lengths, all, len, code, first, index);
          return false, 0;
        }
        OneBit(all[len - 1..]);
        assert b == Bit(all[len - 1]) && Bits() == all[len..];
        WalkStep(h, lengths, all, len, code, first, index);
        code := code + b;
        var count := h.count[len];
        if code < first + count {
          return true, h.symbol[index + (code - first)];
        }
        index := index + count;
        first := first + count;
        first := first * 2;
        code := code * 2;
      }
      WalkedAllLengths(lengths, all, code, first, index);
      return true, -9;
    }

    /** The copy of the bit buffer holds avail bits, and they and the bytes from taken on are what
        is left of all once len - 1 bits have been used. */
    ghost predicate Holding(buf: nat, avail: nat, taken: nat, all: seq<bool>, len: nat)
      reads input
    {
      && taken <= inlen <= input.Length
      && 1 <= len && len - 1 <= |all|
      && |all| - (len - 1) == avail + 8 * (inlen - taken)
      && buf < Pow2(avail)
      && ToBits(buf, avail) + Unpack(input[taken..inlen]) == all[len - 1..]
    }

    lemma UseBit(buf: nat, avail: nat, taken: nat, all: seq<bool>, len: nat)
      requires Holding(buf, avail, taken, all, len) && avail > 0
      ensures len <= |all| && buf % 2 == Bit(all[len - 1])
      ensures Holding(buf / 2, avail - 1, taken, all, len + 1)
    {
      DropBit(buf, avail, Unpack(input[taken..inlen]), all[len - 1..]);
      assert all[len - 1..][1..] == all[len..];
    }

    lemma FillBuffer(taken: nat, all: seq<bool>, len: nat, buf: nat)
      requires Holding(buf, 0, taken, all, len) && taken < inlen
      ensures Holding(input[taken], 8, taken + 1, all, len)
    {
      assert Pow2(8) == 256;
      var bytes := input[taken..inlen];
      assert bytes[0] == input[taken] && bytes[1..] == input[taken + 1..inlen];
      assert ToBits(buf, 0) == [];
    }

    /** The fast decoder between two bits: left bits may be looked at before the next byte. */
    ghost predicate Looking(lengths: seq<nat>, all: seq<bool>, cnt: nat, buf: nat, avail: nat, left: nat, taken: nat,
                            len: nat, code: nat, first: nat, index: nat)
      reads input
    {
      && Searching(lengths, all, len, code, first, index)
      && Holding(buf, avail, taken, all, len)
      && left <= avail <= 7 + left && avail <= 8 && len + left <= MAXBITS + 1
      && (left == avail || len + left == MAXBITS + 1)
      && (cnt + 1 - len - avail) % 8 == 0
    }

    /** A bit looked at: the symbol found and the buffer to write back, or the state after it. */
    lemma LookAtBit(h: Tables, lengths: seq<nat>, all: seq<bool>, cnt: nat, buf: nat, avail: nat, left: nat, taken: nat,
                    len: nat, code: nat, first: nat, index: nat)
      requires Describe(h, lengths) && left > 0
      requires Looking(lengths, all, cnt, buf, avail, left, taken, len, code, first, index)
      ensures len <= MAXBITS
      ensures var c, count := code + buf % 2, h.count[len];
              if c < first + count then
                && 0 <= index + (c - first) < h.symbol.Length && h.symbol[index + (c - first)] >= 0
                && Huffman.Decode(lengths, all) == Symbol(h.symbol[index + (c - first)], all[len..])
                && buf / 2 < Pow2((cnt - len) % 8)
                && ToBits(buf / 2, (cnt - len) % 8) + Unpack(input[taken..inlen]) == all[len..]
              else
                && count >= 0
                && Looking(lengths, all, cnt, buf / 2, avail - 1, left - 1, taken, len + 1,
                           2 * c, 2 * (first + count), index + count)
    {
      hide Huffman.Decode, Searching, CodeValue, KraftSum, Coded, Table, Count, ToBits, Unpack, Pow2, FromBits, NextCode, Start;
      Modulo8(cnt - len, avail - 1);
      UseBit(buf, avail, taken, all, len);
      WalkStep(h, lengths, all, len, code, first, index);
    }

    /** No bit left to look at: the next byte is needed, or every length has been tried. */
    lemma LookNowhere(lengths: seq<nat>, all: seq<bool>, cnt: nat, buf: nat, avail: nat, taken: nat,
                      len: nat, code: nat, first: nat, index: nat)
      requires Looking(lengths, all, cnt, buf, avail, 0, taken, len, code, first, index) && LengthsOk(lengths)
      ensures len <= MAXBITS && taken == inlen ==> Huffman.Decode(lengths, all) == Huffman.OutOfInput
      ensures len <= MAXBITS && taken < inlen ==>
        Looking(lengths, all, cnt, input[taken], 8, if MAXBITS + 1 - len > 8 then 8 else MAXBITS + 1 - len, taken + 1,
                len, code, first, index)
      ensures len == MAXBITS + 1 ==>
        Huffman.Decode(lengths, all) == NoCode(all[MAXBITS..]) && taken == inlen - |all[MAXBITS..]| / 8
    {
      hide Huffman.Decode, Searching, CodeValue;
      if len == MAXBITS + 1 {
        WalkedAllLengths(lengths, all, code, first, index);
      } else if taken == inlen {
        RanOutOfBits(lengths, all, len, code, first, index);
      } else {
        FillBuffer(taken, all, len, buf);
      }
    }

    /** decode, the fast one, which works on a copy of the bit buffer. When no code matches, the
        bytes looked at stay taken in but the bit buffer is not written back. */
    method Decode(h: Tables, ghost lengths: seq<nat>) returns (ok: bool, r: int)
      requires Valid() && Describe(h, lengths)
      modifies this`incnt, this`bitbuf, this`bitcnt
      ensures ok <==> !Huffman.Decode(lengths, old(Bits())).OutOfInput?
      ensures ok ==> Valid()
      ensures ok ==> match Huffman.Decode(lengths, old(Bits()))
                     case Symbol(sym, rest) => r == sym && Bits() == rest
                     case NoCode(rest) => r == -9 && bitbuf == old(bitbuf) && bitcnt == old(bitcnt)
                                          && incnt == inlen - |rest| / 8
                     case OutOfInput => true
    {
      hide Huffman.Decode, Looking, Pow2, ToBits, Unpack, FromBits, KraftSum, Coded, Table, Count;
      ghost var all := Bits();
      var buf: nat, left: nat := bitbuf, bitcnt;
      ghost var avail: nat := bitcnt;
      var len: nat, code: nat, first: nat, index: nat := 1, 0, 0, 0;
      StartLooking(lengths);
      while true
        invariant incnt <= inlen && bitbuf == old(bitbuf) && bitcnt == old(bitcnt)
        invariant left <= avail && 1 <= len <= MAXBITS + 1
        invariant Looking(lengths, all, bitcnt, buf, avail, left, incnt, len, code, first, index)
        decreases inlen - incnt
      {
        ghost var taken := incnt;
        while left > 0
          invariant incnt == taken && bitbuf == old(bitbuf) && bitcnt == old(bitcnt)
          invariant left <= avail && 1 <= len <= MAXBITS + 1
          invariant Looking(lengths, all, bitcnt, buf, avail, left, incnt, len, code, first, index)
          decreases left
        {
          LookAtBit(h, lengths, all, bitcnt, buf, avail, left, incnt, len, code, first, index);
          left := left - 1;
          code := code + buf % 2;
          buf, avail := buf / 2, avail - 1;
          var count := h.count[len];
          if code < first + count {
            bitbuf := buf;
            bitcnt := (bitcnt - len) % 8;
            return true, h.symbol[index + (code - first)];
          }
          index := index + count;
          first := first + count;
          first := first * 2;
          code := code * 2;
          len := len + 1;
        }
        LookNowhere(lengths, all, bitcnt, buf, avail, incnt, len, code, first, index);
        left := MAXBITS + 1 - len;
        if left == 0 { break; }
        if incnt == inlen { return false, 0; }
        buf := input[incnt];
        incnt, avail := incnt + 1, 8;
        if left > 8 { left := 8; }
      }
      return true, -9;
    }

    /** Dropping the bits left of the current byte leaves the bytes not taken in. */
    lemma ByteAligned()
      requires Valid()
      ensures Bits()[|Bits()| % 8..] == Unpack(input[incnt..inlen])
    {
      Modulo8(|Bits()|, bitcnt);
    }

    /** stored: the bytes of a stored block are copied after its length has been checked. */
    method Stored() returns (r: int)
      requires Valid()
      modifies this, output
      ensures Agrees(r, Spec.Stored(old(Bits()), old(produced), Cap()))
    {
      hide Unpack, FromBits, Pack, ToBits, Spec.StoredBytes, Spec.StoredData, TwoBytes;
      ghost var src, out := input[incnt..inlen], produced;
      ByteAligned();
      Spec.StoredBlock(src, out, Cap());
      bitbuf := 0;
      bitcnt := 0;
      if incnt + 4 > inlen { return 2; }
      var len := TwoBytes(input[incnt], input[incnt + 1]);
      incnt := incnt + 3;
      if input[incnt - 1] != 255 - len % 256 { return -2; }
      incnt := incnt + 1;
      if input[incnt - 1] != 255 - len / 256 % 256 { return -2; }
      assert input[incnt..inlen] == src[4..];
      r := StoredCopy(len);
    }

    method StoredCopy(len: nat) returns (r: int)
      requires Valid() && bitbuf == 0 && bitcnt == 0
      modifies this, output
      ensures Agrees(r, Spec.StoredData(old(Unpack(input[incnt..inlen])), len, old(produced), Cap()))
    {
      hide Unpack, Pack, ToBits, Spec.StoredData;
      ghost var src, out := input[incnt..inlen], produced;
      Spec.StoredBlockData(src, len, out, Cap());
      if incnt + len <= inlen {
        SubSlice(input, incnt, len, inlen);
      }
      if incnt + len > inlen { return 2; }
      if output != null {
        if outcnt + len > outlen { return 1; }
        CopyStored(len);
      } else {
        produced := produced + input[incnt..incnt + len];
        outcnt := outcnt + len;
        incnt := incnt + len;
      }
      assert input[incnt - len..incnt] == src[..len];
      assert input[incnt..inlen] == src[len..];
      NoBits(Unpack(input[incnt..inlen]));
      return 0;
    }

    method CopyStored(len: nat)
      requires Valid() && output != null && incnt + len <= inlen && outcnt + len <= outlen
      modifies this`outcnt, this`incnt, this`produced, output
      ensures Valid() && incnt == old(incnt) + len
      ensures produced == old(produced) + input[old(incnt)..incnt]
    {
      var left := len;
      while left > 0
        invariant 0 <= left <= len && incnt == old(incnt) + (len - left) && outcnt == old(outcnt) + (len - left)
        invariant Valid() && produced == old(produced) + input[old(incnt)..incnt]
      {
        output[outcnt] := input[incnt];
        assert output[..outcnt] == produced;
        assert output[..outcnt + 1] == output[..outcnt] + [input[incnt]];
        assert input[old(incnt)..incnt + 1] == input[old(incnt)..incnt] + [input[incnt]];
        produced := produced + [input[incnt]];
        outcnt, incnt, left := outcnt + 1, incnt + 1, left - 1;
      }
    }

    lemma StartLooking(lengths: seq<nat>)
      requires Valid()
      ensures Looking(lengths, Bits(), bitcnt, bitbuf, bitcnt, bitcnt, incnt, 1, 0, 0, 0)
    {
      assert Bits()[0..] == Bits();
      StartSearching(lengths, Bits());
    }

    /** The length and the distance of a match, after its length symbol, number k of the 29. */
    method ReadPair(k: nat, distcode: Tables, ghost dl: seq<nat>) returns (r: int, len: nat, dist: nat)
      requires k < 29 && |dl| <= Spec.MAXDCODES
      requires Valid() && Describe(distcode, dl)
      modifies this`incnt, this`bitbuf, this`bitcnt
      ensures match Spec.ReadPair(k, dl, old(Bits()))
              case PairNeedsInput => r == 2
              case PairInvalid(rest) => r == -9 && incnt == inlen - |rest| / 8
              case Pair(l, d, rest) => r == 0 && Valid() && Bits() == rest && len == l && dist == d > 0
    {
      hide Huffman.Decode, Pow2, ToBits, Unpack, FromBits, Describe;
      len, dist := 0, 0;
      var ok, extra := ReadBits(Spec.LEXT[k]);
      if !ok { return 2, 0, 0; }
      len := Spec.LENS[k] + extra;
      var more, symbol := Decode(distcode, dl);
      if !more { return 2, len, 0; }
      if symbol < 0 { return symbol, len, 0; }
      ok, extra := ReadBits(Spec.DEXT[symbol]);
      if !ok { return 2, len, 0; }
      dist := Spec.DISTS[symbol] + extra;
      return 0, len, dist;
    }

    /** The copy of a match: byte by byte, so that it may run into what it has just written. */
    method CopyMatch(len: nat, dist: nat)
      requires Valid() && 0 < dist <= outcnt && Spec.Fits(Cap(), outcnt + len)
      modifies this`outcnt, this`produced, output
      ensures Valid() && produced == Spec.CopyBack(old(produced), dist, len)
    {
      if output != null {
        var left := len;
        while left > 0
          invariant 0 <= left <= len && Valid() && outcnt == old(outcnt) + (len - left)
          invariant Spec.CopyBack(produced, dist, left) == Spec.CopyBack(old(produced), dist, len)
        {
          WriteByte(output[outcnt - dist]);
          left := left - 1;
        }
      } else {
        outcnt := outcnt + len;
        produced := Spec.CopyBack(produced, dist, len);
      }
    }

    method WriteByte(b: byte)
      requires Valid() && Spec.Fits(Cap(), outcnt + 1)
      modifies this`outcnt, this`produced, output
      ensures Valid() && produced == old(produced) + [b]
    {
      if output != null {
        output[outcnt] := b;
        assert output[..outcnt] == produced;
        assert output[..outcnt + 1] == output[..outcnt] + [b];
      }
      outcnt, produced := outcnt + 1, produced + [b];
    }

    /** codes: literals and matches up to the end-of-block symbol. */
    method Codes(lencode: Tables, distcode: Tables, ghost ll: seq<nat>, ghost dl: seq<nat>) returns (r: int)
      requires Valid() && Describe(lencode, ll) && Describe(distcode, dl) && |dl| <= Spec.MAXDCODES
      requires Apart(lencode) && Apart(distcode)
      modifies this, output
      ensures Agrees(r, Spec.Codes(ll, dl, old(Bits()), old(produced), Cap()))
    {
      hide Spec.Codes, Spec.ReadPair, Huffman.Decode, Describe, Pow2, ToBits, Unpack, FromBits, Spec.CopyBack;
      ghost var target := Spec.Codes(ll, dl, Bits(), produced, Cap());
      while true
        invariant Valid() && Describe(lencode, ll) && Describe(distcode, dl)
        invariant Spec.Codes(ll, dl, Bits(), produced, Cap()) == target
        decreases |Bits()|
      {
        Spec.CodesStep(ll, dl, Bits(), produced, Cap());
        ghost var before := Bits();
        var ok, symbol := Decode(lencode, ll);
        if !ok { return 2; }
        if symbol < 0 { return symbol; }
        if symbol < 256 {
          if output != null && outcnt == outlen { return 1; }
          WriteByte(symbol);
        } else if symbol > 256 {
          symbol := symbol - 257;
          if symbol >= 29 { return -9; }
          var err, len, dist := ReadPair(symbol, distcode, dl);
          if err != 0 { return err; }
          if dist > outcnt { return -10; }
          if output != null && outcnt + len > outlen { return 1; }
          CopyMatch(len, dist);
        } else {
          return 0;
        }
      }
    }

    /** fixed: a block in the fixed codes. The tables, which the program builds once, are built
        for each block here. */
    method Fixed() returns (r: int)
      requires Valid()
      modifies this, output
      ensures Agrees(r, Spec.Fixed(old(Bits()), old(produced), Cap()))
    {
      hide Spec.Codes, Pow2, ToBits, Unpack, KraftSum, Coded, Describe, Table;
      var lencode, distcode := FixedTables();
      r := Codes(lencode, distcode, Spec.FixedLiterals(), Spec.FixedDistances());
    }

    /** dynamic: a block that brings its own codes. */
    method Dynamic() returns (r: int)
      requires Valid()
      modifies this, output
      ensures Agrees(r, Spec.Dynamic(old(Bits()), old(produced), Cap()))
    {
      hide FromBits, Pow2, ToBits, Unpack, KraftSum, Coded, Spec.DynamicLengths, Spec.CodeLengthCode;
      ghost var bits, out := Bits(), produced;
      var ok, nlen, ndist, ncode := ReadHeader();
      if !ok { return 2; }
      if nlen > Spec.MAXLCODES || ndist > Spec.MAXDCODES { return -3; }
      var lengths := new int[Spec.MAXLCODES + Spec.MAXDCODES];
      ok := ReadCodeLengthCode(lengths, ncode);
      if !ok { return 2; }
      r := DynamicLengths(lengths, nlen, ndist, Spec.CodeLengthCode(bits[14..], ncode));
    }

    /** Lines 646-649: the three counts. */
    method ReadHeader() returns (ok: bool, nlen: nat, ndist: nat, ncode: nat)
      requires Valid()
      modifies this`incnt, this`bitbuf, this`bitcnt
      ensures ok <==> |old(Bits())| >= 14
      ensures ok ==> Valid() && Bits() == old(Bits())[14..]
      ensures ok ==> nlen == FromBits(old(Bits())[..5]) + 257 && ndist == FromBits(old(Bits())[5..10]) + 1
      ensures ok ==> ncode == FromBits(old(Bits())[10..14]) + 4 <= 19
    {
      hide FromBits, Pow2, ToBits, Unpack;
      ghost var bits := Bits();
      ok, nlen := ReadBits(5);
      if !ok { return false, 0, 0, 0; }
      nlen := nlen + 257;
      ok, ndist := ReadBits(5);
      if !ok { return false, 0, 0, 0; }
      ndist := ndist + 1;
      ok, ncode := ReadBits(4);
      if !ok { return false, 0, 0, 0; }
      ncode := ncode + 4;
      FourBits(bits[5..][5..][..4]);
      assert bits[5..][..5] == bits[5..10] && bits[5..][5..][..4] == bits[10..14] && bits[5..][5..][4..] == bits[14..];
    }

    method ReadCodeLengthCode(lengths: array<int>, ncode: nat) returns (ok: bool)
      requires Valid() && ncode <= 19 <= lengths.Length && lengths as object != output as object?
      modifies this`incnt, this`bitbuf, this`bitcnt, lengths
      ensures ok <==> |old(Bits())| >= 3 * ncode
      ensures ok ==> Valid() && Bits() == old(Bits())[3 * ncode..]
      ensures ok ==> lengths[..19] == Spec.CodeLengthCode(old(Bits()), ncode)
    {
      hide FromBits, Pow2, ToBits, Unpack, Sent, Spec.CodeLengthCode, Spec.Order;
      ghost var bits := Bits();
      assert bits == bits[0..];
      NothingSent(lengths[..], bits);
      for index := 0 to ncode
        invariant Valid() && 3 * index <= |bits| && Bits() == bits[3 * index..]
        invariant Sent(lengths[..], bits, index, index)
      {
        var more, v := ReadBits(3);
        if !more { return false; }
        SendOne(lengths[..], bits, index, v);
        ghost var before := lengths[..];
        lengths[Spec.Order(index)] := v;
        assert lengths[..] == before[Spec.Order(index) := v];
      }
      for index := ncode to 19
        invariant Valid() && Bits() == bits[3 * ncode..]
        invariant Sent(lengths[..], bits, ncode, index)
      {
        SendZero(lengths[..], bits, ncode, index);
        ghost var before := lengths[..];
        lengths[Spec.Order(index)] := 0;
        assert lengths[..] == before[Spec.Order(index) := 0];
      }
      AllSent(lengths[..], bits, ncode);
      assert lengths[..][..19] == lengths[..19];
      ok := true;
    }

    method DynamicLengths(lengths: array<int>, nlen: nat, ndist: nat, ghost cl: seq<nat>) returns (r: int)
      requires Valid() && lengths as object != output as object? && lengths.Length == Spec.MAXLCODES + Spec.MAXDCODES
      requires 0 < nlen <= Spec.MAXLCODES && ndist <= Spec.MAXDCODES
      requires |cl| == 19 && LengthsOk(cl) && lengths[..19] == cl
      modifies this, output, lengths
      ensures Agrees(r, Spec.DynamicLengths(cl, nlen, ndist, old(Bits()), old(produced), Cap()))
    {
      hide Spec.ReadLengths, Spec.Codes, Pow2, ToBits, Unpack, KraftSum, Coded, Table, Counted, Describe, Spec.BytesPerFailure, Spec.BadCode;
      ghost var bits, out := Bits(), produced;
      var lencode := NewTables(Spec.MAXLCODES);
      var distcode := NewTables(Spec.MAXDCODES);
      assert lengths[0..0 + 19] == cl;
      var err := Construct(lencode, lengths, 0, 19);
      if err != 0 { return -4; }
      assert Coded(cl) == 0 || Spec.Complete(cl);
      r := ReadLengths(lencode, lengths, nlen + ndist, cl);
      if r != 0 { return r; }
      if lengths[0] < 0 { return OUT_OF_BOUNDS; }
      r := DynamicCodes(lencode, distcode, lengths, nlen, ndist);
    }

    /** Lines 663-688: the code lengths of both codes in one run-length coded list. */
    method ReadLengths(h: Tables, lengths: array<int>, n: nat, ghost cl: seq<nat>) returns (r: int)
      requires Valid() && Describe(h, cl) && |cl| == 19 && LengthsOk(cl) && 0 < n <= lengths.Length
      requires Coded(cl) == 0 || Spec.Complete(cl)
      requires h.count != lengths && h.symbol != lengths && lengths as object != output as object?
      modifies this`incnt, this`bitbuf, this`bitcnt, lengths
      ensures LengthsResult(r, cl, old(Bits()), n)
      ensures r == 0 && Coded(cl) == 0 ==> lengths[0] < 0
      ensures r == 0 && Coded(cl) != 0 ==>
        Valid() && LengthsOkInts(lengths[..n]) && Spec.ReadLengths(cl, old(Bits()), [], n) == Spec.Lengths(lengths[..n], Bits())
    {
      hide Spec.ReadLengths, Pow2, ToBits, Unpack, FromBits, Coded, Describe, Spec.Complete, KraftSum, Failing, LengthsResult;
      ghost var bits, taken := Bits(), incnt;
      var index := 0;
      assert lengths[..0] == [];
      BitsLeft();
      while index < n
        invariant 0 <= index <= n && Valid() && Progress(cl, lengths[..index], n, bits, taken)
        decreases n - index
      {
        r, index := NextLength(h, lengths, index, n, cl, bits, taken);
        if r != 0 { return r; }
      }
      LengthsRead(cl, lengths[..n], n, bits, taken);
      return 0;
    }

    /** What an error code of the length reader means. */
    ghost predicate LengthsResult(r: int, cl: seq<nat>, bits: seq<bool>, n: nat)
      reads this`incnt
      requires Coded(cl) == 0 || Spec.Complete(cl)
      requires |cl| == 19
    {
      if Coded(cl) == 0 then
        if |bits| / 8 < n * Spec.BytesPerFailure(bits) then r == 2 else r == 0
      else
        match Spec.ReadLengths(cl, bits, [], n)
        case LengthsNeedInput => r == 2
        case LengthsInvalid(code, rest) => r == code < 0 && incnt == inlen - |rest| / 8
        case Lengths(_, _) => r == 0
    }

    /** The lengths in acc have been read, or, in an empty code, have all become -9. */
    ghost predicate Progress(cl: seq<nat>, acc: seq<int>, n: nat, bits: seq<bool>, taken: nat)
      reads this, input
      requires incnt <= inlen <= input.Length
      requires Coded(cl) == 0 || Spec.Complete(cl)
      requires |cl| == 19 && |acc| <= n
    {
      if Coded(cl) == 0 then Failing(bits, taken, |acc|) && (acc != [] ==> acc[0] == -9)
      else LengthsOkInts(acc) && Spec.ReadLengths(cl, Bits(), acc, n) == Spec.ReadLengths(cl, bits, [], n)
    }

    lemma LengthsRead(cl: seq<nat>, acc: seq<int>, n: nat, bits: seq<bool>, taken: nat)
      requires Valid() && |cl| == 19 && |acc| == n && (Coded(cl) == 0 || Spec.Complete(cl))
      requires Progress(cl, acc, n, bits, taken)
      ensures LengthsResult(0, cl, bits, n)
      ensures Coded(cl) != 0 ==> LengthsOkInts(acc) && Spec.ReadLengths(cl, bits, [], n) == Spec.Lengths(acc, Bits())
    {
      hide Spec.ReadLengths, ToBits, Unpack, Coded, Spec.Complete, KraftSum;
      if Coded(cl) != 0 {
        Spec.LengthsStep(cl, Bits(), acc, n);
      }
    }

    /** One round of the loop. */
    method NextLength(h: Tables, lengths: array<int>, at: nat, n: nat, ghost cl: seq<nat>,
                      ghost bits: seq<bool>, ghost taken: nat) returns (r: int, index: nat)
      requires Valid() && Describe(h, cl) && |cl| == 19 && LengthsOk(cl) && at < n <= lengths.Length
      requires Coded(cl) == 0 || Spec.Complete(cl)
      requires lengths as object != output as object?
      requires Progress(cl, lengths[..at], n, bits, taken)
      modifies this`incnt, this`bitbuf, this`bitcnt, lengths
      ensures r != 0 ==> LengthsResult(r, cl, bits, n)
      ensures r == 0 ==> at < index <= n && Valid() && Progress(cl, lengths[..index], n, bits, taken)
    {
      hide Spec.ReadLengths, Huffman.Decode, Pow2, ToBits, Unpack, FromBits, Coded, Describe, Spec.Complete,
           Spec.RunBits, Spec.RunLength, Spec.RunValue, Spec.Repeat, Spec.BytesPerFailure, KraftSum;
      ghost var acc := lengths[..at];
      if Coded(cl) == 0 {
        FailOnce(cl, bits, taken, at, n);
      } else {
        Spec.LengthsStep(cl, Bits(), acc, n);
      }
      index := at;
      var ok, symbol := Decode(h, cl);
      if !ok { return 2, at; }
      if symbol < 16 {
        lengths[index] := symbol;
        index := index + 1;
        assert lengths[..index] == acc + [symbol];
        return 0, index;
      }
      r, index := RepeatLengths(symbol, lengths, at, n);
    }

    /** Lines 672-687: a repeat instruction. */
    method RepeatLengths(sym: nat, lengths: array<int>, at: nat, n: nat) returns (r: int, index: nat)
      requires Valid() && 16 <= sym < 19 && at < n <= lengths.Length && lengths as object != output as object?
      requires LengthsOkInts(lengths[..at])
      modifies this`incnt, this`bitbuf, this`bitcnt, lengths
      ensures
        var bits, acc: seq<nat> := old(Bits()), old(lengths[..at]);
        if sym == 16 && at == 0 then r == -5 && Valid() && Bits() == bits
        else if |bits| < Spec.RunBits(sym) then r == 2
        else
          && Valid() && Bits() == bits[Spec.RunBits(sym)..]
          && var run := Spec.RunLength(sym, bits);
             if at + run > n then r == -6
             else r == 0 && index == at + run && LengthsOkInts(lengths[..index])
                  && lengths[..index] == acc + Spec.Repeat(Spec.RunValue(sym, acc), run)
    {
      hide Pow2, ToBits, Unpack, FromBits;
      index := at;
      var len := 0;
      var symbol: nat;
      var ok;
      if sym == 16 {
        if index == 0 { return -5, at; }
        assert lengths[..at][at - 1] == lengths[at - 1];
        len := lengths[index - 1];
        ok, symbol := ReadBits(2);
        if !ok { return 2, at; }
        symbol := 3 + symbol;
      } else if sym == 17 {
        ok, symbol := ReadBits(3);
        if !ok { return 2, at; }
        symbol := 3 + symbol;
      } else {
        ok, symbol := ReadBits(7);
        if !ok { return 2, at; }
        symbol := 11 + symbol;
      }
      if index + symbol > n { return -6, at; }
      Fill(lengths, index, symbol, len);
      index := index + symbol;
      return 0, index;
    }

    /** In an empty code-length code every decode fails: it takes in the same number of bytes each
        time and leaves the bit buffer alone. */
    ghost predicate Failing(bits: seq<bool>, taken: nat, index: nat)
      reads this, input
      requires incnt <= inlen <= input.Length
    {
      && |bits| == bitcnt + 8 * (inlen - taken) && bitcnt < 8
      && incnt == taken + index * Spec.BytesPerFailure(bits)
    }

    lemma BitsLeft()
      requires Valid()
      ensures Failing(Bits(), incnt, 0)
    {
    }

    lemma FailOnce(cl: seq<nat>, bits: seq<bool>, taken: nat, index: nat, n: nat)
      requires Valid() && LengthsOk(cl) && Coded(cl) == 0 && Failing(bits, taken, index) && index < n
      ensures Huffman.Decode(cl, Bits()).OutOfInput? ==> |bits| / 8 < n * Spec.BytesPerFailure(bits)
      ensures !Huffman.Decode(cl, Bits()).Symbol?
      ensures Huffman.Decode(cl, Bits()).NoCode? ==>
        inlen - |Huffman.Decode(cl, Bits()).rest| / 8 == taken + (index + 1) * Spec.BytesPerFailure(bits)
    {
      hide Huffman.Decode, ToBits, Unpack, Coded;
      EmptyNeverDecodes(cl, Bits());
      assert |Bits()| == bitcnt + 8 * (inlen - incnt);
    }

    /** Lines 690-701: both codes are built and checked, then the data is decoded. */
    method DynamicCodes(lencode: Tables, distcode: Tables, lengths: array<int>, nlen: nat, ndist: nat) returns (r: int)
      requires Valid() && lengths as object != output as object? && nlen + ndist <= lengths.Length
      requires ndist <= Spec.MAXDCODES
      requires Apart(lencode) && Apart(distcode)
      requires lencode.count.Length == MAXBITS + 1 && nlen <= lencode.symbol.Length
      requires distcode.count.Length == MAXBITS + 1 && ndist <= distcode.symbol.Length
      requires forall i :: 0 <= i < nlen + ndist ==> 0 <= lengths[i] <= MAXBITS
      requires lencode.count !in {distcode.count, distcode.symbol} && lencode.symbol !in {distcode.count, distcode.symbol}
      requires lencode.count != lencode.symbol && distcode.count != distcode.symbol
      requires lengths !in {lencode.count, lencode.symbol, distcode.count, distcode.symbol}
      modifies this, output, lencode.count, lencode.symbol, distcode.count, distcode.symbol
      ensures
        var ls := old(lengths[..nlen + ndist]);
        Agrees(r, if Spec.BadCode(ls[..nlen]) then Spec.Invalid(-7, old(Bits()), old(produced))
                  else if Spec.BadCode(ls[nlen..]) then Spec.Invalid(-8, old(Bits()), old(produced))
                  else Spec.Codes(ls[..nlen], ls[nlen..], old(Bits()), old(produced), Cap()))
    {
      hide Spec.Codes, Pow2, ToBits, Unpack, KraftSum, Coded, Table, Counted, Describe;
      ghost var ls := lengths[..nlen + ndist];
      assert lengths[0..0 + nlen] == ls[..nlen] && lengths[nlen..nlen + ndist] == ls[nlen..];
      var err := Construct(lencode, lengths, 0, nlen);
      if err < 0 || (err > 0 && nlen - lencode.count[0] != 1) { return -7; }
      err := Construct(distcode, lengths, nlen, ndist);
      if err < 0 || (err > 0 && ndist - distcode.count[0] != 1) { return -8; }
      r := Codes(lencode, distcode, ls[..nlen], ls[nlen..]);
    }

    /** The loop of puff: blocks until the last one or an error. */
    method AllBlocks() returns (err: int)
      requires Valid()
      modifies this, output
      ensures Agrees(err, Spec.Blocks(old(Bits()), old(produced), Cap()))
    {
      hide Spec.Blocks, Spec.Stored, Spec.Fixed, Spec.Dynamic, Pow2, ToBits, Unpack, FromBits;
      ghost var target := Spec.Blocks(Bits(), produced, Cap());
      while true
        invariant Valid() && Spec.Blocks(Bits(), produced, Cap()) == target
        decreases |Bits()|
      {
        ghost var bits := Bits();
        BlocksStep(bits, produced, Cap());
        var ok, last := ReadBits(1);
        if !ok { return 2; }
        var kind;
        ok, kind := ReadBits(2);
        if !ok { return 2; }
        if kind == 0 {
          err := Stored();
        } else if kind == 1 {
          err := Fixed();
        } else if kind == 2 {
          err := Dynamic();
        } else {
          err := -1;
        }
        if err != 0 || last == 1 { return; }
      }
    }

    /** The table arrays are not the output buffer. */
    ghost predicate Apart(h: Tables) {
      h.count as object != output as object? && h.symbol as object != output as object?
    }
  }

  method NewTables(n: nat) returns (h: Tables)
    ensures fresh(h.count) && fresh(h.symbol) && h.count != h.symbol
    ensures h.count.Length == MAXBITS + 1 && h.symbol.Length == n
  {
    var count, symbol := new int[MAXBITS + 1], new int[n];
    h := Tables(count, symbol);
  }

  method FixedTables() returns (lencode: Tables, distcode: Tables)
    ensures fresh(lencode.count) && fresh(lencode.symbol) && fresh(distcode.count) && fresh(distcode.symbol)
    ensures Describe(lencode, Spec.FixedLiterals()) && Describe(distcode, Spec.FixedDistances())
  {
    hide KraftSum, Coded, Describe, Table, Pow2;
    lencode := NewTables(Spec.FIXLCODES);
    distcode := NewTables(Spec.MAXDCODES);
    var lengths := new int[Spec.FIXLCODES];
    for symbol := 0 to 144
      invariant forall i :: 0 <= i < symbol ==> lengths[i] == Spec.FixedLiterals()[i]
    {
      lengths[symbol] := 8;
    }
    for symbol := 144 to 256
      invariant forall i :: 0 <= i < symbol ==> lengths[i] == Spec.FixedLiterals()[i]
    {
      lengths[symbol] := 9;
    }
    for symbol := 256 to 280
      invariant forall i :: 0 <= i < symbol ==> lengths[i] == Spec.FixedLiterals()[i]
    {
      lengths[symbol] := 7;
    }
    for symbol := 280 to Spec.FIXLCODES
      invariant forall i :: 0 <= i < symbol ==> lengths[i] == Spec.FixedLiterals()[i]
    {
      lengths[symbol] := 8;
    }
    Spec.FixedLiteralsComplete();
    Spec.FixedDistancesFit();
    assert lengths[0..Spec.FIXLCODES] == Spec.FixedLiterals();
    var r := Construct(lencode, lengths, 0, Spec.FIXLCODES);
    for symbol := 0 to Spec.MAXDCODES
      invariant Describe(lencode, Spec.FixedLiterals())
      invariant forall i :: 0 <= i < symbol ==> lengths[i] == 5
    {
      lengths[symbol] := 5;
    }
    assert lengths[0..Spec.MAXDCODES] == Spec.FixedDistances();
    r := Construct(distcode, lengths, 0, Spec.MAXDCODES);
  }

  predicate LengthsOkInts(s: seq<int>) {
    forall i :: 0 <= i < |s| ==> 0 <= s[i] <= MAXBITS
  }

  /** lengths[index..index + n] all become len. */
  method Fill(lengths: array<int>, index: nat, n: nat, len: int)
    requires index + n <= lengths.Length
    modifies lengths
    ensures lengths[..index + n] == old(lengths[..index]) + seq(n, _ => len)
  {
    var at, left := index, n;
    while left > 0
      invariant 0 <= left <= n && at == index + n - left
      invariant forall i :: 0 <= i < index ==> lengths[i] == old(lengths[i])
      invariant forall i :: index <= i < at ==> lengths[i] == len
    {
      left := left - 1;
      lengths[at] := len;
      at := at + 1;
    }
  }

  lemma FourBits(bits: seq<bool>)
    requires |bits| == 4
    ensures FromBits(bits) < 16
  {
    assert Pow2(4) == 16;
  }

  /** The lengths at the first k places of ORDER are those of the code-length code. */
  ghost predicate Sent(lengths: seq<int>, bits: seq<bool>, ncode: nat, k: nat) {
    && 3 * ncode <= |bits| && ncode <= 19 <= |lengths| && k <= 19
    && forall i :: 0 <= i < k ==> lengths[Spec.Order(i)] == Spec.CodeLengthCode(bits, ncode)[Spec.Order(i)]
  }

  lemma NothingSent(lengths: seq<int>, bits: seq<bool>)
    requires |lengths| >= 19
    ensures Sent(lengths, bits, 0, 0)
  {
  }

  lemma SendOne(lengths: seq<int>, bits: seq<bool>, k: nat, v: int)
    requires Sent(lengths, bits, k, k) && k < 19 && 3 * k + 3 <= |bits| && v == FromBits(bits[3 * k..][..3])
    ensures Sent(lengths[Spec.Order(k) := v], bits, k + 1, k + 1)
    ensures bits[3 * k..][3..] == bits[3 * (k + 1)..]
  {
    hide FromBits;
    assert bits[3 * k..][..3] == bits[3 * (k + 1 - 1)..3 * (k + 1)];
  }

  lemma SendZero(lengths: seq<int>, bits: seq<bool>, ncode: nat, k: nat)
    requires Sent(lengths, bits, ncode, k) && ncode <= k < 19
    ensures Sent(lengths[Spec.Order(k) := 0], bits, ncode, k + 1)
  {
    hide FromBits, Spec.CodeLengthCode;
    Spec.NotSentIsZero(bits, ncode, k);
  }

  lemma AllSent(lengths: seq<int>, bits: seq<bool>, ncode: nat)
    requires Sent(lengths, bits, ncode, 19)
    ensures lengths[..19] == Spec.CodeLengthCode(bits, ncode)
  {
    hide FromBits, Spec.CodeLengthCode;
    forall i | 0 <= i < 19 ensures lengths[i] == Spec.CodeLengthCode(bits, ncode)[i] {
      assert Spec.Order(Spec.Position(i)) == i;
    }
  }

  lemma SubSlice(a: array<byte>, from: nat, len: nat, to: nat)
    requires from + len <= to <= a.Length
    ensures a[from..to][..len] == a[from..from + len] && a[from..to][len..] == a[from + len..to]
  {
  }

  lemma NoBits(tail: seq<bool>)
    ensures ToBits(0, 0) + tail == tail && Pow2(0) == 1
  {
  }

  lemma Modulo8(x: int, a: nat)
    requires a < 8 && (x - a) % 8 == 0
    ensures x % 8 == a
  {
  }

  /** One round of Inflate.Blocks. */
  lemma BlocksStep(bits: seq<bool>, out: seq<byte>, cap: Spec.Capacity)
    ensures
      var o := Spec.Blocks(bits, out, cap);
      if |bits| < 3 then o == Spec.NeedInput(out) else
        && FromBits(bits[..1]) == Bit(bits[0])
        && bits[1..][..2] == bits[1..3] && bits[1..][2..] == bits[3..]
        && var b := Spec.Block(FromBits(bits[1..3]), bits[3..], out, cap);
           o == if b.Done? && !bits[0] then Spec.Blocks(b.rest, b.out, cap) else b
  {
    hide Spec.Block, FromBits;
    if |bits| >= 3 {
      OneBit(bits);
    }
  }

  /** puff: what it returns, what it reports as the two lengths, and what it leaves in dest, for
      every source; a null dest only scans. */
  method Puff(dest: array?<byte>, destlen: nat, source: array<byte>, sourcelen: nat)
    returns (err: int, newDestlen: nat, newSourcelen: nat)
    requires sourcelen <= source.Length
    requires dest != null ==> dest != source && destlen <= dest.Length
    modifies dest
    ensures
      match Spec.Decompress(source[..sourcelen], if dest == null then Spec.Unlimited else Spec.Limit(destlen))
      case Done(rest, out) =>
        err == 0 && Reported(dest, newDestlen, sourcelen, newSourcelen, rest, out)
      case Invalid(code, rest, out) =>
        err == code < 0 && Reported(dest, newDestlen, sourcelen, newSourcelen, rest, out)
      case NeedInput(_) => err == 2 && newDestlen == destlen && newSourcelen == sourcelen
      case NeedOutput => err == 1 && newDestlen == destlen && newSourcelen == sourcelen
      case OutOfBounds(_) => err == OUT_OF_BOUNDS
  {
    hide Spec.Blocks, Unpack;
    var s := new State(source, sourcelen, dest, destlen);
    err := s.AllBlocks();
    newDestlen, newSourcelen := destlen, sourcelen;
    if err <= 0 {
      newDestlen := s.outcnt;
      newSourcelen := s.incnt;
    }
  }

  /** The lengths and the output reported when a stream ends or is found invalid. */
  ghost predicate Reported(dest: array?<byte>, destlen: nat, sourcelen: nat, newSourcelen: nat, rest: seq<bool>, out: seq<byte>)
    reads dest
  {
    && destlen == |out| && newSourcelen == sourcelen - |rest| / 8
    && (dest != null ==> destlen <= dest.Length && dest[..destlen] == out)
  }

  lemma OneBit(bits: seq<bool>)
    requires bits != []
    ensures FromBits(bits[..1]) == Bit(bits[0])
  {
    assert bits[..1][1..] == [];
  }

  lemma DropBit(buf: nat, n: nat, tail: seq<bool>, bits: seq<bool>)
    requires n > 0 && buf < Pow2(n) && ToBits(buf, n) + tail == bits
    ensures bits != [] && buf % 2 == Bit(bits[0])
    ensures buf / 2 < Pow2(n - 1) && ToBits(buf / 2, n - 1) + tail == bits[1..]
  {
    assert ToBits(buf, n)[1..] == ToBits(buf / 2, n - 1);
  }

  /** One step of the walk with the tables: a symbol found, or the state at the next length. */
  lemma WalkStep(h: Tables, lengths: seq<nat>, bits: seq<bool>, len: nat, code: nat, first: nat, index: nat)
    requires Describe(h, lengths) && len <= MAXBITS && len <= |bits|
    requires Searching(lengths, bits, len, code, first, index)
    ensures var c, count := code + Bit(bits[len - 1]), h.count[len];
            if c < first + count then
              0 <= index + (c - first) < h.symbol.Length && h.symbol[index + (c - first)] >= 0 &&
              Decode(lengths, bits) == Symbol(h.symbol[index + (c - first)], bits[len..])
            else
              count >= 0 && Searching(lengths, bits, len + 1, 2 * c, 2 * (first + count), index + count)
  {
    hide Decode, CodeValue, NextCode, Start, SymbolsOf, Matches, Bit;
    var c := code + Bit(bits[len - 1]);
    if c < first + h.count[len] {
      FoundSymbol(lengths, bits, len, code, first, index);
      var k := c - first;
      TableSlot(lengths, MAXBITS + 1, len, k);
      assert h.symbol[index + k] == h.symbol[..Coded(lengths)][index + k];
    } else {
      NotThisLength(lengths, bits, len, code, first, index);
    }
  }

  /** The bits left decide the whole reading state: two readers of one input that agree on them
      agree on the byte count, the bit buffer and the bit count. */
  lemma BitsDecideState(input: seq<byte>, i: nat, buf: nat, cnt: nat, j: nat, buf': nat, cnt': nat)
    requires i <= |input| && cnt < 8 && buf < Pow2(cnt)
    requires j <= |input| && cnt' < 8 && buf' < Pow2(cnt')
    requires ToBits(buf, cnt) + Unpack(input[i..]) == ToBits(buf', cnt') + Unpack(input[j..])
    ensures i == j && cnt == cnt' && buf == buf'
  {
    hide ToBits, Unpack, Pow2, FromBits;
    var all := ToBits(buf, cnt) + Unpack(input[i..]);
    assert |all| == cnt + 8 * (|input| - i) && |all| == cnt' + 8 * (|input| - j);
    Modulo8(|all|, cnt);
    Modulo8(|all|, cnt');
    assert all[..cnt] == ToBits(buf, cnt) && all[..cnt] == ToBits(buf', cnt);
    FromBitsOfToBits(buf, cnt);
    FromBitsOfToBits(buf', cnt);
  }
}
