/** Bit strings: the DEFLATE view of a byte buffer, least significant bit first,
    and the value of a Huffman code word, most significant bit first. */
module BitStrings {
  type byte = x: int | 0 <= x < 256

  function Pow2(n: nat): (p: nat)
    ensures p >= 1
  {
    if n == 0 then 1 else 2 * Pow2(n - 1)
  }

  /** v << n. */
  function Shl(v: nat, n: nat): nat {
    if n == 0 then v else 2 * Shl(v, n - 1)
  }

  /** v >> n. */
  function Shr(v: nat, n: nat): nat {
    if n == 0 then v else Shr(v / 2, n - 1)
  }

  /** v & ((1 << n) - 1). */
  function Low(v: nat, n: nat): (r: nat)
    ensures r < Pow2(n)
  {
    if n == 0 then 0 else v % 2 + 2 * Low(v / 2, n - 1)
  }

  /** Two bytes as a number, the less significant first. */
  function TwoBytes(low: byte, high: byte): nat {
    low as int + 256 * (high as int)
  }

  function Bit(b: bool): nat {
    if b then 1 else 0
  }

  /** The n low bits of v, least significant bit first. */
  function ToBits(v: nat, n: nat): (b: seq<bool>)
    ensures |b| == n
  {
    if n == 0 then [] else [v % 2 == 1] + ToBits(v / 2, n - 1)
  }

  /** The number a bit string stands for, least significant bit first. */
  function FromBits(b: seq<bool>): (v: nat)
    ensures v < Pow2(|b|)
  {
    if b == [] then 0 else Bit(b[0]) + 2 * FromBits(b[1..])
  }

  /** A byte buffer as a bit string. */
  function Unpack(bytes: seq<byte>): (b: seq<bool>)
    ensures |b| == 8 * |bytes|
  {
    if bytes == [] then [] else ToBits(bytes[0], 8) + Unpack(bytes[1..])
  }

  /** The number a code word stands for, most significant bit first. */
  function CodeValue(b: seq<bool>): (v: nat)
    ensures v < Pow2(|b|)
  {
    if b == [] then 0 else 2 * CodeValue(b[..|b| - 1]) + Bit(b[|b| - 1])
  }

  /** The n-bit code word of a code, most significant bit first. */
  function CodeWord(code: nat, n: nat): (b: seq<bool>)
    ensures |b| == n
  {
    if n == 0 then [] else CodeWord(code / 2, n - 1) + [code % 2 == 1]
  }

  lemma {:induction false} FromBitsOfToBits(v: nat, n: nat)
    ensures FromBits(ToBits(v, n)) == Low(v, n)
    ensures v < Pow2(n) ==> Low(v, n) == v
  {
    if n > 0 {
      FromBitsOfToBits(v / 2, n - 1);
      assert ToBits(v, n)[1..] == ToBits(v / 2, n - 1);
    }
  }

  lemma {:induction false} ToBitsOfFromBits(b: seq<bool>)
    ensures ToBits(FromBits(b), |b|) == b
  {
    if b != [] {
      ToBitsOfFromBits(b[1..]);
      assert b == [b[0]] + b[1..];
    }
  }

  lemma Halve(x: nat, v: nat, y: nat)
    requires x == v + 2 * y
    ensures x / 2 == v / 2 + y && x % 2 == v % 2
  {
  }

  /** Bits of w put on top of the n bits of v. */
  lemma {:induction false} ToBitsJoin(v: nat, n: nat, w: nat, m: nat)
    requires v < Pow2(n)
    ensures ToBits(v + Shl(w, n), n + m) == ToBits(v, n) + ToBits(w, m)
    ensures w < Pow2(m) ==> v + Shl(w, n) < Pow2(n + m)
  {
    if n > 0 {
      var x := v + Shl(w, n);
      Halve(x, v, Shl(w, n - 1));
      ToBitsJoin(v / 2, n - 1, w, m);
      assert ToBits(x, n + m) == [v % 2 == 1] + (ToBits(v / 2, n - 1) + ToBits(w, m));
    }
  }

  /** The low n bits of v read off, the high bits left. */
  lemma {:induction false} ToBitsSplit(v: nat, n: nat, k: nat)
    ensures ToBits(v, n + k) == ToBits(v, n) + ToBits(Shr(v, n), k)
    ensures v < Pow2(n + k) ==> Shr(v, n) < Pow2(k)
  {
    if n > 0 {
      ToBitsSplit(v / 2, n - 1, k);
      assert ToBits(v, n + k) == [v % 2 == 1] + (ToBits(v / 2, n - 1) + ToBits(Shr(v / 2, n - 1), k));
    }
  }

  /** The shifts are the usual arithmetic: this fixes the quotient and the rest by 2^n. */
  lemma {:induction false} ShiftsDivide(v: nat, n: nat)
    ensures v == Low(v, n) + Shl(Shr(v, n), n)
  {
    if n > 0 {
      ShiftsDivide(v / 2, n - 1);
    }
  }

  lemma EightMore(n: nat)
    ensures Pow2(n + 8) == 256 * Pow2(n)
  {
    assert Pow2(n + 8) == 2 * Pow2(n + 7) && Pow2(n + 7) == 2 * Pow2(n + 6) && Pow2(n + 6) == 2 * Pow2(n + 5);
    assert Pow2(n + 5) == 2 * Pow2(n + 4) && Pow2(n + 4) == 2 * Pow2(n + 3) && Pow2(n + 3) == 2 * Pow2(n + 2);
    assert Pow2(n + 2) == 2 * Pow2(n + 1) && Pow2(n + 1) == 2 * Pow2(n);
  }

  lemma {:induction false} ShiftMultiplies(v: nat, n: nat)
    ensures Shl(v, n) == Pow2(n) * v
  {
    if n > 0 {
      ShiftMultiplies(v, n - 1);
      DoubleProduct(Pow2(n - 1), v);
    }
  }

  lemma DoubleProduct(p: nat, v: nat)
    ensures 2 * (p * v) == (2 * p) * v
  {
  }

  /** A byte put on top of n bits. */
  lemma AppendByte(v: nat, n: nat, b: byte, tail: seq<bool>)
    requires v < Pow2(n)
    ensures v + Shl(b, n) < Pow2(n + 8)
    ensures ToBits(v + Shl(b, n), n + 8) + tail == ToBits(v, n) + (ToBits(b, 8) + tail)
  {
    hide *;
    Pow2Of8();
    ToBitsJoin(v, n, b, 8);
    assert ToBits(v, n) + ToBits(b, 8) + tail == ToBits(v, n) + (ToBits(b, 8) + tail);
  }

  lemma Pow2Of8()
    ensures Pow2(8) == 256
  {
  }

  /** The low bits of a bit buffer read off. */
  lemma TakeBits(v: nat, n: nat, k: nat, tail: seq<bool>, all: seq<bool>)
    requires v < Pow2(n + k) && ToBits(v, n + k) + tail == all
    ensures |all| >= n && FromBits(all[..n]) == Low(v, n)
    ensures Shr(v, n) < Pow2(k) && ToBits(Shr(v, n), k) + tail == all[n..]
  {
    hide ToBits, FromBits, Pow2, Low, Shr;
    ToBitsSplit(v, n, k);
    FromBitsOfToBits(v, n);
    assert all[..n] == ToBits(v, n);
    assert all[n..] == ToBits(Shr(v, n), k) + tail;
  }

  lemma {:induction false} CodeValueOfCodeWord(code: nat, n: nat)
    requires code < Pow2(n)
    ensures CodeValue(CodeWord(code, n)) == code
  {
    if n > 0 {
      CodeValueOfCodeWord(code / 2, n - 1);
      CodeValueNext(code, n);
    }
  }

  lemma CodeValueNext(code: nat, n: nat)
    requires n > 0 && CodeValue(CodeWord(code / 2, n - 1)) == code / 2
    ensures CodeValue(CodeWord(code, n)) == code
  {
    hide *;
    CodeWordEnds(code, n);
  }

  /** The last bit of a code word, and the word before it. */
  lemma CodeWordEnds(code: nat, n: nat)
    requires n > 0
    ensures CodeWord(code, n)[..n - 1] == CodeWord(code / 2, n - 1) && CodeWord(code, n)[n - 1] == (code % 2 == 1)
    ensures CodeValue(CodeWord(code, n)) == 2 * CodeValue(CodeWord(code / 2, n - 1)) + code % 2
  {
    assert CodeWord(code, n) == CodeWord(code / 2, n - 1) + [code % 2 == 1];
    assert CodeWord(code, n)[..n - 1] == CodeWord(code / 2, n - 1);
  }

  lemma CodeWordNext(code: nat, bit: bool, n: nat)
    ensures CodeWord(2 * code + Bit(bit), n + 1) == CodeWord(code, n) + [bit]
  {
    Halve(2 * code + Bit(bit), Bit(bit), code);
  }

  lemma {:induction false} CodeWordOfCodeValue(b: seq<bool>)
    ensures CodeWord(CodeValue(b), |b|) == b
  {
    if b != [] {
      var c, bit := b[..|b| - 1], b[|b| - 1];
      CodeWordOfCodeValue(c);
      hide CodeWord;
      CodeWordNext(CodeValue(c), bit, |c|);
      assert b == c + [bit];
    } else {
      assert CodeWord(0, 0) == [];
    }
  }

  lemma {:induction false} UnpackSplit(bytes: seq<byte>, n: nat)
    requires n <= |bytes|
    ensures Unpack(bytes) == Unpack(bytes[..n]) + Unpack(bytes[n..])
  {
    hide ToBits;
    if n == 0 {
      assert bytes[..0] == [] && bytes[0..] == bytes;
    } else {
      UnpackSplit(bytes[1..], n - 1);
      assert bytes[..n][0] == bytes[0] && bytes[..n][1..] == bytes[1..][..n - 1];
      assert bytes[1..][n - 1..] == bytes[n..];
      assert Unpack(bytes) == ToBits(bytes[0], 8) + (Unpack(bytes[1..][..n - 1]) + Unpack(bytes[n..]));
    }
  }

  lemma UnpackJoin(a: seq<byte>, b: seq<byte>)
    ensures Unpack(a + b) == Unpack(a) + Unpack(b)
  {
    UnpackSplit(a + b, |a|);
    assert (a + b)[..|a|] == a && (a + b)[|a|..] == b;
  }

  lemma UnpackSlice(bytes: seq<byte>, i: nat, j: nat)
    requires i <= j <= |bytes|
    ensures Unpack(bytes)[8 * i..8 * j] == Unpack(bytes[i..j])
  {
    UnpackSplit(bytes[..j], i);
    UnpackSplit(bytes, j);
    assert bytes[..j][..i] == bytes[..i] && bytes[..j][i..] == bytes[i..j];
    assert Unpack(bytes)[..8 * j] == Unpack(bytes[..j]);
    assert Unpack(bytes)[8 * i..8 * j] == Unpack(bytes)[..8 * j][8 * i..];
  }

  lemma {:induction false} FromBitsJoin(a: seq<bool>, b: seq<bool>)
    ensures FromBits(a + b) == FromBits(a) + Shl(FromBits(b), |a|)
  {
    if a == [] {
      assert a + b == b;
    } else {
      FromBitsJoin(a[1..], b);
      assert (a + b)[1..] == a[1..] + b;
    }
  }

  lemma FromBitsOfByte(b: byte)
    ensures FromBits(Unpack([b])) == b
  {
    assert Pow2(8) == 256;
    FromBitsOfToBits(b, 8);
    assert Unpack([b]) == ToBits(b, 8) + Unpack([]) == ToBits(b, 8);
  }

  lemma FromBitsOfTwoBytes(a: byte, b: byte)
    ensures FromBits(Unpack([a, b])) == TwoBytes(a, b)
  {
    hide Unpack, FromBits;
    UnpackJoin([a], [b]);
    assert [a] + [b] == [a, b];
    FromBitsOfByte(a);
    FromBitsOfByte(b);
    FromBitsJoin(Unpack([a]), Unpack([b]));
    ShiftMultiplies(b, 8);
    assert Pow2(8) == 256;
  }

  /** Bits taken eight at a time as bytes. */
  function Pack(bits: seq<bool>): (bytes: seq<byte>)
    requires |bits| % 8 == 0
    ensures |bytes| == |bits| / 8
  {
    if bits == [] then [] else
      assert FromBits(bits[..8]) < Pow2(8) == 256;
      [FromBits(bits[..8])] + Pack(bits[8..])
  }

  lemma UnpackTail(src: seq<byte>, i: nat)
    requires i <= |src|
    ensures Unpack(src)[8 * i..] == Unpack(src[i..])
  {
    hide Unpack;
    UnpackSplit(src, i);
  }

  lemma {:induction false} PackOfUnpack(bytes: seq<byte>)
    ensures Pack(Unpack(bytes)) == bytes
  {
    if bytes != [] {
      PackOfUnpack(bytes[1..]);
      var b := Unpack(bytes);
      assert b[..8] == ToBits(bytes[0], 8) && b[8..] == Unpack(bytes[1..]);
      assert Pow2(8) == 256;
      FromBitsOfToBits(bytes[0], 8);
    }
  }

  lemma {:induction false} UnpackOfPack(bits: seq<bool>)
    requires |bits| % 8 == 0
    ensures Unpack(Pack(bits)) == bits
  {
    if bits != [] {
      UnpackOfPack(bits[8..]);
      ToBitsOfFromBits(bits[..8]);
      assert bits == bits[..8] + bits[8..];
    }
  }
}
