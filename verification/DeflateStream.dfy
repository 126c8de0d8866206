/** The main results on DEFLATE: decoding inverts every encoding, accepts nothing else, and
    decides the same whether the output is written or only measured. */
module DeflateStream {
  import opened BitStrings
  import opened Huffman
  import opened Inflate
  import opened Deflate
  import opened DeflateBlocks

  // ---- One block ----

  lemma BodyRoundTrip(b: Body, tail: seq<bool>, out: seq<byte>, pos: nat, cap: Capacity)
    requires LegalBody(b, out, pos) && Fits(cap, |ExpandBody(b, out, pos)|)
    requires (pos + |EncodeBody(b, out, pos) + tail|) % 8 == 0
    ensures Block(Kind(b), EncodeBody(b, out, pos) + tail, out, cap) == Done(tail, ExpandBody(b, out, pos))
  {
    hide Stored, Fixed, Dynamic, Unpack, EncodeTokens, ExpandTokens, LegalTokens, LegalHeader, EncodeHeader, StoredBytesOf;
    match b {
      case StoredBody(pad, data) =>
        var bytes := Unpack(StoredBytesOf(data));
        assert pad + bytes + tail == pad + (bytes + tail);
        StoredRoundTrip(pad, data, tail, out, pos, cap);
      case FixedBody(tokens) =>
        FixedRoundTrip(tokens, tail, out, cap);
      case DynamicBody(h, tokens) =>
        DynamicRoundTrip(h, tokens, tail, out, cap);
    }
  }

  lemma BodyWasEncoded(kind: nat, bits: seq<bool>, out: seq<byte>, pos: nat, cap: Capacity) returns (b: Body)
    requires Block(kind, bits, out, cap).Done? && (pos + |bits|) % 8 == 0 && Fits(cap, |out|)
    ensures LegalBody(b, out, pos) && Kind(b) == kind
    ensures var o := Block(kind, bits, out, cap);
            bits == EncodeBody(b, out, pos) + o.rest && o.out == ExpandBody(b, out, pos) && Fits(cap, |o.out|)
  {
    hide Stored, Dynamic, Codes, Unpack, EncodeTokens, ExpandTokens, LegalTokens, Readable, EncodeHeader, StoredBytesOf;
    if kind == 0 {
      b := StoredWasEncoded(bits, out, pos, cap);
    } else if kind == 1 {
      var tokens := TokensOfCodes(FixedLiterals(), FixedDistances(), bits, out, cap);
      b := FixedBody(tokens);
    } else {
      var h, data := HeaderOfBits(bits, out, cap);
      var tokens := TokensOfCodes(Literals(h), Distances(h), data, out, cap);
      b := DynamicBody(h, tokens);
      assert bits == EncodeBody(b, out, pos) + Block(kind, bits, out, cap).rest;
    }
  }

  // ---- Streams of blocks ----

  function EncodeBlock(last: bool, b: Body, out: seq<byte>, pos: nat): seq<bool>
    requires LegalBody(b, out, pos + 3)
  {
    [last] + ToBits(Kind(b), 2) + EncodeBody(b, out, pos + 3)
  }

  predicate LegalBlocks(blocks: seq<Body>, out: seq<byte>, pos: nat)
    decreases |blocks|
  {
    blocks != [] && LegalBody(blocks[0], out, pos + 3) &&
    (|blocks| > 1 ==> LegalBlocks(blocks[1..], ExpandBody(blocks[0], out, pos + 3),
                                  pos + |EncodeBlock(false, blocks[0], out, pos)|))
  }

  /** The blocks one after another, the last one marked. */
  function Encode(blocks: seq<Body>, out: seq<byte>, pos: nat): seq<bool>
    requires LegalBlocks(blocks, out, pos)
    decreases |blocks|
  {
    hide LegalBody, EncodeBlock, ExpandBody;
    if |blocks| == 1 then EncodeBlock(true, blocks[0], out, pos)
    else
      var first := EncodeBlock(false, blocks[0], out, pos);
      first + Encode(blocks[1..], ExpandBody(blocks[0], out, pos + 3), pos + |first|)
  }

  function Expand(blocks: seq<Body>, out: seq<byte>, pos: nat): (r: seq<byte>)
    requires LegalBlocks(blocks, out, pos)
    ensures |r| >= |out|
    decreases |blocks|
  {
    hide LegalBody, EncodeBlock, ExpandBody;
    var next := ExpandBody(blocks[0], out, pos + 3);
    if |blocks| == 1 then next else Expand(blocks[1..], next, pos + |EncodeBlock(false, blocks[0], out, pos)|)
  }

  /** One block header and body read. */
  lemma BlockRoundTrip(last: bool, b: Body, tail: seq<bool>, out: seq<byte>, pos: nat, cap: Capacity)
    requires LegalBody(b, out, pos + 3) && Fits(cap, |ExpandBody(b, out, pos + 3)|)
    requires (pos + |EncodeBlock(last, b, out, pos) + tail|) % 8 == 0
    ensures Blocks(EncodeBlock(last, b, out, pos) + tail, out, cap) ==
      if last then Done(tail, ExpandBody(b, out, pos + 3)) else Blocks(tail, ExpandBody(b, out, pos + 3), cap)
  {
    hide Block, LegalBody, EncodeBody, ExpandBody, ToBits, FromBits;
    var body := EncodeBody(b, out, pos + 3);
    var bits := EncodeBlock(last, b, out, pos) + tail;
    assert bits[1..3] == ToBits(Kind(b), 2) && bits[3..] == body + tail;
    assert Pow2(2) == 4;
    FromBitsOfToBits(Kind(b), 2);
    BodyRoundTrip(b, tail, out, pos + 3, cap);
  }

  /** Decoding an encoding gives the expansion and leaves exactly what follows the last block. */
  lemma {:induction false} BlocksRoundTrip(blocks: seq<Body>, tail: seq<bool>, out: seq<byte>, pos: nat, cap: Capacity)
    requires LegalBlocks(blocks, out, pos) && Fits(cap, |Expand(blocks, out, pos)|)
    requires (pos + |Encode(blocks, out, pos) + tail|) % 8 == 0
    ensures Blocks(Encode(blocks, out, pos) + tail, out, cap) == Done(tail, Expand(blocks, out, pos))
    decreases |blocks|
  {
    hide Blocks, LegalBody, EncodeBlock, ExpandBody;
    if |blocks| == 1 {
      BlockRoundTrip(true, blocks[0], tail, out, pos, cap);
    } else {
      var first := EncodeBlock(false, blocks[0], out, pos);
      var next := ExpandBody(blocks[0], out, pos + 3);
      var rest := Encode(blocks[1..], next, pos + |first|) + tail;
      assert Encode(blocks, out, pos) + tail == first + rest;
      BlockRoundTrip(false, blocks[0], rest, out, pos, cap);
      BlocksRoundTrip(blocks[1..], tail, next, pos + |first|, cap);
    }
  }

  lemma FirstBlock(bits: seq<bool>, out: seq<byte>, pos: nat, cap: Capacity) returns (b: Body, tail: seq<bool>)
    requires Blocks(bits, out, cap).Done? && (pos + |bits|) % 8 == 0 && Fits(cap, |out|)
    ensures LegalBody(b, out, pos + 3) && bits == EncodeBlock(bits[0], b, out, pos) + tail && |tail| < |bits|
    ensures Fits(cap, |ExpandBody(b, out, pos + 3)|)
    ensures Blocks(bits, out, cap) ==
      if bits[0] then Done(tail, ExpandBody(b, out, pos + 3)) else Blocks(tail, ExpandBody(b, out, pos + 3), cap)
  {
    hide Block, LegalBody, EncodeBody, ExpandBody, ToBits, FromBits;
    b := BodyWasEncoded(FromBits(bits[1..3]), bits[3..], out, pos + 3, cap);
    tail := Block(FromBits(bits[1..3]), bits[3..], out, cap).rest;
    ToBitsOfFromBits(bits[1..3]);
    assert bits == [bits[0]] + bits[1..3] + bits[3..];
  }

  lemma {:induction false} BlocksWereEncoded(bits: seq<bool>, out: seq<byte>, pos: nat, cap: Capacity) returns (blocks: seq<Body>)
    requires Blocks(bits, out, cap).Done? && (pos + |bits|) % 8 == 0 && Fits(cap, |out|)
    ensures LegalBlocks(blocks, out, pos)
    ensures var o := Blocks(bits, out, cap);
            bits == Encode(blocks, out, pos) + o.rest && o.out == Expand(blocks, out, pos) && Fits(cap, |o.out|)
    decreases |bits|
  {
    hide Blocks, LegalBody, EncodeBlock, ExpandBody;
    var b, tail := FirstBlock(bits, out, pos, cap);
    if bits[0] {
      blocks := [b];
    } else {
      var first := EncodeBlock(false, b, out, pos);
      var more := BlocksWereEncoded(tail, ExpandBody(b, out, pos + 3), pos + |first|, cap);
      blocks := [b] + more;
      assert blocks[1..] == more;
    }
  }

  // ---- The main theorems ----

  /** source starts with an encoding of these blocks, and rest is what follows them. */
  ghost predicate Encodes(source: seq<byte>, blocks: seq<Body>, rest: seq<bool>) {
    LegalBlocks(blocks, [], 0) && Unpack(source) == Encode(blocks, [], 0) + rest
  }

  /** puff succeeds on a source exactly when the source starts with a DEFLATE encoding whose
      expansion there is room for; then it gives that expansion and stops right after the encoding. */
  lemma DecompressAcceptsExactlyEncodings(source: seq<byte>, cap: Capacity, rest: seq<bool>, out: seq<byte>)
    ensures Decompress(source, cap) == Done(rest, out) <==>
      exists blocks :: Encodes(source, blocks, rest) && Expand(blocks, [], 0) == out && Fits(cap, |out|)
  {
    hide Blocks, Unpack, Encode, Expand, LegalBlocks;
    if Decompress(source, cap) == Done(rest, out) {
      var blocks := BlocksWereEncoded(Unpack(source), [], 0, cap);
      assert Encodes(source, blocks, rest);
    }
    forall blocks | Encodes(source, blocks, rest) && Expand(blocks, [], 0) == out && Fits(cap, |out|)
      ensures Decompress(source, cap) == Done(rest, out)
    {
      BlocksRoundTrip(blocks, rest, [], 0, cap);
    }
  }

  /** So no source has two readings. */
  lemma EncodingsAreUnambiguous(source: seq<byte>, a: seq<Body>, restA: seq<bool>, b: seq<Body>, restB: seq<bool>)
    requires Encodes(source, a, restA) && Encodes(source, b, restB)
    ensures restA == restB && Expand(a, [], 0) == Expand(b, [], 0)
  {
    hide Blocks, Unpack, Encode, Expand, LegalBlocks;
    BlocksRoundTrip(a, restA, [], 0, Unlimited);
    BlocksRoundTrip(b, restB, [], 0, Unlimited);
  }
}
