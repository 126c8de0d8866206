/** What holds of every run of the decoder: scanning agrees with writing, output cannot outgrow
    the input by more than a fixed factor, a copy repeats its period, and the one way the table
    builder can be handed lengths it was promised not to see. */
module InflateFacts {
  import opened BitStrings
  import opened Huffman
  import opened Inflate
  import opened Deflate

  // ---- Scanning and writing ----

  /** b is what writing into n bytes makes of the scan a: the same, unless the output is larger. */
  ghost predicate SameUnlessTooLarge(a: Outcome, b: Outcome, out: seq<byte>, n: nat) {
    !a.NeedOutput? && |out| <= |a.out| && b == if |a.out| <= n then a else NeedOutput
  }

  lemma {:induction false} ScanCodes(ll: seq<nat>, dl: seq<nat>, bits: seq<bool>, out: seq<byte>, n: nat)
    requires |dl| <= MAXDCODES && |out| <= n
    ensures SameUnlessTooLarge(Codes(ll, dl, bits, out, Unlimited), Codes(ll, dl, bits, out, Limit(n)), out, n)
    decreases |bits|
  {
    hide Decode, ReadPair, CopyBack;
    match Decode(ll, bits) {
      case OutOfInput =>
      case NoCode(_) =>
      case Symbol(sym, rest) =>
        if sym < END_OF_BLOCK {
          if |out| + 1 <= n {
            ScanCodes(ll, dl, rest, out + [sym], n);
          } else {
            OutputGrows(ll, dl, rest, out + [sym]);
          }
        } else if END_OF_BLOCK < sym < 257 + 29 {
          var p := ReadPair(sym - 257, dl, rest);
          if p.Pair? && p.dist <= |out| {
            if |out| + p.len <= n {
              ScanCodes(ll, dl, p.rest, CopyBack(out, p.dist, p.len), n);
            } else {
              OutputGrows(ll, dl, p.rest, CopyBack(out, p.dist, p.len));
            }
          }
        }
    }
  }

  lemma {:induction false} OutputGrows(ll: seq<nat>, dl: seq<nat>, bits: seq<bool>, out: seq<byte>)
    requires |dl| <= MAXDCODES
    ensures var o := Codes(ll, dl, bits, out, Unlimited); !o.NeedOutput? && !o.OutOfBounds? && |out| <= |o.out|
    decreases |bits|
  {
    hide Decode, ReadPair, CopyBack;
    match Decode(ll, bits) {
      case OutOfInput =>
      case NoCode(_) =>
      case Symbol(sym, rest) =>
        if sym < END_OF_BLOCK {
          OutputGrows(ll, dl, rest, out + [sym]);
        } else if END_OF_BLOCK < sym < 257 + 29 {
          var p := ReadPair(sym - 257, dl, rest);
          if p.Pair? && p.dist <= |out| {
            OutputGrows(ll, dl, p.rest, CopyBack(out, p.dist, p.len));
          }
        }
    }
  }

  lemma ScanBlock(kind: nat, bits: seq<bool>, out: seq<byte>, n: nat)
    requires |out| <= n
    ensures SameUnlessTooLarge(Block(kind, bits, out, Unlimited), Block(kind, bits, out, Limit(n)), out, n)
  {
    hide Codes, ReadLengths, Pack, FromBits, CodeLengthCode, BadCode, Complete, Coded;
    if kind == 1 {
      ScanCodes(FixedLiterals(), FixedDistances(), bits, out, n);
    } else if kind == 2 && |bits| >= 14 {
      var nlen, ndist, ncode := FromBits(bits[..5]) + 257, FromBits(bits[5..10]) + 1, FromBits(bits[10..14]) + 4;
      assert FromBits(bits[10..14]) < Pow2(4) == 16;
      if nlen <= MAXLCODES && ndist <= MAXDCODES && |bits[14..]| >= 3 * ncode {
        ScanLengths(CodeLengthCode(bits[14..], ncode), nlen, ndist, bits[14..][3 * ncode..], out, n);
      }
    }
  }

  lemma ScanLengths(cl: seq<nat>, nlen: nat, ndist: nat, bits: seq<bool>, out: seq<byte>, n: nat)
    requires |cl| == 19 && LengthsOk(cl) && ndist <= MAXDCODES && |out| <= n
    ensures SameUnlessTooLarge(DynamicLengths(cl, nlen, ndist, bits, out, Unlimited),
                               DynamicLengths(cl, nlen, ndist, bits, out, Limit(n)), out, n)
  {
    hide Codes, ReadLengths, BadCode, KraftSum, Coded;
    if Coded(cl) != 0 && Complete(cl) {
      var r := ReadLengths(cl, bits, [], nlen + ndist);
      if r.Lengths? {
        ScanCodes(r.lengths[..nlen], r.lengths[nlen..], r.rest, out, n);
      }
    }
  }

  lemma {:induction false} BlocksGrow(bits: seq<bool>, out: seq<byte>)
    ensures var o := Blocks(bits, out, Unlimited); !o.NeedOutput? && |out| <= |o.out|
    decreases |bits|
  {
    hide Block, FromBits;
    if |bits| >= 3 {
      var o := Block(FromBits(bits[1..3]), bits[3..], out, Unlimited);
      ScanBlock(FromBits(bits[1..3]), bits[3..], out, |out|);
      if o.Done? && !bits[0] {
        BlocksGrow(o.rest, o.out);
      }
    }
  }

  lemma {:induction false} ScanBlocks(bits: seq<bool>, out: seq<byte>, n: nat)
    requires |out| <= n
    ensures SameUnlessTooLarge(Blocks(bits, out, Unlimited), Blocks(bits, out, Limit(n)), out, n)
    decreases |bits|
  {
    hide Block, FromBits;
    if |bits| >= 3 {
      var o := Block(FromBits(bits[1..3]), bits[3..], out, Unlimited);
      ScanBlock(FromBits(bits[1..3]), bits[3..], out, n);
      if o.Done? && !bits[0] {
        if |o.out| <= n {
          ScanBlocks(o.rest, o.out, n);
        } else {
          BlocksGrow(o.rest, o.out);
        }
      }
    }
  }

  /** Scanning a source gives the same outcome as decompressing it into n bytes, for every source,
      exactly when the scan's output fits; if not, writing runs out of room. */
  lemma ScanPredictsWrite(source: seq<byte>, n: nat)
    ensures var scan, write := Decompress(source, Unlimited), Decompress(source, Limit(n));
            !scan.NeedOutput? && (|scan.out| <= n ==> write == scan) && (|scan.out| > n ==> write == NeedOutput)
  {
    ScanBlocks(Unpack(source), [], n);
  }

  // ---- How much can come out ----

  lemma PairBound(k: nat, dl: seq<nat>, bits: seq<bool>)
    requires k < 29 && |dl| <= MAXDCODES
    ensures var p := ReadPair(k, dl, bits); p.Pair? ==> p.len <= 258 && |p.rest| < |bits|
  {
    hide Decode, FromBits;
    assert Pow2(1) == 2 && Pow2(2) == 4 && Pow2(3) == 8 && Pow2(4) == 16 && Pow2(5) == 32;
    if |bits| >= LEXT[k] {
      assert FromBits(bits[..LEXT[k]]) < Pow2(LEXT[k]);
    }
  }

  lemma {:induction false} CodesBound(ll: seq<nat>, dl: seq<nat>, bits: seq<bool>, out: seq<byte>)
    requires |dl| <= MAXDCODES
    ensures var o := Codes(ll, dl, bits, out, Unlimited);
            !o.NeedOutput? && |o.out| <= |out| + 129 * |bits| && (o.Done? ==> |o.out| <= |out| + 129 * (|bits| - |o.rest|))
    decreases |bits|
  {
    hide Decode, ReadPair, CopyBack;
    match Decode(ll, bits) {
      case OutOfInput =>
      case NoCode(_) =>
      case Symbol(sym, rest) =>
        if sym < END_OF_BLOCK {
          CodesBound(ll, dl, rest, out + [sym]);
        } else if END_OF_BLOCK < sym < 257 + 29 {
          PairBound(sym - 257, dl, rest);
          var p := ReadPair(sym - 257, dl, rest);
          if p.Pair? && p.dist <= |out| {
            CodesBound(ll, dl, p.rest, CopyBack(out, p.dist, p.len));
          }
        }
    }
  }

  lemma BlockBound(kind: nat, bits: seq<bool>, out: seq<byte>)
    ensures var o := Block(kind, bits, out, Unlimited);
            !o.NeedOutput? && |o.out| <= |out| + 129 * |bits| && (o.Done? ==> |o.out| <= |out| + 129 * (|bits| - |o.rest|))
  {
    hide Codes, ReadLengths, Pack, FromBits, CodeLengthCode, BadCode, Complete, Coded, DynamicLengths;
    if kind == 1 {
      CodesBound(FixedLiterals(), FixedDistances(), bits, out);
    } else if kind == 2 && |bits| >= 14 {
      var nlen, ndist, ncode := FromBits(bits[..5]) + 257, FromBits(bits[5..10]) + 1, FromBits(bits[10..14]) + 4;
      assert FromBits(bits[10..14]) < Pow2(4) == 16;
      if nlen <= MAXLCODES && ndist <= MAXDCODES && |bits[14..]| >= 3 * ncode {
        LengthsBound(CodeLengthCode(bits[14..], ncode), nlen, ndist, bits[14..][3 * ncode..], out);
      }
    }
  }

  lemma LengthsBound(cl: seq<nat>, nlen: nat, ndist: nat, bits: seq<bool>, out: seq<byte>)
    requires |cl| == 19 && LengthsOk(cl) && ndist <= MAXDCODES
    ensures var o := DynamicLengths(cl, nlen, ndist, bits, out, Unlimited);
            !o.NeedOutput? && |o.out| <= |out| + 129 * |bits| && (o.Done? ==> |o.out| <= |out| + 129 * (|bits| - |o.rest|))
  {
    hide Codes, ReadLengths, BadCode, KraftSum, Coded;
    if Coded(cl) != 0 && Complete(cl) {
      var r := ReadLengths(cl, bits, [], nlen + ndist);
      if r.Lengths? {
        CodesBound(r.lengths[..nlen], r.lengths[nlen..], r.rest, out);
      }
    }
  }

  lemma {:induction false} BlocksBound(bits: seq<bool>, out: seq<byte>)
    ensures var o := Blocks(bits, out, Unlimited); !o.NeedOutput? && |o.out| <= |out| + 129 * |bits|
    decreases |bits|
  {
    hide Block, FromBits;
    BlocksGrow(bits, out);
    if |bits| >= 3 {
      BlockBound(FromBits(bits[1..3]), bits[3..], out);
      var o := Block(FromBits(bits[1..3]), bits[3..], out, Unlimited);
      if o.Done? && !bits[0] {
        BlocksBound(o.rest, o.out);
      }
    }
  }

  /** No source expands more than 1032 times: with fewer than 2^32 / 1032 bytes of input the
      program's 32-bit output count cannot wrap, even when it only scans. */
  lemma ExpansionIsBounded(source: seq<byte>)
    ensures var o := Decompress(source, Unlimited); !o.NeedOutput? && |o.out| <= 1032 * |source|
  {
    BlocksBound(Unpack(source), []);
  }

  // ---- Copies ----

  /** A copy keeps what was there, and every byte it appends is the one dist before it, be that
      an old byte or one the same copy has appended. */
  lemma {:induction false} CopyRepeats(out: seq<byte>, dist: nat, len: nat, i: nat)
    requires 0 < dist <= |out| && i < len
    ensures var r := CopyBack(out, dist, len);
            r[..|out|] == out && r[|out| + i] == r[|out| + i - dist]
    decreases len
  {
    var next := out + [out[|out| - dist]];
    var r := CopyBack(out, dist, len);
    assert r == CopyBack(next, dist, len - 1);
    if len == 1 {
      assert r == next;
    } else {
      CopyRepeats(next, dist, len - 1, if i > 0 then i - 1 else 0);
    }
    assert r[..|next|] == next;
    hide CopyBack;
    assert r[..|out|] == r[..|next|][..|out|] == out;
    if i == 0 {
      assert r[|out|] == r[..|next|][|out|] == out[|out| - dist];
      assert r[|out| - dist] == r[..|next|][|out| - dist] == out[|out| - dist];
    } else {
      assert |next| + (i - 1) == |out| + i;
    }
  }

  // ---- Every length and distance can be written ----

  function LengthBase(k: nat): nat
    requires k < 29
  {
    LENS[k]
  }

  function LengthEnd(k: nat): nat
    requires k < 29
  {
    LENS[k] + Pow2(LEXT[k])
  }

  lemma LengthTable(k: nat)
    requires k < 27
    ensures LengthBase(k + 1) == LengthEnd(k) && LengthBase(0) == 3
  {
    assert Pow2(0) == 1 && Pow2(1) == 2 && Pow2(2) == 4 && Pow2(3) == 8 && Pow2(4) == 16 && Pow2(5) == 32;
  }

  function LengthSymbol(len: nat, k: nat): (r: nat)
    requires k < 28 && 3 <= len < LengthEnd(k)
    ensures r < 28 && LengthBase(r) <= len < LengthEnd(r)
  {
    hide LengthBase, LengthEnd;
    LengthTable(if k > 0 then k - 1 else 0);
    if LengthBase(k) <= len then k else LengthSymbol(len, k - 1)
  }

  function DistanceBase(k: nat): nat
    requires k < 30
  {
    DISTS[k]
  }

  function DistanceEnd(k: nat): nat
    requires k < 30
  {
    DISTS[k] + Pow2(DEXT[k])
  }

  lemma DistanceTable(k: nat)
    requires k < 29
    ensures DistanceBase(k + 1) == DistanceEnd(k) && DistanceBase(0) == 1
  {
    if k <= 15 {
      assert Pow2(0) == 1 && Pow2(1) == 2 && Pow2(2) == 4 && Pow2(3) == 8 && Pow2(4) == 16 && Pow2(5) == 32 && Pow2(6) == 64;
    } else {
      assert Pow2(7) == 128 && Pow2(8) == 256 && Pow2(9) == 512 && Pow2(10) == 1024 && Pow2(11) == 2048 && Pow2(12) == 4096
          && Pow2(13) == 8192;
    }
  }

  function DistanceSymbol(dist: nat, k: nat): (r: nat)
    requires k < 30 && 1 <= dist < DistanceEnd(k)
    ensures r < 30 && DistanceBase(r) <= dist < DistanceEnd(r)
  {
    hide DistanceBase, DistanceEnd;
    DistanceTable(if k > 0 then k - 1 else 0);
    if DistanceBase(k) <= dist then k else DistanceSymbol(dist, k - 1)
  }

  /** For every length from 3 to 258 and every distance from 1 to 32768 there is a match. */
  lemma EveryMatchHasAToken(len: nat, dist: nat) returns (t: Token)
    requires 3 <= len <= 258 && 1 <= dist <= 32768
    ensures t.Match? && InRange(t) && Length(t) == len && Distance(t) == dist
  {
    assert Pow2(5) == 32 && Pow2(13) == 8192;
    var l := if len == 258 then 28 else LengthSymbol(len, 27);
    var d := DistanceSymbol(dist, 29);
    t := Match(l, len - LENS[l], d, dist - DISTS[d]);
  }

  // ---- The lengths the table builder is promised ----

  lemma BlockOutOfBounds(cl: seq<nat>, nlen: nat, ndist: nat, bits: seq<bool>, out: seq<byte>, cap: Capacity)
    requires |cl| == 19 && LengthsOk(cl) && ndist <= MAXDCODES
    ensures DynamicLengths(cl, nlen, ndist, bits, out, cap).OutOfBounds? <==>
      Coded(cl) == 0 && |bits| / 8 >= (nlen + ndist) * BytesPerFailure(bits)
  {
    hide Codes, ReadLengths, BadCode, KraftSum, Coded, BytesPerFailure;
    if Coded(cl) != 0 && Complete(cl) {
      var r := ReadLengths(cl, bits, [], nlen + ndist);
      if r.Lengths? {
        CodesStayInBounds(r.lengths[..nlen], r.lengths[nlen..], r.rest, out, cap);
      }
    }
  }

  lemma {:induction false} CodesStayInBounds(ll: seq<nat>, dl: seq<nat>, bits: seq<bool>, out: seq<byte>, cap: Capacity)
    requires |dl| <= MAXDCODES
    ensures !Codes(ll, dl, bits, out, cap).OutOfBounds?
    decreases |bits|
  {
    hide Decode, ReadPair, CopyBack;
    match Decode(ll, bits) {
      case OutOfInput =>
      case NoCode(_) =>
      case Symbol(sym, rest) =>
        if sym < END_OF_BLOCK {
          CodesStayInBounds(ll, dl, rest, out + [sym], cap);
        } else if END_OF_BLOCK < sym < 257 + 29 {
          var p := ReadPair(sym - 257, dl, rest);
          if p.Pair? && p.dist <= |out| {
            CodesStayInBounds(ll, dl, p.rest, CopyBack(out, p.dist, p.len), cap);
          }
        }
    }
  }

  /** construct is promised lengths from 0 to 15. The promise can be broken for some input exactly
      when the code-length code is empty. */
  lemma PromiseBrokenIffEmpty(cl: seq<nat>, nlen: nat, ndist: nat, out: seq<byte>, cap: Capacity)
    requires |cl| == 19 && LengthsOk(cl) && ndist <= MAXDCODES
    ensures (exists bits :: DynamicLengths(cl, nlen, ndist, bits, out, cap).OutOfBounds?) <==> Coded(cl) == 0
  {
    hide DynamicLengths, Coded;
    forall bits ensures DynamicLengths(cl, nlen, ndist, bits, out, cap).OutOfBounds? <==>
                        Coded(cl) == 0 && |bits| / 8 >= (nlen + ndist) * BytesPerFailure(bits) {
      BlockOutOfBounds(cl, nlen, ndist, bits, out, cap);
    }
    var zeros := seq(16 * (nlen + ndist), _ => false);
    assert BytesPerFailure(zeros) == 2;
    assert Coded(cl) == 0 ==> DynamicLengths(cl, nlen, ndist, zeros, out, cap).OutOfBounds?;
  }

  // ---- A source that shows it ----

  function Zeros(n: nat): (s: seq<byte>)
    ensures |s| == n && forall i :: 0 <= i < n ==> s[i] == 0
  {
    seq(n, _ => 0)
  }

  lemma {:induction false} ZeroBits(n: nat)
    ensures ToBits(0, n) == seq(n, _ => false)
  {
    if n > 0 {
      ZeroBits(n - 1);
    }
  }

  lemma {:induction false} ZeroBytes(n: nat)
    ensures Unpack(Zeros(n)) == seq(8 * n, _ => false)
  {
    if n > 0 {
      ZeroBytes(n - 1);
      ZeroBits(8);
      assert Zeros(n)[1..] == Zeros(n - 1);
    }
  }

  lemma FromZeros(b: seq<bool>)
    requires forall i :: 0 <= i < |b| ==> !b[i]
    ensures FromBits(b) == 0
  {
  }

  lemma {:induction false} CodeOfZeros(bits: seq<bool>, k: nat)
    requires k <= 19 && 3 * k <= |bits| && forall i :: 0 <= i < |bits| ==> !bits[i]
    ensures CodeLengthCode(bits, k) == Repeat(0, 19)
  {
    hide FromBits, Order;
    if k > 0 {
      CodeOfZeros(bits, k - 1);
      FromZeros(bits[3 * (k - 1)..3 * k]);
    }
  }

  lemma {:induction false} NothingCoded(len: nat)
    ensures Start(Repeat(0, 19), len) == 0
  {
    hide SymbolsOf;
    if len > 1 {
      NothingCoded(len - 1);
      if Count(Repeat(0, 19), len - 1) > 0 {
        RankOfSymbol(Repeat(0, 19), len - 1, 0);
      }
    }
  }

  lemma ZerosAreEmpty()
    ensures Coded(Repeat(0, 19)) == 0 && LengthsOk(Repeat(0, 19))
  {
    NothingCoded(MAXBITS + 1);
  }

  /** The block body of the source below: 257 and 1 lengths, an empty code-length code. */
  lemma ZeroBody(bits: seq<bool>, cap: Capacity)
    requires |bits| == 8 * 520 - 3 && forall i :: 0 <= i < |bits| ==> !bits[i]
    ensures Dynamic(bits, [], cap).OutOfBounds?
  {
    hide FromBits, CodeLengthCode, DynamicLengths, Coded;
    FromZeros(bits[..5]);
    FromZeros(bits[5..10]);
    FromZeros(bits[10..14]);
    CodeOfZeros(bits[14..], 4);
    ZerosAreEmpty();
    BlockOutOfBounds(Repeat(0, 19), 257, 1, bits[14..][12..], [], cap);
  }

  /** A final dynamic block whose remaining bits are all zero. */
  lemma EmptyCodeLeavesBounds(cap: Capacity)
    ensures Decompress([5] + Zeros(519), cap).OutOfBounds?
  {
    hide FromBits, Unpack, ToBits, Dynamic, Codes, StoredBytes;
    var first := [true, false, true, false, false, false, false, false];
    var zeros := seq(8 * 519, _ => false);
    FirstByteFive();
    ZeroBytes(519);
    UnpackJoin([5], Zeros(519));
    var bits := first + zeros;
    assert bits[1..3] == [false, true];
    ThreeBitsFive();
    ZeroBody(bits[3..], cap);
  }

  lemma ToBitsStep(v: nat, n: nat)
    ensures ToBits(v, n + 1) == [v % 2 == 1] + ToBits(v / 2, n)
  {
  }

  lemma FirstByteFive()
    ensures Unpack([5]) == [true, false, true, false, false, false, false, false]
  {
    assert Unpack([5]) == ToBits(5, 8) + Unpack([]) && Unpack([]) == [];
    hide Unpack;
    ToBitsStep(5, 7);
    ToBitsStep(2, 6);
    ToBitsStep(1, 5);
    ZeroBits(5);
  }

  lemma ThreeBitsFive()
    ensures FromBits([false, true]) == 2
  {
    assert FromBits([true]) == 1 by {
      assert [true][1..] == [];
    }
    assert [false, true][1..] == [true];
  }
}
