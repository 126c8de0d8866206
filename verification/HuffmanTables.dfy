/** construct of src/puff.cpp: the decoding tables, built in place. */
module HuffmanTables {
  import opened BitStrings
  import opened Huffman

  /** struct huffman: two arrays the caller owns. */
  datatype Tables = Tables(count: array<int>, symbol: array<int>)

  /** The tables are what construct leaves for these lengths. */
  ghost predicate Describe(h: Tables, lengths: seq<nat>)
    reads h.count, h.symbol
  {
    && LengthsOk(lengths) && NotOversubscribed(lengths)
    && h.count.Length == MAXBITS + 1
    && Coded(lengths) <= h.symbol.Length
    && (forall l :: 1 <= l <= MAXBITS ==> h.count[l] == Count(lengths, l))
    && h.symbol[..Coded(lengths)] == Table(lengths, MAXBITS + 1)
  }

  lemma SlicesApart(lengths: seq<nat>, l: nat, k: nat, m: nat)
    requires 0 < l < m && k < Count(lengths, l)
    ensures Start(lengths, l) + k < Start(lengths, m)
  {
    StartMonotone(lengths, l + 1, m);
  }

  /** The slot the next symbol of a length goes to lies in that length's slice. */
  lemma NextSlot(lengths: seq<nat>, i: nat)
    requires i < |lengths| && 0 < lengths[i] <= MAXBITS
    ensures Count(lengths[..i], lengths[i]) < Count(lengths, lengths[i])
    ensures Start(lengths, lengths[i]) + Count(lengths[..i], lengths[i]) < Coded(lengths) <= |lengths|
  {
    SymbolAtRank(lengths, i);
    SlicesApart(lengths, lengths[i], Count(lengths[..i], lengths[i]), MAXBITS + 1);
    CodedBound(lengths);
  }

  /** The count array once the lengths of the symbols below i have been counted. */
  ghost predicate Counted(count: seq<int>, lengths: seq<nat>, i: nat)
    requires i <= |lengths|
  {
    |count| == MAXBITS + 1 && forall l :: 0 <= l <= MAXBITS ==> count[l] == Count(lengths[..i], l)
  }

  lemma CountOne(count: seq<int>, lengths: seq<nat>, i: nat)
    requires i < |lengths| && LengthsOk(lengths) && Counted(count, lengths, i)
    ensures Counted(count[lengths[i] := count[lengths[i]] + 1], lengths, i + 1)
  {
    var after := count[lengths[i] := count[lengths[i]] + 1];
    forall l | 0 <= l <= MAXBITS
      ensures after[l] == Count(lengths[..i + 1], l)
    {
      SymbolsOfNext(lengths, i, l);
    }
  }

  /** The offs array once the symbols below i have been placed. */
  ghost predicate Offsets(offs: seq<int>, lengths: seq<nat>, i: nat)
    requires i <= |lengths|
  {
    && |offs| == MAXBITS + 1
    && forall l :: 1 <= l <= MAXBITS ==> offs[l] == Start(lengths, l) + Count(lengths[..i], l)
  }

  ghost predicate Starts(offs: seq<int>, lengths: seq<nat>, len: nat) {
    |offs| == MAXBITS + 1 && forall l :: 1 <= l <= len && l <= MAXBITS ==> offs[l] == Start(lengths, l)
  }

  lemma StartsNext(offs: seq<int>, lengths: seq<nat>, len: nat, next: int)
    requires 1 <= len < MAXBITS && Starts(offs, lengths, len) && next == offs[len] + Count(lengths, len)
    ensures Starts(offs[len + 1 := next], lengths, len + 1)
  {
  }

  lemma StartsDone(offs: seq<int>, lengths: seq<nat>)
    requires Starts(offs, lengths, MAXBITS)
    ensures Offsets(offs, lengths, 0)
  {
  }

  lemma OffsetsNext(offs: seq<int>, lengths: seq<nat>, i: nat)
    requires i < |lengths| && LengthsOk(lengths) && Offsets(offs, lengths, i)
    ensures lengths[i] == 0 ==> Offsets(offs, lengths, i + 1)
    ensures lengths[i] != 0 ==> Offsets(offs[lengths[i] := offs[lengths[i]] + 1], lengths, i + 1)
  {
    forall l | 1 <= l <= MAXBITS
      ensures Count(lengths[..i + 1], l) == Count(lengths[..i], l) + if lengths[i] == l then 1 else 0
    {
      SymbolsOfNext(lengths, i, l);
    }
  }

  lemma NextOffset(offs: seq<int>, lengths: seq<nat>, i: nat)
    requires i < |lengths| && LengthsOk(lengths) && lengths[i] > 0 && Offsets(offs, lengths, i)
    ensures lengths[i] < |offs|
    ensures offs[lengths[i]] == Start(lengths, lengths[i]) + Count(lengths[..i], lengths[i]) < |lengths|
  {
    NextSlot(lengths, i);
  }

  /** Slot k of length l holds the k-th symbol of that length among the symbols below i. */
  ghost predicate Filled(symbol: seq<int>, lengths: seq<nat>, i: nat, l: nat, k: nat)
    requires i <= |lengths|
  {
    1 <= l <= MAXBITS && k < Count(lengths[..i], l) ==>
      Start(lengths, l) + k < |symbol| && symbol[Start(lengths, l) + k] == SymbolsOf(lengths[..i], l)[k]
  }

  /** The slots filled once the symbols below i have been placed. */
  ghost predicate Placed(symbol: seq<int>, lengths: seq<nat>, i: nat)
    requires i <= |lengths|
  {
    forall l: nat, k: nat :: Filled(symbol, lengths, i, l, k)
  }

  lemma PrefixCount(lengths: seq<nat>, i: nat, l: nat)
    requires i <= |lengths|
    ensures Count(lengths[..i], l) <= Count(lengths, l)
  {
    SymbolsOfPrefix(lengths, i, l);
  }

  lemma FilledStays(symbol: seq<int>, lengths: seq<nat>, i: nat, slot: nat, l: nat, k: nat)
    requires i < |lengths| && LengthsOk(lengths) && lengths[i] > 0
    requires slot == Start(lengths, lengths[i]) + Count(lengths[..i], lengths[i]) < |symbol|
    requires 1 <= l <= MAXBITS && k < Count(lengths[..i], l)
    requires Filled(symbol, lengths, i, l, k)
    ensures Filled(symbol[slot := i], lengths, i + 1, l, k)
  {
    hide SymbolsOf, Start;
    SymbolsOfNext(lengths, i, l);
    NextSlot(lengths, i);
    PrefixCount(lengths, i, l);
    if l < lengths[i] {
      SlicesApart(lengths, l, k, lengths[i]);
    } else if lengths[i] < l {
      SlicesApart(lengths, lengths[i], Count(lengths[..i], lengths[i]), l);
    }
  }

  lemma PlaceOne(symbol: seq<int>, lengths: seq<nat>, i: nat, slot: nat)
    requires i < |lengths| && LengthsOk(lengths) && lengths[i] > 0
    requires Placed(symbol, lengths, i)
    requires slot == Start(lengths, lengths[i]) + Count(lengths[..i], lengths[i]) < |symbol|
    ensures Placed(symbol[slot := i], lengths, i + 1)
  {
    hide Start, SymbolsOf;
    var after, next := symbol[slot := i], i + 1;
    forall l: nat, k: nat ensures Filled(after, lengths, next, l, k) {
      if 1 <= l <= MAXBITS && k < Count(lengths[..i], l) {
        assert Filled(symbol, lengths, i, l, k);
        FilledStays(symbol, lengths, i, slot, l, k);
      } else {
        SymbolsOfNext(lengths, i, l);
      }
    }
  }

  lemma NonePlaced(symbol: seq<int>, lengths: seq<nat>)
    ensures Placed(symbol, lengths, 0)
  {
    assert lengths[..0] == [];
  }

  lemma PlaceNone(symbol: seq<int>, lengths: seq<nat>, i: nat)
    requires i < |lengths| && lengths[i] == 0
    requires Placed(symbol, lengths, i)
    ensures Placed(symbol, lengths, i + 1)
  {
    var next := i + 1;
    forall l: nat, k: nat ensures Filled(symbol, lengths, next, l, k) {
      assert Filled(symbol, lengths, i, l, k);
      SymbolsOfNext(lengths, i, l);
    }
  }

  lemma FilledSlot(symbol: seq<int>, lengths: seq<nat>, l: nat, k: nat)
    requires Filled(symbol, lengths, |lengths|, l, k) && 1 <= l <= MAXBITS && k < Count(lengths, l)
    ensures Start(lengths, l) + k < |symbol| && symbol[Start(lengths, l) + k] == SymbolsOf(lengths, l)[k]
  {
    hide Start, SymbolsOf;
    assert lengths[..|lengths|] == lengths;
  }

  lemma SlotPlaced(symbol: seq<int>, lengths: seq<nat>, i: nat)
    requires Placed(symbol, lengths, |lengths|)
    requires i < Coded(lengths) <= |symbol|
    ensures symbol[i] == Table(lengths, MAXBITS + 1)[i]
  {
    hide Start, Table, SymbolsOf, Filled;
    var len, k := SlotOwner(lengths, MAXBITS + 1, i);
    FilledSlot(symbol, lengths, len, k);
  }

  lemma AllPlaced(symbol: seq<int>, lengths: seq<nat>)
    requires Placed(symbol, lengths, |lengths|)
    requires Coded(lengths) <= |symbol|
    ensures symbol[..Coded(lengths)] == Table(lengths, MAXBITS + 1)
  {
    hide Start, Table, SymbolsOf, Placed;
    forall i | 0 <= i < Coded(lengths)
      ensures symbol[i] == Table(lengths, MAXBITS + 1)[i]
    {
      SlotPlaced(symbol, lengths, i);
    }
  }

  /** Lines 336-340: the number of codes of each length. */
  method CountLengths(count: array<int>, length: array<int>, from: nat, n: nat, ghost lengths: seq<nat>)
    requires count.Length == MAXBITS + 1 && from + n <= length.Length && count != length
    requires lengths == length[from..from + n] && LengthsOk(lengths)
    modifies count
    ensures Counted(count[..], lengths, n)
  {
    for len := 0 to MAXBITS + 1
      invariant forall l :: 0 <= l < len ==> count[l] == 0
    {
      count[len] := 0;
    }
    for sym := 0 to n
      invariant Counted(count[..], lengths, sym)
    {
      CountOne(count[..], lengths, sym);
      ghost var before := count[..];
      assert length[from + sym] == lengths[sym];
      count[length[from + sym]] := count[length[from + sym]] + 1;
      assert count[..] == before[lengths[sym] := before[lengths[sym]] + 1];
    }
  }

  /** Lines 344-350: what the code leaves of the code space, cut short once it is negative. */
  method CheckCodeSpace(count: array<int>, ghost lengths: seq<nat>) returns (left: int)
    requires count.Length == MAXBITS + 1 && Counted(count[..], lengths, |lengths|)
    ensures left < 0 <==> KraftSum(lengths) > Pow2(MAXBITS)
    ensures left >= 0 ==> left == Pow2(MAXBITS) - KraftSum(lengths)
  {
    hide Count;
    assert lengths[..|lengths|] == lengths;
    LeftIsKraft(lengths, MAXBITS);
    left := 1;
    for len := 1 to MAXBITS + 1
      invariant left == Left(lengths, len - 1)
    {
      left := left * 2;
      assert count[len] == count[..][len];
      left := left - count[len];
      if left < 0 {
        OverSubscribedStays(lengths, len, MAXBITS - len);
        return;
      }
    }
  }

  /** Lines 352-355: where each length's slice of the table starts. */
  method SliceStarts(count: array<int>, ghost lengths: seq<nat>) returns (offs: array<int>)
    requires count.Length == MAXBITS + 1 && Counted(count[..], lengths, |lengths|)
    ensures fresh(offs) && Offsets(offs[..], lengths, 0)
  {
    assert lengths[..|lengths|] == lengths;
    offs := new int[MAXBITS + 1];
    offs[1] := 0;
    for len := 1 to MAXBITS
      invariant Starts(offs[..], lengths, len)
    {
      assert count[len] == count[..][len] && offs[len] == offs[..][len];
      StartsNext(offs[..], lengths, len, offs[len] + count[len]);
      ghost var before := offs[..];
      offs[len + 1] := offs[len] + count[len];
      assert offs[..] == before[len + 1 := before[len] + count[len]];
    }
    StartsDone(offs[..], lengths);
  }

  /** Lines 357-363: the stable counting sort. */
  method PlaceSymbols(symbol: array<int>, offs: array<int>, length: array<int>, from: nat, n: nat,
                      ghost lengths: seq<nat>)
    requires n <= symbol.Length && from + n <= length.Length
    requires symbol != offs && symbol != length && offs != length
    requires lengths == length[from..from + n] && LengthsOk(lengths)
    requires Offsets(offs[..], lengths, 0)
    modifies symbol, offs
    ensures Coded(lengths) <= n && symbol[..Coded(lengths)] == Table(lengths, MAXBITS + 1)
  {
    hide Offsets, Placed, Table, Coded;
    CodedBound(lengths);
    NonePlaced(symbol[..], lengths);
    for sym := 0 to n
      invariant Offsets(offs[..], lengths, sym)
      invariant Placed(symbol[..], lengths, sym)
    {
      OffsetsNext(offs[..], lengths, sym);
      assert length[from + sym] == lengths[sym];
      if length[from + sym] != 0 {
        PlaceNext(symbol, offs, sym, length[from + sym], lengths);
      } else {
        PlaceNone(symbol[..], lengths, sym);
      }
    }
    AllPlaced(symbol[..], lengths);
    assert symbol[..][..Coded(lengths)] == symbol[..Coded(lengths)];
  }

  method PlaceNext(symbol: array<int>, offs: array<int>, sym: nat, len: nat, ghost lengths: seq<nat>)
    requires symbol != offs && |lengths| <= symbol.Length
    requires sym < |lengths| && LengthsOk(lengths) && lengths[sym] == len > 0
    requires Offsets(offs[..], lengths, sym) && Placed(symbol[..], lengths, sym)
    modifies symbol, offs
    ensures Offsets(offs[..], lengths, sym + 1) && Placed(symbol[..], lengths, sym + 1)
  {
    hide Offsets, Placed, LengthsOk;
    OffsetsNext(offs[..], lengths, sym);
    NextOffset(offs[..], lengths, sym);
    ghost var symbols, offsets := symbol[..], offs[..];
    var slot := offs[len];
    assert slot == offsets[len];
    PlaceOne(symbols, lengths, sym, slot);
    symbol[slot] := sym;
    offs[len] := slot + 1;
    assert symbol[..] == symbols[slot := sym];
    assert offs[..] == offsets[len := slot + 1];
  }

  /** The sign of the result decides Kraft's inequality, except that an empty code counts as
      complete; a non-negative result leaves the sorted symbol table. */
  method Construct(h: Tables, length: array<int>, from: nat, n: nat) returns (r: int)
    requires h.count.Length == MAXBITS + 1 && n <= h.symbol.Length && from + n <= length.Length
    requires h.count != h.symbol && h.count != length && h.symbol != length
    requires forall i :: from <= i < from + n ==> 0 <= length[i] <= MAXBITS
    modifies h.count, h.symbol
    ensures Counted(h.count[..], length[from..from + n], n)
    ensures h.count[0] == n - Coded(length[from..from + n])
    ensures Coded(length[from..from + n]) == 0 ==> r == 0
    ensures Coded(length[from..from + n]) > 0 ==>
      && (r < 0 <==> KraftSum(length[from..from + n]) > Pow2(MAXBITS))
      && (r >= 0 ==> r == Pow2(MAXBITS) - KraftSum(length[from..from + n]))
    ensures r >= 0 ==> Describe(h, length[from..from + n])
  {
    hide Offsets, KraftSum, Count, Describe, Pow2;
    ghost var lengths: seq<nat> := length[from..from + n];
    assert lengths[..n] == lengths;
    UncodedAndCoded(lengths);
    CountLengths(h.count, length, from, n, lengths);
    assert h.count[0] == h.count[..][0];
    if h.count[0] == n {
      EmptyCode(lengths);
      DescribeTables(h, lengths);
      return 0;
    }
    r := CheckCodeSpace(h.count, lengths);
    if r >= 0 {
      var offs := SliceStarts(h.count, lengths);
      PlaceSymbols(h.symbol, offs, length, from, n, lengths);
      DescribeTables(h, lengths);
    }
  }

  lemma DescribeTables(h: Tables, lengths: seq<nat>)
    requires LengthsOk(lengths) && NotOversubscribed(lengths)
    requires h.count.Length == MAXBITS + 1 && Counted(h.count[..], lengths, |lengths|)
    requires Coded(lengths) <= h.symbol.Length && h.symbol[..Coded(lengths)] == Table(lengths, MAXBITS + 1)
    ensures Describe(h, lengths)
  {
    assert lengths[..|lengths|] == lengths;
    forall l | 1 <= l <= MAXBITS ensures h.count[l] == Count(lengths, l) {
      assert h.count[l] == h.count[..][l];
    }
  }
}
