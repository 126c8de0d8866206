/** Canonical Huffman codes as section 3.2.2 of RFC 1951 defines them, given only by the
    code length of every symbol, and the table layout the decoder walks through. */
module Huffman {
  import opened BitStrings

  const MAXBITS := 15

  /** Code lengths, one a symbol; 0 means that the symbol has no code. */
  predicate LengthsOk(lengths: seq<nat>) {
    forall i :: 0 <= i < |lengths| ==> lengths[i] <= MAXBITS
  }

  /** The symbols of one code length, in ascending order. */
  function SymbolsOf(lengths: seq<nat>, len: nat): (s: seq<nat>)
    ensures |s| <= |lengths|
  {
    if lengths == [] then [] else
      var last := |lengths| - 1;
      SymbolsOf(lengths[..last], len) + if lengths[last] == len then [last] else []
  }

  function Count(lengths: seq<nat>, len: nat): nat {
    |SymbolsOf(lengths, len)|
  }

  /** The number of coded symbols shorter than len: where len's slice of the table starts. */
  function Start(lengths: seq<nat>, len: nat): nat {
    if len <= 1 then 0 else Start(lengths, len - 1) + Count(lengths, len - 1)
  }

  /** The number of symbols that have a code. */
  function Coded(lengths: seq<nat>): nat {
    Start(lengths, MAXBITS + 1)
  }

  /** Step 2 of section 3.2.2: the smallest code of length len, where bl_count[0] is 0. */
  function NextCode(lengths: seq<nat>, len: nat): nat {
    if len == 0 then 0
    else 2 * (NextCode(lengths, len - 1) + if len == 1 then 0 else Count(lengths, len - 1))
  }

  /** Step 3 of section 3.2.2: symbols of one length take consecutive codes in symbol order. */
  function Code(lengths: seq<nat>, sym: nat): nat
    requires sym < |lengths|
  {
    NextCode(lengths, lengths[sym]) + Count(lengths[..sym], lengths[sym])
  }

  function Word(lengths: seq<nat>, sym: nat): (w: seq<bool>)
    requires sym < |lengths|
    ensures |w| == lengths[sym]
  {
    CodeWord(Code(lengths, sym), lengths[sym])
  }

  /** The sum of 2^(len - length) over the coded symbols no longer than len. */
  function KraftUpTo(lengths: seq<nat>, len: nat): nat {
    if lengths == [] then 0 else
      var l := lengths[|lengths| - 1];
      KraftUpTo(lengths[..|lengths| - 1], len) + if 0 < l <= len then Pow2(len - l) else 0
  }

  /** The Kraft sum of 2^-length over all coded symbols, in units of 2^-15. */
  function KraftSum(lengths: seq<nat>): nat {
    KraftUpTo(lengths, MAXBITS)
  }

  predicate NotOversubscribed(lengths: seq<nat>) {
    KraftSum(lengths) <= Pow2(MAXBITS)
  }

  /** The number of codes of length len that no shorter or equal code has claimed. */
  function Left(lengths: seq<nat>, len: nat): int {
    if len == 0 then 1 else 2 * Left(lengths, len - 1) - Count(lengths, len)
  }

  // ---- Kraft's inequality ----

  lemma {:induction false} KraftDoubles(lengths: seq<nat>, len: nat)
    ensures KraftUpTo(lengths, len + 1) == 2 * KraftUpTo(lengths, len) + Count(lengths, len + 1)
  {
    if lengths != [] {
      KraftDoubles(lengths[..|lengths| - 1], len);
    }
  }

  lemma {:induction false} KraftUpToZero(lengths: seq<nat>)
    ensures KraftUpTo(lengths, 0) == 0
  {
    if lengths != [] {
      KraftUpToZero(lengths[..|lengths| - 1]);
    }
  }

  lemma {:induction false} LeftIsKraft(lengths: seq<nat>, len: nat)
    ensures Left(lengths, len) == Pow2(len) - KraftUpTo(lengths, len)
  {
    if len == 0 {
      KraftUpToZero(lengths);
    } else {
      LeftIsKraft(lengths, len - 1);
      KraftDoubles(lengths, len - 1);
    }
  }

  lemma {:induction false} LeftIsNextCode(lengths: seq<nat>, len: nat)
    requires len > 0
    ensures Left(lengths, len) == Pow2(len) - NextCode(lengths, len) - Count(lengths, len)
  {
    if len > 1 {
      LeftIsNextCode(lengths, len - 1);
    } else {
      assert Left(lengths, 0) == 1 && NextCode(lengths, 0) == 0;
    }
  }

  /** Once a length is over-subscribed, every longer one is, and so is the whole code. */
  lemma {:induction false} OverSubscribedStays(lengths: seq<nat>, len: nat, k: nat)
    requires Left(lengths, len) < 0
    ensures Left(lengths, len + k) < 0
  {
    if k > 0 {
      OverSubscribedStays(lengths, len, k - 1);
    }
  }

  lemma CodesFit(lengths: seq<nat>, len: nat)
    requires NotOversubscribed(lengths) && 0 < len <= MAXBITS
    ensures NextCode(lengths, len) + Count(lengths, len) <= Pow2(len)
    ensures Left(lengths, len) >= 0
  {
    LeftIsKraft(lengths, MAXBITS);
    if Left(lengths, len) < 0 {
      OverSubscribedStays(lengths, len, MAXBITS - len);
    }
    LeftIsNextCode(lengths, len);
  }

  // ---- The symbols of one length ----

  lemma {:induction false} SymbolsOfPrefix(lengths: seq<nat>, n: nat, len: nat)
    requires n <= |lengths|
    ensures SymbolsOf(lengths[..n], len) <= SymbolsOf(lengths, len)
  {
    if n < |lengths| {
      var shorter := lengths[..|lengths| - 1];
      SymbolsOfPrefix(shorter, n, len);
      assert shorter[..n] == lengths[..n];
    } else {
      assert lengths[..n] == lengths;
    }
  }

  lemma SymbolsOfNext(lengths: seq<nat>, n: nat, len: nat)
    requires n < |lengths|
    ensures SymbolsOf(lengths[..n + 1], len)
         == SymbolsOf(lengths[..n], len) + if lengths[n] == len then [n] else []
  {
    assert lengths[..n + 1][..n] == lengths[..n];
  }

  /** A symbol stands in its length's list at its rank. */
  lemma SymbolAtRank(lengths: seq<nat>, sym: nat)
    requires sym < |lengths|
    ensures Count(lengths[..sym], lengths[sym]) < Count(lengths, lengths[sym])
    ensures SymbolsOf(lengths, lengths[sym])[Count(lengths[..sym], lengths[sym])] == sym
  {
    var len := lengths[sym];
    SymbolsOfNext(lengths, sym, len);
    SymbolsOfPrefix(lengths, sym + 1, len);
    var before, upTo := SymbolsOf(lengths[..sym], len), SymbolsOf(lengths[..sym + 1], len);
    assert upTo[|before|] == sym;
  }

  /** And what stands at index k of that list is a symbol of that length and rank k. */
  lemma {:induction false} RankOfSymbol(lengths: seq<nat>, len: nat, k: nat)
    requires k < Count(lengths, len)
    ensures var sym := SymbolsOf(lengths, len)[k];
            sym < |lengths| && lengths[sym] == len && Count(lengths[..sym], len) == k
  {
    var last := |lengths| - 1;
    var shorter := lengths[..last];
    if k < Count(shorter, len) {
      RankOfSymbol(shorter, len, k);
      var sym := SymbolsOf(shorter, len)[k];
      assert shorter[..sym] == lengths[..sym];
    }
  }

  lemma {:induction false} SymbolsAscend(lengths: seq<nat>, len: nat, i: nat, j: nat)
    requires i < j < Count(lengths, len)
    ensures SymbolsOf(lengths, len)[i] < SymbolsOf(lengths, len)[j]
  {
    var last := |lengths| - 1;
    var shorter := lengths[..last];
    if j < Count(shorter, len) {
      SymbolsAscend(shorter, len, i, j);
    } else {
      RankOfSymbol(shorter, len, i);
    }
  }

  lemma {:induction false} StartMonotone(lengths: seq<nat>, a: nat, b: nat)
    requires a <= b
    ensures Start(lengths, a) <= Start(lengths, b)
  {
    if a < b {
      StartMonotone(lengths, a, b - 1);
    }
  }

  lemma {:induction false} StartAppend(lengths: seq<nat>, l: nat, len: nat)
    ensures Start(lengths + [l], len) == Start(lengths, len) + if 0 < l < len then 1 else 0
  {
    assert (lengths + [l])[..|lengths|] == lengths;
    if len > 1 {
      StartAppend(lengths, l, len - 1);
    }
  }

  lemma {:induction false} CodedBound(lengths: seq<nat>)
    ensures Coded(lengths) <= |lengths|
  {
    if lengths == [] {
      CodedEmpty(MAXBITS + 1);
    } else {
      var last := |lengths| - 1;
      CodedBound(lengths[..last]);
      StartAppend(lengths[..last], lengths[last], MAXBITS + 1);
      assert lengths[..last] + [lengths[last]] == lengths;
    }
  }

  lemma {:induction false} CodedEmpty(len: nat)
    ensures Start([], len) == 0
  {
    if len > 1 {
      CodedEmpty(len - 1);
    }
  }

  /** Uncoded and coded symbols make up all symbols. */
  lemma {:induction false} UncodedAndCoded(lengths: seq<nat>)
    requires LengthsOk(lengths)
    ensures Count(lengths, 0) + Coded(lengths) == |lengths|
  {
    if lengths == [] {
      CodedEmpty(MAXBITS + 1);
    } else {
      var last := |lengths| - 1;
      UncodedAndCoded(lengths[..last]);
      StartAppend(lengths[..last], lengths[last], MAXBITS + 1);
      assert lengths[..last] + [lengths[last]] == lengths;
    }
  }

  // ---- The canonical code ----

  lemma CodeFits(lengths: seq<nat>, sym: nat)
    requires LengthsOk(lengths) && NotOversubscribed(lengths)
    requires sym < |lengths| && lengths[sym] > 0
    ensures Code(lengths, sym) < NextCode(lengths, lengths[sym]) + Count(lengths, lengths[sym]) <= Pow2(lengths[sym])
    ensures CodeValue(Word(lengths, sym)) == Code(lengths, sym)
  {
    SymbolAtRank(lengths, sym);
    CodesFit(lengths, lengths[sym]);
    CodeValueOfCodeWord(Code(lengths, sym), lengths[sym]);
  }

  /** A bit string not below the codes of its length is, cut shorter, above all codes of the
      shorter length. */
  lemma {:induction false} PrefixAboveShorterCodes(lengths: seq<nat>, b: seq<bool>, len: nat)
    requires 0 < len < |b|
    requires CodeValue(b) >= NextCode(lengths, |b|)
    ensures CodeValue(b[..len]) >= NextCode(lengths, len) + Count(lengths, len)
  {
    var cut := b[..|b| - 1];
    if len < |cut| {
      PrefixAboveShorterCodes(lengths, cut, len);
      assert cut[..len] == b[..len];
    } else {
      assert cut == b[..len];
    }
  }

  /** One length, one code: one symbol. */
  lemma SameCode(lengths: seq<nat>, s: nat, t: nat)
    requires s < |lengths| && t < |lengths| && lengths[s] == lengths[t]
    requires Code(lengths, s) == Code(lengths, t)
    ensures s == t
  {
    SymbolAtRank(lengths, s);
    SymbolAtRank(lengths, t);
  }

  /** The symbol at a rank has the code that the rank gives it. */
  lemma WordAtRank(lengths: seq<nat>, b: seq<bool>, k: nat)
    requires k < Count(lengths, |b|)
    requires CodeValue(b) == NextCode(lengths, |b|) + k
    ensures var sym := SymbolsOf(lengths, |b|)[k];
            sym < |lengths| && lengths[sym] == |b| && Word(lengths, sym) == b
  {
    RankOfSymbol(lengths, |b|, k);
    WordOfBits(lengths, SymbolsOf(lengths, |b|)[k], b);
  }

  lemma WordOfBits(lengths: seq<nat>, sym: nat, b: seq<bool>)
    requires sym < |lengths| && lengths[sym] == |b| && Code(lengths, sym) == CodeValue(b)
    ensures Word(lengths, sym) == b
  {
    CodeWordOfCodeValue(b);
  }

  /** No code word is a prefix of another's. */
  lemma PrefixFree(lengths: seq<nat>, s: nat, t: nat)
    requires LengthsOk(lengths) && NotOversubscribed(lengths)
    requires s < |lengths| && t < |lengths| && lengths[s] > 0 && lengths[t] > 0
    requires Word(lengths, s) <= Word(lengths, t)
    ensures s == t
  {
    CodeFits(lengths, s);
    CodeFits(lengths, t);
    var v, w := Word(lengths, s), Word(lengths, t);
    assert v == w[..|v|];
    if |v| < |w| {
      PrefixAboveShorterCodes(lengths, w, |v|);
    } else {
      assert v == w;
      SameCode(lengths, s, t);
    }
  }

  // ---- Decoding ----

  datatype Decoded =
    | Symbol(sym: nat, rest: seq<bool>)
    | NoCode(rest: seq<bool>)
    | OutOfInput

  predicate Matches(lengths: seq<nat>, sym: nat, bits: seq<bool>) {
    sym < |lengths| && lengths[sym] > 0 && Word(lengths, sym) <= bits
  }

  /** What the decoder is for: the symbol whose code word the bits start with; with no such
      symbol it has to see MAXBITS bits before it can say so. */
  ghost function Decode(lengths: seq<nat>, bits: seq<bool>): (d: Decoded)
    ensures d.Symbol? ==> d.sym < |lengths| && |d.rest| < |bits|
  {
    if exists sym: nat :: Matches(lengths, sym, bits) then
      var sym: nat :| Matches(lengths, sym, bits);
      Symbol(sym, bits[lengths[sym]..])
    else if |bits| < MAXBITS then OutOfInput
    else NoCode(bits[MAXBITS..])
  }

  lemma MatchIsUnique(lengths: seq<nat>, s: nat, t: nat, bits: seq<bool>)
    requires LengthsOk(lengths) && NotOversubscribed(lengths)
    requires Matches(lengths, s, bits) && Matches(lengths, t, bits)
    ensures s == t
  {
    if lengths[s] <= lengths[t] {
      assert Word(lengths, s) <= Word(lengths, t);
      PrefixFree(lengths, s, t);
    } else {
      assert Word(lengths, t) <= Word(lengths, s);
      PrefixFree(lengths, t, s);
    }
  }

  /** A symbol's code word, followed by anything, decodes to that symbol and no bit more is read. */
  lemma DecodeOfWord(lengths: seq<nat>, sym: nat, tail: seq<bool>)
    requires LengthsOk(lengths) && NotOversubscribed(lengths)
    requires sym < |lengths| && lengths[sym] > 0
    ensures Decode(lengths, Word(lengths, sym) + tail) == Symbol(sym, tail)
  {
    var bits := Word(lengths, sym) + tail;
    assert Matches(lengths, sym, bits);
    var s: nat :| Matches(lengths, s, bits) && Decode(lengths, bits) == Symbol(s, bits[lengths[s]..]);
    MatchIsUnique(lengths, s, sym, bits);
  }

  /** Decoding reads exactly a code word. */
  lemma WordOfDecode(lengths: seq<nat>, bits: seq<bool>)
    requires Decode(lengths, bits).Symbol?
    ensures var d := Decode(lengths, bits);
            lengths[d.sym] > 0 && bits == Word(lengths, d.sym) + d.rest
  {
    var s: nat :| Matches(lengths, s, bits) && Decode(lengths, bits) == Symbol(s, bits[lengths[s]..]);
    assert bits == bits[..lengths[s]] + bits[lengths[s]..];
  }

  // ---- The walk both decoders take ----

  /** The state before bit len is read: no symbol shorter than len matches, code is twice the
      value of the bits read, first and index are the first code and table slot of length len. */
  ghost predicate Searching(lengths: seq<nat>, bits: seq<bool>, len: nat, code: nat, first: nat, index: nat) {
    && 1 <= len <= MAXBITS + 1
    && len - 1 <= |bits|
    && code == 2 * CodeValue(bits[..len - 1])
    && first == NextCode(lengths, len) <= code
    && index == Start(lengths, len)
    && forall sym: nat :: sym < |lengths| && 0 < lengths[sym] < len ==> !Matches(lengths, sym, bits)
  }

  lemma StartSearching(lengths: seq<nat>, bits: seq<bool>)
    ensures Searching(lengths, bits, 1, 0, 0, 0)
  {
    assert NextCode(lengths, 0) == 0 && bits[..0] == [];
  }

  lemma ValueOfOneMoreBit(bits: seq<bool>, len: nat)
    requires 0 < len <= |bits|
    ensures CodeValue(bits[..len]) == 2 * CodeValue(bits[..len - 1]) + Bit(bits[len - 1])
  {
    assert bits[..len][..len - 1] == bits[..len - 1];
  }

  lemma CutAndJoin(bits: seq<bool>, n: nat)
    requires n <= |bits|
    ensures bits[..n] + bits[n..] == bits
  {
  }

  /** The bits read are a code of this length: the table slot holds the decoded symbol. */
  lemma FoundSymbol(lengths: seq<nat>, bits: seq<bool>, len: nat, code: nat, first: nat, index: nat)
    requires LengthsOk(lengths) && NotOversubscribed(lengths)
    requires Searching(lengths, bits, len, code, first, index) && len <= MAXBITS && len <= |bits|
    requires code + Bit(bits[len - 1]) < first + Count(lengths, len)
    ensures var k := code + Bit(bits[len - 1]) - first;
            Decode(lengths, bits) == Symbol(SymbolsOf(lengths, len)[k], bits[len..])
  {
    var k := code + Bit(bits[len - 1]) - first;
    ValueOfOneMoreBit(bits, len);
    WordAtRank(lengths, bits[..len], k);
    CutAndJoin(bits, len);
    DecodeOfWord(lengths, SymbolsOf(lengths, len)[k], bits[len..]);
  }

  /** They are not: the walk goes on to the next length. */
  lemma NotThisLength(lengths: seq<nat>, bits: seq<bool>, len: nat, code: nat, first: nat, index: nat)
    requires LengthsOk(lengths) && NotOversubscribed(lengths)
    requires Searching(lengths, bits, len, code, first, index) && len <= MAXBITS && len <= |bits|
    requires code + Bit(bits[len - 1]) >= first + Count(lengths, len)
    ensures Searching(lengths, bits, len + 1, 2 * (code + Bit(bits[len - 1])),
                      2 * (first + Count(lengths, len)), index + Count(lengths, len))
  {
    ValueOfOneMoreBit(bits, len);
    forall sym: nat | sym < |lengths| && 0 < lengths[sym] < len + 1
      ensures !Matches(lengths, sym, bits)
    {
      if lengths[sym] == len && Matches(lengths, sym, bits) {
        assert Word(lengths, sym) == bits[..len];
        CodeFits(lengths, sym);
      }
    }
  }

  lemma WalkedAllLengths(lengths: seq<nat>, bits: seq<bool>, code: nat, first: nat, index: nat)
    requires LengthsOk(lengths)
    requires Searching(lengths, bits, MAXBITS + 1, code, first, index)
    ensures Decode(lengths, bits) == NoCode(bits[MAXBITS..])
  {
  }

  lemma RanOutOfBits(lengths: seq<nat>, bits: seq<bool>, len: nat, code: nat, first: nat, index: nat)
    requires Searching(lengths, bits, len, code, first, index) && len <= MAXBITS && |bits| == len - 1
    ensures Decode(lengths, bits) == OutOfInput
  {
  }

  // ---- Empty and complete codes ----

  lemma NoneCoded(lengths: seq<nat>, sym: nat)
    requires LengthsOk(lengths) && sym < |lengths| && lengths[sym] > 0
    ensures Coded(lengths) > 0
  {
    hide Word;
    SymbolAtRank(lengths, sym);
    StartMonotone(lengths, lengths[sym] + 1, MAXBITS + 1);
    assert Start(lengths, lengths[sym] + 1) == Start(lengths, lengths[sym]) + Count(lengths, lengths[sym]);
  }

  lemma EmptyNeverDecodes(lengths: seq<nat>, bits: seq<bool>)
    requires LengthsOk(lengths) && Coded(lengths) == 0
    ensures Decode(lengths, bits) == if |bits| < MAXBITS then OutOfInput else NoCode(bits[MAXBITS..])
  {
    forall sym: nat ensures !Matches(lengths, sym, bits) {
      if sym < |lengths| && lengths[sym] > 0 {
        NoneCoded(lengths, sym);
      }
    }
  }

  lemma MatchInRange(lengths: seq<nat>, bits: seq<bool>, len: nat) returns (sym: nat)
    requires 0 < len <= |bits|
    requires NextCode(lengths, len) <= CodeValue(bits[..len]) < NextCode(lengths, len) + Count(lengths, len)
    ensures Matches(lengths, sym, bits)
  {
    var k := CodeValue(bits[..len]) - NextCode(lengths, len);
    sym := SymbolsOf(lengths, len)[k];
    WordAtRank(lengths, bits[..len], k);
  }

  lemma {:induction false} AboveAllCodes(lengths: seq<nat>, bits: seq<bool>, len: nat)
    requires 0 < len <= |bits|
    requires forall sym: nat :: !Matches(lengths, sym, bits)
    ensures CodeValue(bits[..len]) >= NextCode(lengths, len) + Count(lengths, len)
  {
    if len == 1 {
      assert NextCode(lengths, 0) == 0;
    } else {
      AboveAllCodes(lengths, bits, len - 1);
    }
    ValueOfOneMoreBit(bits, len);
    assert NextCode(lengths, len) <= CodeValue(bits[..len]);
    if CodeValue(bits[..len]) < NextCode(lengths, len) + Count(lengths, len) {
      var sym := MatchInRange(lengths, bits, len);
    }
  }

  lemma {:induction false} NoCodesNoKraft(lengths: seq<nat>, len: nat)
    requires forall i :: 0 <= i < |lengths| ==> lengths[i] == 0
    ensures KraftUpTo(lengths, len) == 0
  {
    if lengths != [] {
      NoCodesNoKraft(lengths[..|lengths| - 1], len);
    }
  }

  /** An empty code has nothing to add up. */
  lemma EmptyCode(lengths: seq<nat>)
    requires LengthsOk(lengths) && Coded(lengths) == 0
    ensures KraftSum(lengths) == 0
  {
    forall i | 0 <= i < |lengths| ensures lengths[i] == 0 {
      if lengths[i] > 0 {
        SymbolAtRank(lengths, i);
        StartMonotone(lengths, lengths[i] + 1, MAXBITS + 1);
      }
    }
    NoCodesNoKraft(lengths, MAXBITS);
  }

  function Ones(n: nat): (b: seq<bool>)
    ensures |b| == n
    ensures CodeValue(b) == Pow2(n) - 1
  {
    if n == 0 then [] else
      assert (Ones(n - 1) + [true])[..n - 1] == Ones(n - 1);
      Ones(n - 1) + [true]
  }

  lemma CompleteCodesFill(lengths: seq<nat>)
    ensures KraftSum(lengths) == Pow2(MAXBITS)
       <==> NextCode(lengths, MAXBITS) + Count(lengths, MAXBITS) == Pow2(MAXBITS)
  {
    LeftIsKraft(lengths, MAXBITS);
    LeftIsNextCode(lengths, MAXBITS);
  }

  lemma CompleteAlwaysDecodes(lengths: seq<nat>, bits: seq<bool>)
    requires LengthsOk(lengths) && KraftSum(lengths) == Pow2(MAXBITS)
    ensures !Decode(lengths, bits).NoCode?
  {
    if Decode(lengths, bits).NoCode? {
      AboveAllCodes(lengths, bits, MAXBITS);
      CompleteCodesFill(lengths);
    }
  }

  lemma OnesMatchNothing(lengths: seq<nat>, sym: nat, ones: seq<bool>)
    requires LengthsOk(lengths) && KraftSum(lengths) < Pow2(MAXBITS)
    requires |ones| == MAXBITS && CodeValue(ones) == Pow2(MAXBITS) - 1
    ensures !Matches(lengths, sym, ones)
  {
    hide KraftSum, NextCode, Count, CodeValue, Pow2, Code, CodeWord;
    CompleteCodesFill(lengths);
    CodesFit(lengths, MAXBITS);
    if Matches(lengths, sym, ones) {
      CodeFits(lengths, sym);
      var w := Word(lengths, sym);
      assert w == ones[..|w|] && (|w| == MAXBITS ==> w == ones);
      if |w| < MAXBITS {
        PrefixAboveShorterCodes(lengths, ones, |w|);
      }
    }
  }

  /** A code that is not over-subscribed is complete exactly when no bit string is without a
      symbol; the string that shows an incomplete code is all ones. */
  lemma CompleteIffAlwaysDecodes(lengths: seq<nat>)
    requires LengthsOk(lengths) && NotOversubscribed(lengths)
    ensures KraftSum(lengths) == Pow2(MAXBITS) <==> forall bits :: !Decode(lengths, bits).NoCode?
  {
    if KraftSum(lengths) == Pow2(MAXBITS) {
      forall bits ensures !Decode(lengths, bits).NoCode? {
        CompleteAlwaysDecodes(lengths, bits);
      }
    } else {
      var ones := Ones(MAXBITS);
      forall sym: nat ensures !Matches(lengths, sym, ones) {
        OnesMatchNothing(lengths, sym, ones);
      }
      assert Decode(lengths, ones).NoCode?;
    }
  }

  // ---- The sorted symbol table ----

  /** The first n slots of the table: the coded symbols by length, then by symbol. */
  function Table(lengths: seq<nat>, len: nat): (t: seq<nat>)
    ensures |t| == Start(lengths, len)
  {
    if len <= 1 then [] else Table(lengths, len - 1) + SymbolsOf(lengths, len - 1)
  }

  lemma {:induction false} TableSlot(lengths: seq<nat>, upTo: nat, len: nat, k: nat)
    requires 0 < len < upTo && k < Count(lengths, len)
    ensures Start(lengths, len) + k < Start(lengths, upTo)
    ensures Table(lengths, upTo)[Start(lengths, len) + k] == SymbolsOf(lengths, len)[k]
  {
    hide SymbolsOf;
    if len < upTo - 1 {
      TableSlot(lengths, upTo - 1, len, k);
    }
  }

  /** Every slot belongs to one length's slice. */
  lemma {:induction false} SlotOwner(lengths: seq<nat>, upTo: nat, i: nat) returns (len: nat, k: nat)
    requires i < Start(lengths, upTo)
    ensures 0 < len < upTo && k < Count(lengths, len) && i == Start(lengths, len) + k
    ensures Table(lengths, upTo)[i] == SymbolsOf(lengths, len)[k]
  {
    if i < Start(lengths, upTo - 1) {
      len, k := SlotOwner(lengths, upTo - 1, i);
      assert Table(lengths, upTo)[i] == Table(lengths, upTo - 1)[i];
    } else {
      len, k := upTo - 1, i - Start(lengths, upTo - 1);
    }
  }

  /** The table is sorted by (length, symbol), strictly, so it holds no symbol twice. */
  lemma TableSorted(lengths: seq<nat>, i: nat, j: nat)
    requires i < j < Coded(lengths)
    ensures var t := Table(lengths, MAXBITS + 1);
            t[i] < |lengths| && t[j] < |lengths| &&
            (lengths[t[i]] < lengths[t[j]] || (lengths[t[i]] == lengths[t[j]] && t[i] < t[j]))
  {
    var li, ki := SlotOwner(lengths, MAXBITS + 1, i);
    var lj, kj := SlotOwner(lengths, MAXBITS + 1, j);
    RankOfSymbol(lengths, li, ki);
    RankOfSymbol(lengths, lj, kj);
    if lj < li {
      StartMonotone(lengths, lj + 1, li);
    } else if li == lj {
      SymbolsAscend(lengths, li, ki, kj);
    }
  }

  /** And it holds exactly the coded symbols. */
  lemma TableHoldsCodedSymbols(lengths: seq<nat>, sym: nat)
    requires LengthsOk(lengths)
    ensures sym in Table(lengths, MAXBITS + 1) <==> sym < |lengths| && lengths[sym] > 0
  {
    var t := Table(lengths, MAXBITS + 1);
    if sym < |lengths| && lengths[sym] > 0 {
      SymbolAtRank(lengths, sym);
      TableSlot(lengths, MAXBITS + 1, lengths[sym], Count(lengths[..sym], lengths[sym]));
    }
    if sym in t {
      var i :| 0 <= i < |t| && t[i] == sym;
      var len, k := SlotOwner(lengths, MAXBITS + 1, i);
      RankOfSymbol(lengths, len, k);
    }
  }
}
