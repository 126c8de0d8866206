/** Bit fields of packets: a field is written by masks within an integer read from the buffer in
    network order; what that means for the buffer as a string of bits, the most significant first. */
module BitFields {
  import opened BinMaps
  import opened BitStrings

  // ---- The buffer ----

  /** The bits of a buffer, most significant bit of each byte first. */
  function BigBits(bytes: seq<byte>): (b: seq<bool>)
    ensures |b| == 8 * |bytes|
  {
    if bytes == [] then [] else CodeWord(bytes[0], 8) + BigBits(bytes[1..])
  }

  /** read_int_ntoh. */
  function ReadNet(bytes: seq<byte>): nat {
    if bytes == [] then 0 else 256 * ReadNet(bytes[..|bytes| - 1]) + bytes[|bytes| - 1]
  }

  /** The bytes that write_int_hton writes. */
  function WriteNet(w: nat, n: nat): (bytes: seq<byte>)
    ensures |bytes| == n
  {
    if n == 0 then [] else WriteNet(w / 256, n - 1) + [w % 256]
  }

  lemma {:induction false} BigBitsJoin(a: seq<byte>, b: seq<byte>)
    ensures BigBits(a + b) == BigBits(a) + BigBits(b)
  {
    if a == [] {
      assert a + b == b;
    } else {
      BigBitsJoin(a[1..], b);
      assert (a + b)[1..] == a[1..] + b;
    }
  }

  lemma {:induction false} CodeWordJoin(v: nat, m: nat, x: nat, k: nat)
    requires x < Pow2(k)
    ensures CodeWord(Shl(v, k) + x, m + k) == CodeWord(v, m) + CodeWord(x, k)
  {
    if k > 0 {
      assert (Shl(v, k) + x) / 2 == Shl(v, k - 1) + x / 2;
      CodeWordJoin(v, m, x / 2, k - 1);
    }
  }

  lemma ByteJoin(v: nat, m: nat, x: byte)
    ensures CodeWord(256 * v + x, m + 8) == CodeWord(v, m) + CodeWord(x, 8)
  {
    ShiftMultiplies(v, 8);
    assert Pow2(8) == 256;
    CodeWordJoin(v, m, x, 8);
  }

  /** Reading takes the bits as they are. */
  lemma {:induction false} ReadNetBits(bytes: seq<byte>)
    ensures CodeWord(ReadNet(bytes), 8 * |bytes|) == BigBits(bytes)
  {
    if bytes != [] {
      var front, last := bytes[..|bytes| - 1], bytes[|bytes| - 1];
      ReadNetBits(front);
      ByteJoin(ReadNet(front), 8 * |front|, last);
      BigBitsJoin(front, [last]);
      assert bytes == front + [last];
    }
  }

  lemma OneByteBits(b: byte)
    ensures BigBits([b]) == CodeWord(b, 8)
  {
    assert BigBits([b]) == CodeWord(b, 8) + BigBits([]) && BigBits([]) == [];
  }

  /** So does writing. */
  lemma {:induction false} WriteNetBits(w: nat, n: nat)
    ensures BigBits(WriteNet(w, n)) == CodeWord(w, 8 * n)
  {
    if n > 0 {
      var high, low: byte := w / 256, w % 256;
      WriteNetBits(high, n - 1);
      assert WriteNet(w, n) == WriteNet(high, n - 1) + [low] && w == 256 * high + low;
      OneByteBits(low);
      hide *;
      BigBitsJoin(WriteNet(high, n - 1), [low]);
      ByteJoin(high, 8 * (n - 1), low);
    }
  }

  // ---- Single bits ----

  lemma {:induction false} CodeWordAt(w: nat, n: nat, j: nat)
    requires j < n
    ensures CodeWord(w, n)[j] <==> Has(w, n - 1 - j)
  {
    if j < n - 1 {
      CodeWordAt(w / 2, n - 1, j);
    }
  }

  lemma {:induction false} HasOfLow(v: nat, n: nat, i: nat)
    ensures Has(Low(v, n), i) <==> i < n && Has(v, i)
  {
    if n == 0 {
      HasOfZero(i);
    } else if i > 0 {
      HasOfLow(v / 2, n - 1, i - 1);
    }
  }

  lemma {:induction false} HasOfOnes(n: nat, i: nat)
    ensures Has(Pow2(n) - 1, i) <==> i < n
  {
    if n == 0 {
      HasOfZero(i);
    } else if i > 0 {
      assert (Pow2(n) - 1) / 2 == Pow2(n - 1) - 1;
      HasOfOnes(n - 1, i - 1);
    }
  }

  // ---- The masks ----

  /** ((unsigned)-1 << offset) >> (width - bits), in words of the type's width. */
  function FieldMask(offset: nat, bits: nat, width: nat): nat
    requires bits <= width
  {
    Shr(Low(Shl(Pow2(width) - 1, offset), width), width - bits)
  }

  /** get_bit_field on the integer read. */
  function GetField(w: nat, offset: nat, bits: nat, width: nat): nat
    requires offset + bits <= width
  {
    And(Shr(w, width - bits - offset), FieldMask(offset, bits, width))
  }

  /** set_bit_field on the integer read. */
  function SetField(w: nat, offset: nat, bits: nat, width: nat, val: nat): nat
    requires offset + bits <= width
  {
    var k := width - bits - offset;
    var mask := Low(Shl(FieldMask(offset, bits, width), k), width);
    Or(And(w, Not(mask, width)), And(Shl(val, k), mask))
  }

  /** The mask has one bit for each bit of the field. */
  lemma MaskHas(offset: nat, bits: nat, width: nat, i: nat)
    requires offset + bits <= width
    ensures Has(FieldMask(offset, bits, width), i) <==> i < bits
  {
    HasOfShr(Low(Shl(Pow2(width) - 1, offset), width), width - bits, i);
    HasOfLow(Shl(Pow2(width) - 1, offset), width, width - bits + i);
    HasOfShl(Pow2(width) - 1, offset, width - bits + i);
    if width - bits + i >= offset {
      HasOfOnes(width, width - bits + i - offset);
    }
  }

  lemma GetHas(w: nat, offset: nat, bits: nat, width: nat, i: nat)
    requires offset + bits <= width
    ensures Has(GetField(w, offset, bits, width), i) <==> i < bits && Has(w, width - bits - offset + i)
  {
    HasOfAnd(Shr(w, width - bits - offset), FieldMask(offset, bits, width), i);
    HasOfShr(w, width - bits - offset, i);
    MaskHas(offset, bits, width, i);
  }

  lemma SetHas(w: nat, offset: nat, bits: nat, width: nat, val: nat, i: nat)
    requires offset + bits <= width && i < width
    ensures var k := width - bits - offset;
            Has(SetField(w, offset, bits, width, val), i) <==> if k <= i < k + bits then Has(val, i - k) else Has(w, i)
  {
    var k := width - bits - offset;
    var mask := Low(Shl(FieldMask(offset, bits, width), k), width);
    HasOfLow(Shl(FieldMask(offset, bits, width), k), width, i);
    HasOfShl(FieldMask(offset, bits, width), k, i);
    if i >= k {
      MaskHas(offset, bits, width, i - k);
    }
    HasOfNot(mask, width, i);
    HasOfAnd(w, Not(mask, width), i);
    HasOfShl(val, k, i);
    HasOfAnd(Shl(val, k), mask, i);
    HasOfOr(And(w, Not(mask, width)), And(Shl(val, k), mask), i);
  }

  // ---- Fields as slices ----

  /** Getting takes the slice of the word's bits as a number. */
  lemma GetIsSlice(w: nat, offset: nat, bits: nat, width: nat)
    requires offset + bits <= width
    ensures CodeWord(GetField(w, offset, bits, width), bits) == CodeWord(w, width)[offset..offset + bits]
  {
    var got := GetField(w, offset, bits, width);
    forall j | 0 <= j < bits ensures CodeWord(got, bits)[j] == CodeWord(w, width)[offset..offset + bits][j] {
      CodeWordAt(got, bits, j);
      CodeWordAt(w, width, offset + j);
      GetHas(w, offset, bits, width, bits - 1 - j);
    }
  }

  /** Setting replaces that slice and nothing else. */
  lemma SetIsSplice(w: nat, offset: nat, bits: nat, width: nat, val: nat)
    requires offset + bits <= width
    ensures CodeWord(SetField(w, offset, bits, width, val), width)
              == CodeWord(w, width)[..offset] + CodeWord(val, bits) + CodeWord(w, width)[offset + bits..]
  {
    var set0, was := CodeWord(SetField(w, offset, bits, width, val), width), CodeWord(w, width);
    var want := was[..offset] + CodeWord(val, bits) + was[offset + bits..];
    forall j | 0 <= j < width ensures set0[j] == want[j] {
      CodeWordAt(SetField(w, offset, bits, width, val), width, j);
      CodeWordAt(w, width, j);
      SetHas(w, offset, bits, width, val, width - 1 - j);
      if offset <= j < offset + bits {
        CodeWordAt(val, bits, j - offset);
      }
    }
  }

  lemma {:induction false} NoHighBits(x: nat, n: nat)
    requires forall i: nat :: i >= n ==> !Has(x, i)
    ensures x < Pow2(n)
  {
    if n == 0 {
      if x > 0 {
        TrailingZeros(x);
      }
    } else {
      forall i: nat | i >= n - 1 ensures !Has(x / 2, i) {
        var next := i + 1;
        assert !Has(x, next);
      }
      NoHighBits(x / 2, n - 1);
    }
  }

  /** What is got is the number that the slice spells. */
  lemma GetIsValue(w: nat, offset: nat, bits: nat, width: nat)
    requires offset + bits <= width
    ensures GetField(w, offset, bits, width) == CodeValue(CodeWord(w, width)[offset..offset + bits])
  {
    var got := GetField(w, offset, bits, width);
    forall i: nat | i >= bits ensures !Has(got, i) {
      GetHas(w, offset, bits, width, i);
    }
    NoHighBits(got, bits);
    GetIsSlice(w, offset, bits, width);
    CodeValueOfCodeWord(got, bits);
  }

  /** The bits of a number too large for a field are cut: what is read back is the value modulo 2^bits. */
  lemma {:induction false} CodeWordCuts(val: nat, bits: nat)
    ensures CodeWord(val, bits) == CodeWord(Low(val, bits), bits)
  {
    if bits > 0 {
      CodeWordCuts(val / 2, bits - 1);
    }
  }

  lemma ReadBackIsLow(val: nat, bits: nat)
    ensures CodeValue(CodeWord(val, bits)) == Low(val, bits)
  {
    CodeWordCuts(val, bits);
    CodeValueOfCodeWord(Low(val, bits), bits);
  }

  // ---- Layouts ----

  /** A field: the size of its type in bytes, and its bits, which are all of the type's for a plain
      field. */
  datatype Field = Field(bytes: nat, bits: nat)

  /** field_rear_offset: where the previous field's storage unit begins, where the field ends, and
      how wide its type is. */
  datatype Place = Place(head: nat, rear: nat, width: nat)

  /** field_head_offset: a field begins a new unit when the last one is full. */
  function Head(prev: Place): nat {
    if prev.head + prev.width == prev.rear then prev.rear else prev.head
  }

  function Next(prev: Place, f: Field): Place {
    Place(Head(prev), prev.rear + f.bits, 8 * f.bytes)
  }

  /** The place of the last of some fields. */
  function PlaceOf(fields: seq<Field>): Place {
    if fields == [] then Place(0, 0, 0) else Next(PlaceOf(fields[..|fields| - 1]), fields[|fields| - 1])
  }

  function PlaceAt(fields: seq<Field>, i: nat): Place
    requires i < |fields|
  {
    PlaceOf(fields[..i + 1])
  }

  /** Every field ends within its type. */
  ghost predicate Fit(fields: seq<Field>) {
    forall i :: 0 <= i < |fields| ==> FieldFits(fields, i)
  }

  ghost predicate FieldFits(fields: seq<Field>, i: nat)
    requires i < |fields|
  {
    var p := PlaceAt(fields, i);
    p.rear <= p.head + p.width
  }

  /** ABS_BIT_OFFSET, ABS_HEAD_BYTE_OFFSET and BIT_OFFSET_IN_CUR_TYPE of a field. */
  function BitOffset(base: nat, fields: seq<Field>, i: nat): int
    requires i < |fields|
  {
    8 * base + PlaceAt(fields, i).rear - fields[i].bits
  }

  function OffsetInType(fields: seq<Field>, i: nat): int
    requires i < |fields|
  {
    PlaceAt(fields, i).rear - fields[i].bits - PlaceAt(fields, i).head
  }

  /** Where the accessors begin to read. */
  function Start(base: nat, fields: seq<Field>, i: nat): int
    requires i < |fields|
  {
    BitOffset(base, fields, i) / 8 - OffsetInType(fields, i) / 8
  }

  lemma {:induction false} HeadsAreBytes(fields: seq<Field>)
    requires Fit(fields)
    ensures var p := PlaceOf(fields); p.head % 8 == 0 && p.width % 8 == 0 && p.head <= p.rear <= p.head + p.width
  {
    if fields != [] {
      var front := fields[..|fields| - 1];
      forall i | 0 <= i < |front| ensures FieldFits(front, i) {
        assert FieldFits(fields, i);
        assert front[..i + 1] == fields[..i + 1];
      }
      HeadsAreBytes(front);
      assert FieldFits(fields, |fields| - 1);
      assert fields[..|fields|] == fields;
    }
  }

  /** The accessors read at the unit of the field, and the field's bits come right behind those of
      the field before. */
  lemma FieldsFollow(base: nat, fields: seq<Field>, i: nat)
    requires Fit(fields) && i < |fields|
    ensures var p := PlaceAt(fields, i);
            && p.head % 8 == 0 && Start(base, fields, i) == base + p.head / 8
            && 0 <= OffsetInType(fields, i) && OffsetInType(fields, i) + fields[i].bits <= p.width == 8 * fields[i].bytes
            && BitOffset(base, fields, i) == 8 * Start(base, fields, i) + OffsetInType(fields, i)
            && BitOffset(base, fields, i) == if i == 0 then 8 * base else BitOffset(base, fields, i - 1) + fields[i - 1].bits
  {
    hide Fit;
    PrefixFits(fields, i);
    HeadsAreBytes(fields[..i]);
    FitsAt(fields, i);
    assert fields[..i + 1][..i] == fields[..i];
    assert fields[..i + 1][i] == fields[i];
    WholeUnits(base, PlaceAt(fields, i).head, OffsetInType(fields, i));
  }

  lemma FitsAt(fields: seq<Field>, i: nat)
    requires Fit(fields) && i < |fields|
    ensures FieldFits(fields, i)
  {
  }

  lemma WholeUnits(base: nat, head: nat, offset: nat)
    requires head % 8 == 0
    ensures (8 * base + head + offset) / 8 == base + head / 8 + offset / 8
  {
    assert 8 * base + head + offset == 8 * (base + head / 8) + offset;
  }

  lemma PrefixFits(fields: seq<Field>, n: nat)
    requires Fit(fields) && n <= |fields|
    ensures Fit(fields[..n])
  {
    forall i | 0 <= i < n ensures FieldFits(fields[..n], i) {
      assert FieldFits(fields, i);
      assert fields[..n][..i + 1] == fields[..i + 1];
    }
  }

  // ---- What the macros check ----

  /** The assertion of check_bits: the bits fit the type and the field begins within its unit. It does
      not look at where the field ends. */
  predicate Accepted(fields: seq<Field>) {
    forall i :: 0 <= i < |fields| ==> AcceptedAt(fields, i)
  }

  predicate AcceptedAt(fields: seq<Field>, i: nat)
    requires i < |fields|
  {
    fields[i].bits <= 8 * fields[i].bytes && 0 <= OffsetInType(fields, i) < 8 * fields[i].bytes
  }

  /** A field of no bits behind the last bit of its unit. */
  predicate BehindUnit(fields: seq<Field>, i: nat)
    requires i < |fields|
  {
    fields[i].bits == 0 && OffsetInType(fields, i) == 8 * fields[i].bytes
  }

  /** By how much the accessors shift: TYPE_BITS - BITS - OFFSET_IN_TYPE, if that is not negative. */
  function Shift(fields: seq<Field>, i: nat): int
    requires i < |fields|
  {
    8 * fields[i].bytes - fields[i].bits - OffsetInType(fields, i)
  }

  /** A layout that fits is accepted exactly if no field of no bits lies behind its unit, and one that is
      accepted fits exactly if no field goes over the end of its unit, which is when no shift is negative. */
  lemma AcceptedFitsIff(fields: seq<Field>)
    ensures Fit(fields) ==> (Accepted(fields) <==> forall i :: 0 <= i < |fields| ==> !BehindUnit(fields, i))
    ensures Accepted(fields) ==> (Fit(fields) <==> forall i :: 0 <= i < |fields| ==> Shift(fields, i) >= 0)
  {
    forall i | 0 <= i < |fields| ensures PlaceAt(fields, i).width == 8 * fields[i].bytes {
      assert fields[..i + 1][i] == fields[i];
    }
    if Fit(fields) {
      forall i | 0 <= i < |fields| ensures AcceptedAt(fields, i) != BehindUnit(fields, i) && Shift(fields, i) >= 0 {
        FieldsFollow(0, fields, i);
        assert FieldFits(fields, i);
      }
    }
    if Accepted(fields) && forall i :: 0 <= i < |fields| ==> Shift(fields, i) >= 0 {
      forall i | 0 <= i < |fields| ensures FieldFits(fields, i) {
        assert AcceptedAt(fields, i) && Shift(fields, i) >= 0;
      }
    }
  }

  /** Two fields of five bits in a byte are accepted, and the second goes over the end. */
  lemma AcceptedMayOverrun()
    ensures var fields := [Field(1, 5), Field(1, 5)]; Accepted(fields) && !Fit(fields) && Shift(fields, 1) == -2
  {
    var fields := [Field(1, 5), Field(1, 5)];
    assert fields[..0] == [] && fields[..1] == [Field(1, 5)] && fields[..2] == fields;
    assert PlaceAt(fields, 0) == Place(0, 5, 8);
    assert PlaceOf(fields) == Next(PlaceOf(fields[..1]), fields[1]);
    assert PlaceAt(fields, 1) == Place(0, 10, 8);
    assert !FieldFits(fields, 1);
  }

  /** So no two fields share a bit. */
  lemma {:induction false} FieldsAreApart(base: nat, fields: seq<Field>, i: nat, j: nat)
    requires Fit(fields) && i < j < |fields|
    ensures BitOffset(base, fields, i) + fields[i].bits <= BitOffset(base, fields, j)
    decreases j
  {
    FieldsFollow(base, fields, j);
    if i < j - 1 {
      FieldsAreApart(base, fields, i, j - 1);
    }
  }

  // ---- The accessors ----

  lemma Middle(x: seq<bool>, y: seq<bool>, z: seq<bool>)
    ensures (x + (y + z))[|x|..|x| + |y|] == y
  {
  }

  lemma ThreeParts(bytes: seq<byte>, a: nat, b: nat)
    requires a <= b <= |bytes|
    ensures bytes == bytes[..a] + (bytes[a..b] + bytes[b..])
  {
  }

  lemma BigBitsSlice(bytes: seq<byte>, a: nat, b: nat)
    requires a <= b <= |bytes|
    ensures BigBits(bytes[a..b]) == BigBits(bytes)[8 * a..8 * b]
  {
    hide BigBits;
    var x, y, z := bytes[..a], bytes[a..b], bytes[b..];
    ThreeParts(bytes, a, b);
    BigBitsJoin(x, y + z);
    BigBitsJoin(y, z);
    Middle(BigBits(x), BigBits(y), BigBits(z));
  }

  lemma SliceOfSlice(bits: seq<bool>, a: nat, b: nat, i: nat, j: nat)
    requires a <= b <= |bits| && i <= j <= b - a
    ensures bits[a..b][i..j] == bits[a + i..a + j]
  {
    var mid := bits[a..b];
    assert |mid[i..j]| == |bits[a + i..a + j]|;
    forall k | 0 <= k < j - i ensures mid[i..j][k] == bits[a + i..a + j][k] {
      assert mid[i + k] == bits[a + i + k];
    }
  }

  /** get_bit_field. */
  method GetBitField(buffer: array<byte>, start: nat, bytes: nat, offset: nat, bits: nat) returns (field: nat)
    requires start + bytes <= buffer.Length && offset + bits <= 8 * bytes
    ensures var at := 8 * start + offset; field == CodeValue(BigBits(buffer[..])[at..at + bits])
  {
    hide BigBits, CodeWord, CodeValue, GetField, ReadNet;
    var unit := buffer[start..start + bytes];
    field := GetField(ReadNet(unit), offset, bits, 8 * bytes);
    SliceOfSlice(BigBits(buffer[..]), 8 * start, 8 * (start + bytes), offset, offset + bits);
    GetIsValue(ReadNet(unit), offset, bits, 8 * bytes);
    ReadNetBits(unit);
    BigBitsSlice(buffer[..], start, start + bytes);
    assert unit == buffer[..][start..start + bytes];
  }

  /** set_bit_field. */
  method SetBitField(buffer: array<byte>, start: nat, bytes: nat, offset: nat, bits: nat, val: nat)
    requires start + bytes <= buffer.Length && offset + bits <= 8 * bytes
    modifies buffer
    ensures var at, was := 8 * start + offset, BigBits(old(buffer[..]));
            BigBits(buffer[..]) == was[..at] + CodeWord(val, bits) + was[at + bits..]
  {
    hide BigBits, CodeWord, SetField, ReadNet, WriteNet;
    ghost var before := buffer[..];
    var unit := buffer[start..start + bytes];
    var w := SetField(ReadNet(unit), offset, bits, 8 * bytes, val);
    var out := WriteNet(w, bytes);
    for i := 0 to bytes
      invariant forall k :: 0 <= k < buffer.Length ==>
                  buffer[k] == if start <= k < start + i then out[k - start] else before[k]
    {
      buffer[start + i] := out[i];
    }
    assert buffer[..] == before[..start] + out + before[start + bytes..];
    SpliceIsSet(before, buffer[..], start, bytes, offset, bits, val);
  }

  lemma SpliceIsSet(before: seq<byte>, after: seq<byte>, start: nat, bytes: nat, offset: nat, bits: nat, val: nat)
    requires start + bytes <= |before| && offset + bits <= 8 * bytes
    requires var w := SetField(ReadNet(before[start..start + bytes]), offset, bits, 8 * bytes, val);
             after == before[..start] + WriteNet(w, bytes) + before[start + bytes..]
    ensures var at, was := 8 * start + offset, BigBits(before);
            BigBits(after) == was[..at] + CodeWord(val, bits) + was[at + bits..]
  {
    hide BigBits, CodeWord, SetField, ReadNet, WriteNet;
    var unit := before[start..start + bytes];
    var w := SetField(ReadNet(unit), offset, bits, 8 * bytes, val);
    SetIsSplice(ReadNet(unit), offset, bits, 8 * bytes, val);
    ReadNetBits(unit);
    WriteNetBits(w, bytes);
    BigBitsJoin(before[..start] + WriteNet(w, bytes), before[start + bytes..]);
    BigBitsJoin(before[..start], WriteNet(w, bytes));
    BigBitsSlice(before, 0, start);
    BigBitsSlice(before, start, start + bytes);
    BigBitsSlice(before, start + bytes, |before|);
    assert before[0..start] == before[..start] && before[start + bytes..|before|] == before[start + bytes..];
    assert BigBits(before)[8 * (start + bytes)..8 * |before|] == BigBits(before)[8 * start + 8 * bytes..];
    Resplice(BigBits(before), 8 * start, 8 * bytes, offset, bits, CodeWord(val, bits));
  }

  lemma Resplice(was: seq<bool>, s: nat, n: nat, offset: nat, bits: nat, word: seq<bool>)
    requires s + n <= |was| && offset + bits <= n && |word| == bits
    ensures var unit := was[s..s + n];
            was[0..s] + (unit[..offset] + word + unit[offset + bits..]) + was[s + n..]
              == was[..s + offset] + word + was[s + offset + bits..]
  {
  }

  // ---- Packets ----

  /** A packet format over a buffer: its fields from byte `base` on. */
  ghost predicate Covers(length: nat, base: nat, fields: seq<Field>) {
    Fit(fields) && forall i :: 0 <= i < |fields| ==> UnitFits(length, base, fields, i)
  }

  ghost predicate UnitFits(length: nat, base: nat, fields: seq<Field>, i: nat)
    requires i < |fields|
  {
    Start(base, fields, i) + fields[i].bytes <= length
  }

  /** The slice that is a field. */
  ghost function Slice(bits: seq<bool>, base: nat, fields: seq<Field>, i: nat): seq<bool>
    requires Fit(fields) && i < |fields| && BitOffset(base, fields, i) + fields[i].bits <= |bits|
  {
    FieldsFollow(base, fields, i);
    bits[BitOffset(base, fields, i)..BitOffset(base, fields, i) + fields[i].bits]
  }

  lemma SliceFits(length: nat, base: nat, fields: seq<Field>, i: nat)
    requires Covers(length, base, fields) && i < |fields|
    ensures 0 <= Start(base, fields, i) && 0 <= OffsetInType(fields, i)
    ensures OffsetInType(fields, i) + fields[i].bits <= 8 * fields[i].bytes && Start(base, fields, i) + fields[i].bytes <= length
    ensures BitOffset(base, fields, i) == 8 * Start(base, fields, i) + OffsetInType(fields, i)
    ensures BitOffset(base, fields, i) + fields[i].bits <= 8 * length
  {
    FieldsFollow(base, fields, i);
    assert UnitFits(length, base, fields, i);
  }

  /** The getter of field `i` of a packet: the number its slice spells. */
  method Get(buffer: array<byte>, base: nat, fields: seq<Field>, i: nat) returns (field: nat)
    requires Covers(buffer.Length, base, fields) && i < |fields|
    ensures BitOffset(base, fields, i) + fields[i].bits <= 8 * buffer.Length
    ensures field == CodeValue(Slice(BigBits(buffer[..]), base, fields, i))
  {
    SliceFits(buffer.Length, base, fields, i);
    field := GetBitField(buffer, Start(base, fields, i), fields[i].bytes, OffsetInType(fields, i), fields[i].bits);
  }

  /** The setter: the field's slice spells the value modulo 2^bits, every other field is as it was,
      and so is every bit outside the slice. */
  method Set(buffer: array<byte>, base: nat, fields: seq<Field>, i: nat, val: nat)
    requires Covers(buffer.Length, base, fields) && i < |fields|
    modifies buffer
    ensures var was, now, at := BigBits(old(buffer[..])), BigBits(buffer[..]), BitOffset(base, fields, i);
            && 0 <= at && at + fields[i].bits <= |was| == |now|
            && CodeValue(Slice(now, base, fields, i)) == Low(val, fields[i].bits)
            && forall k :: 0 <= k < |was| && !(at <= k < at + fields[i].bits) ==> now[k] == was[k]
    ensures forall j :: 0 <= j < |fields| && j != i ==>
              BitOffset(base, fields, j) + fields[j].bits <= 8 * buffer.Length
              && Slice(BigBits(buffer[..]), base, fields, j) == Slice(BigBits(old(buffer[..])), base, fields, j)
  {
    SliceFits(buffer.Length, base, fields, i);
    ghost var was := BigBits(buffer[..]);
    SetBitField(buffer, Start(base, fields, i), fields[i].bytes, OffsetInType(fields, i), fields[i].bits, val);
    SetKeepsOthers(was, BigBits(buffer[..]), buffer.Length, base, fields, i, val);
  }

  lemma SetKeepsOthers(was: seq<bool>, now: seq<bool>, length: nat, base: nat, fields: seq<Field>, i: nat, val: nat)
    requires Covers(length, base, fields) && i < |fields| && |was| == 8 * length
    requires var at := BitOffset(base, fields, i);
             0 <= at && at + fields[i].bits <= |was| && now == was[..at] + CodeWord(val, fields[i].bits) + was[at + fields[i].bits..]
    ensures |now| == |was| && Slice(now, base, fields, i) == CodeWord(val, fields[i].bits)
    ensures CodeValue(Slice(now, base, fields, i)) == Low(val, fields[i].bits)
    ensures forall j :: 0 <= j < |fields| && j != i ==>
              BitOffset(base, fields, j) + fields[j].bits <= |was| && Slice(now, base, fields, j) == Slice(was, base, fields, j)
  {
    ReadBackIsLow(val, fields[i].bits);
    forall j | 0 <= j < |fields| && j != i
      ensures BitOffset(base, fields, j) + fields[j].bits <= |was| && Slice(now, base, fields, j) == Slice(was, base, fields, j)
    {
      SliceFits(length, base, fields, j);
      FieldsFollow(base, fields, j);
      if i < j {
        FieldsAreApart(base, fields, i, j);
      } else {
        FieldsAreApart(base, fields, j, i);
      }
    }
  }
}
