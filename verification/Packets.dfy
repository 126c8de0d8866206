/** Two formats of packets, and which bytes and bits of a packet are which field. */
module Packets {
  import opened BitFields
  import opened BitStrings

  lemma {:induction false} ReadNetFits(bytes: seq<byte>)
    ensures ReadNet(bytes) < Pow2(8 * |bytes|)
  {
    if bytes != [] {
      var front := bytes[..|bytes| - 1];
      ReadNetFits(front);
      ShiftMultiplies(Pow2(8 * |front|), 8);
      EightMore(8 * |front|);
    }
  }

  lemma ValueOfBytes(bytes: seq<byte>)
    ensures CodeValue(BigBits(bytes)) == ReadNet(bytes)
  {
    hide *;
    ReadNetBits(bytes);
    ReadNetFits(bytes);
    CodeValueOfCodeWord(ReadNet(bytes), 8 * |bytes|);
  }

  /** A field that is some whole bytes is the number they spell. */
  lemma WholeBytes(bytes: seq<byte>, at: nat, n: nat)
    requires at + n <= |bytes|
    ensures var end := at + n; CodeValue(BigBits(bytes)[8 * at..8 * end]) == ReadNet(bytes[at..end])
  {
    hide *;
    BigBitsSlice(bytes, at, at + n);
    ValueOfBytes(bytes[at..at + n]);
  }

  /** One field more. */
  lemma PlaceStep(fields: seq<Field>, f: Field)
    ensures PlaceOf(fields + [f]) == Next(PlaceOf(fields), f)
  {
    assert (fields + [f])[..|fields|] == fields;
  }

  // ---- urdp_packet_basic_format ----

  /** control, peer_id, lostrate_recving, id_for_lost_detect, session_id, bandwidth_recving and window. */
  function Urdp(): (fields: seq<Field>)
    ensures |fields| == 7
  {
    [Field(4, 8), Field(4, 24), Field(4, 8), Field(4, 8), Field(4, 16), Field(4, 16), Field(4, 16)]
  }

  /** In which unit of four bytes each field is, and where it ends. */
  function UrdpPlace(i: nat): Place
    requires i < 7
  {
    [Place(0, 8, 32), Place(0, 32, 32), Place(32, 40, 32), Place(32, 48, 32), Place(32, 64, 32), Place(64, 80, 32), Place(64, 96, 32)][i]
  }

  lemma UrdpNext(i: nat)
    requires i < 7
    ensures UrdpPlace(i) == Next(if i == 0 then Place(0, 0, 0) else UrdpPlace(i - 1), Urdp()[i])
  {
  }

  lemma {:induction false} UrdpPlaces(i: nat)
    requires i < 7
    ensures PlaceAt(Urdp(), i) == UrdpPlace(i)
  {
    hide Urdp, UrdpPlace, Next;
    UrdpNext(i);
    if i > 0 {
      UrdpPlaces(i - 1);
    }
    PlaceStep(Urdp()[..i], Urdp()[i]);
    assert Urdp()[..i + 1] == Urdp()[..i] + [Urdp()[i]];
  }

  lemma UrdpFits(i: nat)
    requires i < 7
    ensures FieldFits(Urdp(), i) && UnitFits(12, 0, Urdp(), i)
  {
    hide PlaceOf, Head;
    UrdpPlaces(i);
  }

  lemma UrdpCovers()
    ensures Covers(12, 0, Urdp())
  {
    hide FieldFits, UnitFits, PlaceOf, Urdp;
    forall i | 0 <= i < |Urdp()| ensures FieldFits(Urdp(), i) && UnitFits(12, 0, Urdp(), i) {
      UrdpFits(i);
    }
  }

  /** Two and three bytes. */
  lemma ReadNetFew(bytes: seq<byte>)
    ensures |bytes| == 1 ==> ReadNet(bytes) == bytes[0]
    ensures |bytes| == 2 ==> ReadNet(bytes) == 256 * bytes[0] as nat + bytes[1]
    ensures |bytes| == 3 ==> ReadNet(bytes) == 65536 * bytes[0] as nat + 256 * bytes[1] as nat + bytes[2]
  {
    if 0 < |bytes| <= 3 {
      assert ReadNet(bytes) == 256 * ReadNet(bytes[..|bytes| - 1]) + bytes[|bytes| - 1];
      if |bytes| > 1 {
        ReadNetFew(bytes[..|bytes| - 1]);
      }
    }
  }

  /** What the getter of field `i` returns. */
  ghost function Value(bytes: seq<byte>, fields: seq<Field>, i: nat): nat
    requires Covers(|bytes|, 0, fields) && i < |fields|
  {
    SliceFits(|bytes|, 0, fields, i);
    CodeValue(Slice(BigBits(bytes), 0, fields, i))
  }

  lemma UrdpField(bytes: seq<byte>, i: nat, at: nat, n: nat)
    requires |bytes| == 12 && i < 7 && Covers(12, 0, Urdp()) && Urdp()[i].bits == 8 * n && UrdpPlace(i).rear == 8 * at + 8 * n
    ensures at + n <= 12 && Value(bytes, Urdp(), i) == ReadNet(bytes[at..at + n])
  {
    UrdpPlaces(i);
    WholeBytes(bytes, at, n);
    SliceFits(12, 0, Urdp(), i);
    ReadNetFew(bytes[at..at + n]);
  }

  /** The header of 12 bytes, field by field. */
  lemma UrdpHeader(bytes: seq<byte>)
    requires |bytes| == 12
    ensures Covers(12, 0, Urdp())
    ensures Value(bytes, Urdp(), 0) == bytes[0]
    ensures Value(bytes, Urdp(), 1) == 65536 * bytes[1] as nat + 256 * bytes[2] as nat + bytes[3]
    ensures Value(bytes, Urdp(), 2) == bytes[4] && Value(bytes, Urdp(), 3) == bytes[5]
    ensures Value(bytes, Urdp(), 4) == 256 * bytes[6] as nat + bytes[7]
    ensures Value(bytes, Urdp(), 5) == 256 * bytes[8] as nat + bytes[9]
    ensures Value(bytes, Urdp(), 6) == 256 * bytes[10] as nat + bytes[11]
  {
    UrdpCovers();
    hide Covers, BigBits, CodeValue, ReadNet, Value;
    UrdpField(bytes, 0, 0, 1);
    UrdpField(bytes, 1, 1, 3);
    UrdpField(bytes, 2, 4, 1);
    UrdpField(bytes, 3, 5, 1);
    UrdpField(bytes, 4, 6, 2);
    UrdpField(bytes, 5, 8, 2);
    UrdpField(bytes, 6, 10, 2);
    ReadNetFew(bytes[0..1]);
    ReadNetFew(bytes[1..4]);
    ReadNetFew(bytes[4..5]);
    ReadNetFew(bytes[5..6]);
    ReadNetFew(bytes[6..8]);
    ReadNetFew(bytes[8..10]);
    ReadNetFew(bytes[10..12]);
  }

  // ---- Fields of less than a byte ----

  /** nested_field2, nested_field3 and nested_field4 of the documentation's example. */
  function Nested(): (fields: seq<Field>)
    ensures |fields| == 3
  {
    [Field(2, 2), Field(2, 5), Field(2, 9)]
  }

  function NestedPlace(i: nat): Place
    requires i < 3
  {
    [Place(0, 2, 16), Place(0, 7, 16), Place(0, 16, 16)][i]
  }

  lemma NestedNext(i: nat)
    requires i < 3
    ensures NestedPlace(i) == Next(if i == 0 then Place(0, 0, 0) else NestedPlace(i - 1), Nested()[i])
  {
  }

  lemma {:induction false} NestedPlaces(i: nat)
    requires i < 3
    ensures PlaceAt(Nested(), i) == NestedPlace(i)
  {
    hide Nested, NestedPlace, Next;
    NestedNext(i);
    if i > 0 {
      NestedPlaces(i - 1);
    }
    PlaceStep(Nested()[..i], Nested()[i]);
    assert Nested()[..i + 1] == Nested()[..i] + [Nested()[i]];
  }

  lemma NestedFits(i: nat)
    requires i < 3
    ensures FieldFits(Nested(), i) && UnitFits(2, 0, Nested(), i)
  {
    hide PlaceOf, Head;
    NestedPlaces(i);
  }

  lemma NestedCovers()
    ensures Covers(2, 0, Nested())
  {
    hide FieldFits, UnitFits, PlaceOf, Nested;
    forall i | 0 <= i < |Nested()| ensures FieldFits(Nested(), i) && UnitFits(2, 0, Nested(), i) {
      NestedFits(i);
    }
  }

  lemma FieldPowers()
    ensures Pow2(2) == 4 && Pow2(5) == 32 && Pow2(9) == 512
  {
  }

  /** The 16 bits of two bytes, cut after 2 and after 7 of them. */
  lemma NestedBits(x: nat, y: nat, z: nat, a: byte, b: byte)
    requires x < 4 && y < 32 && z < 512 && 256 * a as nat + b == 16384 * x + 512 * y + z
    ensures BigBits([a, b]) == CodeWord(x, 2) + CodeWord(y, 5) + CodeWord(z, 9)
  {
    hide *;
    FieldPowers();
    var bytes: seq<byte> := [a, b];
    ReadNetFew(bytes);
    ReadNetBits(bytes);
    ShiftMultiplies(x, 5);
    ShiftMultiplies(32 * x + y, 9);
    CodeWordJoin(x, 2, y, 5);
    CodeWordJoin(32 * x + y, 7, z, 9);
    assert Shl(32 * x + y, 9) + z == 256 * a as nat + b as nat;
  }

  lemma NestedValues(x: nat, y: nat, z: nat, a: byte, b: byte)
    requires x < 4 && y < 32 && z < 512 && 256 * a as nat + b == 16384 * x + 512 * y + z
    ensures var bits := BigBits([a, b]); CodeValue(bits[0..2]) == x && CodeValue(bits[2..7]) == y && CodeValue(bits[7..16]) == z
  {
    hide *;
    NestedBits(x, y, z, a, b);
    FieldPowers();
    CodeValueOfCodeWord(x, 2);
    CodeValueOfCodeWord(y, 5);
    CodeValueOfCodeWord(z, 9);
    var bits := BigBits([a, b]);
    assert bits[0..2] == CodeWord(x, 2) && bits[2..7] == CodeWord(y, 5) && bits[7..16] == CodeWord(z, 9);
  }

  /** The three fields share the two bytes from the top bit down. */
  lemma NestedFields(x: nat, y: nat, z: nat, a: byte, b: byte)
    requires x < 4 && y < 32 && z < 512 && 256 * a as nat + b == 16384 * x + 512 * y + z
    ensures Covers(2, 0, Nested())
    ensures Value([a, b], Nested(), 0) == x && Value([a, b], Nested(), 1) == y && Value([a, b], Nested(), 2) == z
  {
    NestedCovers();
    NestedPlaces(0);
    NestedPlaces(1);
    NestedPlaces(2);
    NestedValues(x, y, z, a, b);
    hide Covers, Fit, CodeWord, CodeValue, BigBits;
  }
}
