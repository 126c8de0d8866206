/** What a lenient reader of UTF-16 makes of any unit string: unpaired surrogates stand for
    themselves, and everything else is as in a strict call. */
module LenientUtf16 {
  import opened Conversion
  import opened Converters
  import opened Transcoding
  import opened UnicodeFacts
  import opened Utf

  predicate InRange(cs: seq<UTF32>) {
    forall i :: 0 <= i < |cs| ==> cs[i] <= MAX_LEGAL
  }

  /** The code points of a unit string: a pair is one, and any other unit is its own. */
  function Points(p: seq<UTF16>): (cs: seq<UTF32>)
    ensures InRange(cs)
  {
    if p == [] then []
    else if |p| > 1 && High(p[0]) && LowHalf(p[1]) then [ReadPair(p[0], p[1])] + Points(p[2..])
    else [p[0]] + Points(p[1..])
  }

  /** Half of a pair without the other half next to it. */
  predicate UnpairedAt(p: seq<UTF16>, i: nat)
    requires i < |p|
  {
    (High(p[i]) && !(i + 1 < |p| && LowHalf(p[i + 1]))) || (LowHalf(p[i]) && !(i > 0 && High(p[i - 1])))
  }

  predicate HasUnpaired(p: seq<UTF16>) {
    exists i :: 0 <= i < |p| && UnpairedAt(p, i)
  }

  /** Nothing is lost: the UTF-16 form of the code points is the unit string. */
  lemma {:induction false} PointsEncoded(p: seq<UTF16>)
    ensures All(Form16(), Points(p)) == p
  {
    if p != [] {
      if |p| > 1 && High(p[0]) && LowHalf(p[1]) {
        PairWasEncoded(p[0], p[1]);
        PointsEncoded(p[2..]);
        AllOfMore(Form16(), ReadPair(p[0], p[1]), Points(p[2..]));
        assert p == [p[0], p[1]] + p[2..];
      } else {
        PointsEncoded(p[1..]);
        AllOfMore(Form16(), p[0], Points(p[1..]));
        assert p == [p[0]] + p[1..];
      }
    }
  }

  lemma TextOfMore(ch: UTF32, cs: seq<UTF32>)
    ensures Text([ch] + cs) <==> Scalar(ch) && Text(cs)
  {
    var all := [ch] + cs;
    if Text(all) {
      assert Scalar(all[0]);
      forall i | 0 <= i < |cs| ensures Scalar(cs[i]) {
        assert cs[i] == all[i + 1];
      }
    }
  }

  /** A unit that is not a high surrogate, or a pair, leaves what follows as it was. */
  lemma UnpairedBehind(p: seq<UTF16>, k: nat)
    requires 1 <= k <= |p| && !High(p[k - 1])
    requires forall i :: 0 <= i < k ==> !UnpairedAt(p, i)
    ensures HasUnpaired(p) <==> HasUnpaired(p[k..])
  {
    forall i | k <= i < |p| ensures UnpairedAt(p, i) == UnpairedAt(p[k..], i - k) {
    }
    if HasUnpaired(p[k..]) {
      var i :| 0 <= i < |p[k..]| && UnpairedAt(p[k..], i);
      assert UnpairedAt(p, i + k);
    }
  }

  /** The code points are those of a text exactly when every half has its other half. */
  lemma {:induction false} TextIffPaired(p: seq<UTF16>)
    ensures Text(Points(p)) <==> !HasUnpaired(p)
  {
    if p != [] {
      if |p| > 1 && High(p[0]) && LowHalf(p[1]) {
        PairWasEncoded(p[0], p[1]);
        TextIffPaired(p[2..]);
        TextOfMore(ReadPair(p[0], p[1]), Points(p[2..]));
        UnpairedBehind(p, 2);
      } else {
        TextIffPaired(p[1..]);
        TextOfMore(p[0], Points(p[1..]));
        if Surrogate(p[0]) {
          assert UnpairedAt(p, 0);
        } else {
          UnpairedBehind(p, 1);
        }
      }
    }
  }

  // ---- UTF-8 forms are read one way ----

  lemma FirstByteTellsLength(ch: UTF32)
    requires ch <= MAX_LEGAL
    ensures TrailingBytes(Encode8(ch)[0]) == |Encode8(ch)| - 1
  {
  }

  lemma FrontOf<T>(a: seq<T>, b: seq<T>)
    ensures (a + b)[..|a|] == a && (a + b)[|a|..] == b
  {
  }

  lemma SameFirst(a: UTF32, b: UTF32, x: seq<UTF8>, y: seq<UTF8>)
    requires a <= MAX_LEGAL && b <= MAX_LEGAL && Encode8(a) + x == Encode8(b) + y
    ensures a == b && x == y
  {
    FirstByteTellsLength(a);
    FirstByteTellsLength(b);
    Read8OfEncode8(a);
    Read8OfEncode8(b);
    hide Encode8, Read8, TrailingBytes;
    FrontOf(Encode8(a), x);
    FrontOf(Encode8(b), y);
    assert (Encode8(a) + x)[0] == Encode8(a)[0] && (Encode8(b) + y)[0] == Encode8(b)[0];
  }

  lemma {:induction false} Utf8DecidesPoints(a: seq<UTF32>, b: seq<UTF32>)
    requires InRange(a) && InRange(b) && All(Form8(), a) == All(Form8(), b)
    ensures a == b
  {
    hide All, Encode8, InRange;
    FrontForm(a);
    FrontForm(b);
    if a != [] && b != [] {
      SameFirst(a[0], b[0], All(Form8(), a[1..]), All(Form8(), b[1..]));
      Utf8DecidesPoints(a[1..], b[1..]);
      assert a == [a[0]] + a[1..] && b == [b[0]] + b[1..];
    }
  }

  lemma FrontForm(cs: seq<UTF32>)
    requires InRange(cs)
    ensures cs == [] <==> All(Form8(), cs) == []
    ensures cs != [] ==> cs[0] <= MAX_LEGAL && InRange(cs[1..]) && All(Form8(), cs) == Encode8(cs[0]) + All(Form8(), cs[1..])
  {
  }

  /** A byte string that is the UTF-8 form of a text. */
  ghost predicate Utf8OfText(w: seq<UTF8>) {
    exists cs :: Text(cs) && w == All(Form8(), cs)
  }

  lemma Utf8OfTextIff(cs: seq<UTF32>)
    requires InRange(cs)
    ensures Utf8OfText(All(Form8(), cs)) <==> Text(cs)
  {
    if Utf8OfText(All(Form8(), cs)) {
      var text :| Text(text) && All(Form8(), cs) == All(Form8(), text);
      Utf8DecidesPoints(cs, text);
    }
  }

  // ---- Readers of UTF-16 ----

  /** A converter that reads the front of UTF-16 text and writes it in a form. */
  ghost predicate Reader16<T(!new)>(step: Stepper<UTF16, T>, flags: Flags, to: Form<T>) {
    forall src: seq<UTF16>, room: nat :: src != [] ==> ReadsAt(step, flags, to, src, room)
  }

  ghost predicate ReadsAt<T(!new)>(step: Stepper<UTF16, T>, flags: Flags, to: Form<T>, src: seq<UTF16>, room: nat)
    requires src != []
  {
    step(src, room) ==
    match Front16(flags, src)
    case Cannot(result) => Stop(result)
    case Char(ch, take) => if |to(ch)| > room then Stop(TargetExhausted) else Go(take, to(ch), false)
  }

  lemma FrontInRange(flags: Flags, src: seq<UTF16>)
    requires src != [] && Front16(flags, src).Char?
    ensures var c := Front16(flags, src); c.ch <= MAX_LEGAL && 1 <= c.take <= |src|
  {
    if |src| > 1 && High(src[0]) && LowHalf(src[1]) {
      PairWasEncoded(src[0], src[1]);
    }
  }

  lemma Reads16To32(flags: Flags)
    ensures Sound(From16To32(flags)) && Needs(From16To32(flags), 1) && Reader16(From16To32(flags), flags, Form32())
  {
    Traits16To32(flags);
    forall src: seq<UTF16>, room: nat | src != [] ensures ReadsAt(From16To32(flags), flags, Form32(), src, room) {
      hide Front16;
    }
  }

  lemma Reads16To8(flags: Flags)
    ensures Sound(From16To8(flags)) && Needs(From16To8(flags), 3) && Reader16(From16To8(flags), flags, Form8())
  {
    Traits16To8(flags);
    forall src: seq<UTF16>, room: nat | src != [] ensures ReadsAt(From16To8(flags), flags, Form8(), src, room) {
      hide Front16, Write8, Encode8, Write8;
      if Front16(flags, src).Char? {
        FrontInRange(flags, src);
        WrittenForm(Front16(flags, src).ch);
      }
    }
  }

  lemma WrittenForm(ch: UTF32)
    requires ch <= MAX_LEGAL
    ensures Clipped(ch) == ch && Write8(ch, BytesToWrite(ch)) == Encode8(ch) && |Encode8(ch)| == BytesToWrite(ch)
  {
    Write8IsEncode8(ch);
  }

  // ---- What is written ----

  /** Units that are taken one character at a time are taken as their code points. */
  lemma PointsOfMore(src: seq<UTF16>, n: nat)
    requires src != [] && Front16(Lenient, src).Char?
    requires Front16(Lenient, src).take + n <= |src|
    ensures var c := Front16(Lenient, src); Points(src[..c.take + n]) == [c.ch] + Points(src[c.take..][..n])
  {
    var c := Front16(Lenient, src);
    assert src[..c.take + n][c.take..] == src[c.take..][..n];
  }

  lemma {:induction false} LenientReads<T(!new)>(step: Stepper<UTF16, T>, to: Form<T>, src: seq<UTF16>, room: nat)
    requires Sound(step) && Reader16(step, Lenient, to)
    ensures var o := Convert(step, src, room); o.written == All(to, Points(src[..o.consumed]))
    decreases |src|
  {
    hide Front16, Points, Convert, Met, Reader16, All;
    NoPoints(to);
    if src == [] || step(src, room).Stop? {
      Stopped(step, src, room);
      assert src[..0] == [];
    } else {
      ReadsHere(step, Lenient, to, src, room);
      var c := Front16(Lenient, src);
      Unfold(step, src, room);
      LenientReads(step, to, src[c.take..], room - |to(c.ch)|);
      var inner := Convert(step, src[c.take..], room - |to(c.ch)|);
      PointsOfMore(src, inner.consumed);
      AllOfMore(to, c.ch, Points(src[c.take..][..inner.consumed]));
    }
  }

  lemma ReadsHere<T(!new)>(step: Stepper<UTF16, T>, flags: Flags, to: Form<T>, src: seq<UTF16>, room: nat)
    requires Reader16(step, flags, to) && src != []
    ensures ReadsAt(step, flags, to, src, room)
  {
  }

  lemma NoPoints<T>(to: Form<T>)
    ensures Points([]) == [] && All(to, Points([])) == []
  {
  }

  /** Whatever a lenient call consumed, it wrote its code points, and they determine what it
      consumed. */
  lemma LenientUtf16IsRead(src: seq<UTF16>, room: nat)
    ensures Sound(From16To32(Lenient)) && Sound(From16To8(Lenient))
    ensures var o := Convert(From16To32(Lenient), src, room);
            o.written == Points(src[..o.consumed]) && src[..o.consumed] == All(Form16(), o.written)
    ensures var o := Convert(From16To8(Lenient), src, room);
            o.written == All(Form8(), Points(src[..o.consumed]))
  {
    Reads16To32(Lenient);
    Reads16To8(Lenient);
    LenientReads(From16To32(Lenient), Form32(), src, room);
    LenientReads(From16To8(Lenient), Form8(), src, room);
    var p := src[..Convert(From16To32(Lenient), src, room).consumed];
    AllForm32(Points(p));
    PointsEncoded(p);
  }

  /** What was written is a text exactly when what was consumed has no unpaired surrogate. */
  lemma LenientWritesTextIffPaired(src: seq<UTF16>, room: nat)
    ensures Sound(From16To32(Lenient)) && Sound(From16To8(Lenient))
    ensures var o := Convert(From16To32(Lenient), src, room);
            Text(o.written) <==> !HasUnpaired(src[..o.consumed])
    ensures var o := Convert(From16To8(Lenient), src, room);
            Utf8OfText(o.written) <==> !HasUnpaired(src[..o.consumed])
  {
    LenientUtf16IsRead(src, room);
    hide *;
    TextIffPaired(src[..Convert(From16To32(Lenient), src, room).consumed]);
    var p := src[..Convert(From16To8(Lenient), src, room).consumed];
    TextIffPaired(p);
    Utf8OfTextIff(Points(p));
  }

  // ---- How far it gets ----

  predicate EndsInHigh(src: seq<UTF16>) {
    src != [] && High(src[|src| - 1])
  }

  lemma {:induction false} LenientEnds<T(!new)>(step: Stepper<UTF16, T>, k: nat, to: Form<T>, src: seq<UTF16>, room: nat)
    requires Sound(step) && Needs(step, k) && Reader16(step, Lenient, to) && k * |src| <= room
    ensures var o := Convert(step, src, room);
            if EndsInHigh(src) then o.result == SourceExhausted && o.consumed == |src| - 1
            else o.result == ConversionOK && o.consumed == |src|
    decreases |src|
  {
    if src != [] {
      LenientStep(step, k, to, src, room);
      hide Front16, Reader16, Needs;
      if step(src, room).Go? {
        var c := Front16(Lenient, src);
        Unfold(step, src, room);
        LenientEnds(step, k, to, src[c.take..], room - |to(c.ch)|);
      }
    }
  }

  lemma RoomLeft(k: nat, units: nat, take: nat, put: nat, room: nat)
    requires take <= units && put <= k * take && k * units <= room
    ensures put <= room && k * (units - take) <= room - put
  {
    assert k * units == k * take + k * (units - take);
  }

  /** A step of a lenient reader that has room goes on, except at half a pair that ends the source. */
  lemma LenientStep<T(!new)>(step: Stepper<UTF16, T>, k: nat, to: Form<T>, src: seq<UTF16>, room: nat)
    requires src != [] && Sound(step) && Needs(step, k) && Reader16(step, Lenient, to) && k * |src| <= room
    ensures if |src| == 1 && High(src[0]) then step(src, room) == Stop(SourceExhausted)
            else var c := Front16(Lenient, src);
                 && c.Char? && 1 <= c.take <= |src| && |to(c.ch)| <= room && step(src, room) == Go(c.take, to(c.ch), false)
                 && k * |src[c.take..]| <= room - |to(c.ch)| && EndsInHigh(src) == EndsInHigh(src[c.take..])
  {
    assert ReadsAt(step, Lenient, to, src, room);
    assert NeedsAt(step(src, room), k, |src|, room);
    if Front16(Lenient, src).Char? {
      var c := Front16(Lenient, src);
      FrontInRange(Lenient, src);
      RoomLeft(k, |src|, c.take, |to(c.ch)|, room);
      assert |src[c.take..]| == |src| - c.take;
    }
  }

  /** With room enough the call fails only on a source that breaks off in the middle of a pair, and
      then in front of that half. */
  lemma LenientAcceptsIffWhole(src: seq<UTF16>, room32: nat, room8: nat)
    requires |src| <= room32 && 3 * |src| <= room8
    ensures Sound(From16To32(Lenient)) && Sound(From16To8(Lenient))
    ensures Convert(From16To32(Lenient), src, room32).result == (if EndsInHigh(src) then SourceExhausted else ConversionOK)
    ensures Convert(From16To8(Lenient), src, room8).result == (if EndsInHigh(src) then SourceExhausted else ConversionOK)
    ensures Convert(From16To32(Lenient), src, room32).consumed == Convert(From16To8(Lenient), src, room8).consumed
            == if EndsInHigh(src) then |src| - 1 else |src|
  {
    Reads16To32(Lenient);
    Reads16To8(Lenient);
    LenientEnds(From16To32(Lenient), 1, Form32(), src, room32);
    LenientEnds(From16To8(Lenient), 3, Form8(), src, room8);
  }

  // ---- Strict and lenient ----

  lemma {:induction false} StrictIfPaired<T(!new)>(strict: Stepper<UTF16, T>, lenient: Stepper<UTF16, T>, k: nat, to: Form<T>,
                                                   src: seq<UTF16>, room: nat)
    requires Sound(strict) && Sound(lenient) && Needs(lenient, k) && k * |src| <= room
    requires Reader16(strict, Strict, to) && Reader16(lenient, Lenient, to)
    requires !HasUnpaired(src[..Convert(lenient, src, room).consumed])
    ensures Convert(strict, src, room) == Convert(lenient, src, room)
    decreases |src|
  {
    hide Front16, Reader16, Needs, HasUnpaired, EndsInHigh, Convert, Met;
    if src == [] || lenient(src, room).Stop? {
      Stopped(lenient, src, room);
      if src != [] { StrictStops(strict, lenient, k, to, src, room); }
      Stopped(strict, src, room);
    } else {
      StrictGoes(strict, lenient, k, to, src, room);
      var r := lenient(src, room);
      Unfold(lenient, src, room);
      Unfold(strict, src, room);
      StrictIfPaired(strict, lenient, k, to, src[r.take..], room - |r.put|);
    }
  }

  lemma StrictStops<T(!new)>(strict: Stepper<UTF16, T>, lenient: Stepper<UTF16, T>, k: nat, to: Form<T>, src: seq<UTF16>, room: nat)
    requires Sound(lenient) && Needs(lenient, k) && k * |src| <= room && src != [] && lenient(src, room).Stop?
    requires Reader16(strict, Strict, to) && Reader16(lenient, Lenient, to)
    ensures strict(src, room) == lenient(src, room)
  {
    LenientStep(lenient, k, to, src, room);
    ReadsHere(strict, Strict, to, src, room);
  }

  /** One step in front of a conversion that meets no unpaired surrogate. */
  lemma StrictGoes<T(!new)>(strict: Stepper<UTF16, T>, lenient: Stepper<UTF16, T>, k: nat, to: Form<T>, src: seq<UTF16>, room: nat)
    requires Sound(lenient) && Needs(lenient, k) && k * |src| <= room && src != [] && lenient(src, room).Go?
    requires Reader16(strict, Strict, to) && Reader16(lenient, Lenient, to)
    requires !HasUnpaired(src[..Convert(lenient, src, room).consumed])
    ensures var r := lenient(src, room);
            && strict(src, room) == r && 1 <= r.take <= |src| && |r.put| <= room && k * |src[r.take..]| <= room - |r.put|
            && !HasUnpaired(src[r.take..][..Convert(lenient, src[r.take..], room - |r.put|).consumed])
  {
    hide Convert, Met, HasUnpaired, Reader16, Needs;
    Unfold(lenient, src, room);
    LenientStep(lenient, k, to, src, room);
    ReadsHere(strict, Strict, to, src, room);
    PairedBehind(src, Convert(lenient, src, room).consumed);
    hide Front16;
  }

  lemma PairedBehind(src: seq<UTF16>, n: nat)
    requires src != [] && Front16(Lenient, src).Char?
    requires Front16(Lenient, src).take <= n <= |src| && !HasUnpaired(src[..n])
    ensures var c := Front16(Lenient, src); !HasUnpaired(src[c.take..][..n - c.take])
    ensures Front16(Strict, src) == Front16(Lenient, src)
  {
    var p, take := src[..n], Front16(Lenient, src).take;
    assert !UnpairedAt(p, 0) && (take == 2 ==> !UnpairedAt(p, 1));
    UnpairedBehind(p, take);
    assert p[take..] == src[take..][..n - take];
  }

  /** With room enough the two modes agree exactly when the lenient call consumed no unpaired
      surrogate. */
  lemma StrictAgreesIffPaired(src: seq<UTF16>, room32: nat, room8: nat)
    requires |src| <= room32 && 3 * |src| <= room8
    ensures Sound(From16To32(Strict)) && Sound(From16To32(Lenient)) && Sound(From16To8(Strict)) && Sound(From16To8(Lenient))
    ensures var o := Convert(From16To32(Lenient), src, room32);
            Convert(From16To32(Strict), src, room32) == o <==> !HasUnpaired(src[..o.consumed])
    ensures var o := Convert(From16To8(Lenient), src, room8);
            Convert(From16To8(Strict), src, room8) == o <==> !HasUnpaired(src[..o.consumed])
  {
    Agrees32(src, room32);
    Agrees8(src, room8);
  }

  lemma Agrees32(src: seq<UTF16>, room: nat)
    requires |src| <= room
    ensures Sound(From16To32(Strict)) && Sound(From16To32(Lenient))
    ensures var o := Convert(From16To32(Lenient), src, room);
            Convert(From16To32(Strict), src, room) == o <==> !HasUnpaired(src[..o.consumed])
  {
    Reads16To32(Strict);
    Reads16To32(Lenient);
    var o := Convert(From16To32(Lenient), src, room);
    if !HasUnpaired(src[..o.consumed]) {
      StrictIfPaired(From16To32(Strict), From16To32(Lenient), 1, Form32(), src, room);
    } else {
      Utf16IsReadFaithfully(src, room);
      LenientWritesTextIffPaired(src, room);
      forall cs | Text(cs) ensures All(Form32(), cs) == cs {
        AllForm32(cs);
      }
    }
  }

  lemma Agrees8(src: seq<UTF16>, room: nat)
    requires 3 * |src| <= room
    ensures Sound(From16To8(Strict)) && Sound(From16To8(Lenient))
    ensures var o := Convert(From16To8(Lenient), src, room);
            Convert(From16To8(Strict), src, room) == o <==> !HasUnpaired(src[..o.consumed])
  {
    Reads16To8(Strict);
    Reads16To8(Lenient);
    var o := Convert(From16To8(Lenient), src, room);
    if !HasUnpaired(src[..o.consumed]) {
      StrictIfPaired(From16To8(Strict), From16To8(Lenient), 3, Form8(), src, room);
    } else {
      Utf16IsReadFaithfully(src, room);
      LenientWritesTextIffPaired(src, room);
    }
  }
}
