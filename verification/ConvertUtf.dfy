/** The converters as the program runs them: `source` holds the units between *sourceStart and
    sourceEnd, `target` is written from index `start` up to `end`, and the indices returned say
    how far the two pointers advanced. */
module ConvertUtf {
  import opened Conversion
  import opened Converters
  import opened BitStrings
  import opened Utf
  import opened UtfBits
  import W = BinMaps

  const HALF_BASE := 0x10000

  /** What a call has done: it reports the outcome `o`, and the target, which held `before`, now
      holds what was written in its place and is otherwise as it was. */
  ghost predicate Did<T>(o: Outcome<T>, before: seq<T>, now: seq<T>, start: nat, result: Result, s: nat, t: nat) {
    && result == o.result && s == o.consumed && t == start + |o.written| <= |before|
    && now == before[..start] + o.written + before[t..]
  }

  /** The state of a conversion loop: `w` was put so far, and the rest of the target is as before. */
  ghost predicate Doing<S(!new), T(!new)>(step: Stepper<S, T>, source: seq<S>, before: seq<T>, now: seq<T>,
                                          start: nat, end: nat, s: nat, t: nat, result: Result)
    requires Sound(step)
  {
    && start <= t <= end <= |before| == |now| && s <= |source|
    && now[..start] == before[..start] && now[t..] == before[t..]
    && (result == ConversionOK || result == SourceIllegal)
    && Progress(step, source, end - start, s, now[start..t], result == SourceIllegal)
  }

  lemma DoingStart<S(!new), T(!new)>(step: Stepper<S, T>, source: seq<S>, before: seq<T>, start: nat, end: nat)
    requires Sound(step) && start <= end <= |before|
    ensures Doing(step, source, before, before, start, end, 0, start, ConversionOK)
  {
    ProgressStart(step, source, end - start);
    assert before[start..start] == [];
  }

  lemma Spliced<T>(before: seq<T>, was: seq<T>, now: seq<T>, start: nat, t: nat, put: seq<T>)
    requires start <= t <= |was| == |before| && was[..start] == before[..start] && was[t..] == before[t..]
    requires t + |put| <= |was| && now == was[..t] + put + was[t + |put|..]
    ensures now[start..t + |put|] == was[start..t] + put
    ensures now[..start] == before[..start] && now[t + |put|..] == before[t + |put|..]
  {
    assert now[..start] == was[..start];
    assert now[t + |put|..] == was[t..][|put|..];
    assert before[t + |put|..] == before[t..][|put|..];
  }

  lemma DoingGo<S(!new), T(!new)>(step: Stepper<S, T>, source: seq<S>, before: seq<T>, was: seq<T>, now: seq<T>,
                                  start: nat, end: nat, s: nat, t: nat, result: Result)
    requires Sound(step) && Doing(step, source, before, was, start, end, s, t, result)
    requires s < |source| && step(source[s..], end - t).Go?
    requires var put := step(source[s..], end - t).put;
             t + |put| <= |was| && now == was[..t] + put + was[t + |put|..]
    ensures var r := step(source[s..], end - t);
            Doing(step, source, before, now, start, end, s + r.take, t + |r.put|,
                  if r.illegal then SourceIllegal else result)
  {
    hide Sound, Convert, Met, Progress;
    var r := step(source[s..], end - t);
    Unfold(step, source[s..], end - t);
    var w := was[start..t];
    assert end - start - |w| == end - t;
    assert step(source[s..], end - start - |w|) == r;
    ProgressGo(step, source, end - start, s, w, result == SourceIllegal);
    Spliced(before, was, now, start, t, r.put);
  }

  lemma DoingStop<S(!new), T(!new)>(step: Stepper<S, T>, source: seq<S>, before: seq<T>, now: seq<T>,
                                    start: nat, end: nat, s: nat, t: nat, result: Result)
    requires Sound(step) && Doing(step, source, before, now, start, end, s, t, result)
    requires s < |source| ==> step(source[s..], end - t).Stop?
    ensures Did(Convert(step, source, end - start), before, now, start,
                if s < |source| then step(source[s..], end - t).result else result, s, t)
  {
    ProgressStop(step, source, end - start, s, now[start..t], result == SourceIllegal);
    assert now == now[..start] + now[start..t] + now[t..];
  }

  /** One turn of a loop did the step `r`: it broke off, or moved the two indices and wrote. */
  ghost predicate Turned<T>(r: Step<T>, was: seq<T>, now: seq<T>, s: nat, t: nat, result: Result,
                            stop: bool, s': nat, t': nat, result': Result) {
    match r
    case Stop(why) => stop && s' == s && t' == t && result' == why && now == was
    case Go(take, put, illegal) =>
      && !stop && s' == s + take && t <= t' == t + |put| <= |was|
      && result' == (if illegal then SourceIllegal else result)
      && now == was[..t] + put + was[t'..]
  }

  lemma DoingTurn<S(!new), T(!new)>(step: Stepper<S, T>, source: seq<S>, before: seq<T>, was: seq<T>, now: seq<T>,
                                    start: nat, end: nat, s: nat, t: nat, result: Result,
                                    stop: bool, s': nat, t': nat, result': Result)
    requires Sound(step) && Doing(step, source, before, was, start, end, s, t, result) && s < |source|
    requires Turned(step(source[s..], end - t), was, now, s, t, result, stop, s', t', result')
    ensures stop ==> Did(Convert(step, source, end - start), before, now, start, result', s', t')
    ensures !stop ==> s' <= |source| && start <= t' <= end && Doing(step, source, before, now, start, end, s', t', result')
    ensures !stop ==> s < s'
  {
    hide Sound, Convert, Met, Progress;
    if stop {
      DoingStop(step, source, before, now, start, end, s, t, result);
    } else {
      Unfold(step, source[s..], end - t);
      DoingGo(step, source, before, was, now, start, end, s, t, result);
    }
  }

  // ---- Shared parts ----

  /** isLegalUTF8: every case falls through to the next shorter one. */
  method IsLegalUTF8(source: seq<UTF8>, length: nat) returns (legal: bool)
    requires 1 <= length <= |source|
    ensures legal <==> IsLegal(source[..length])
  {
    var p := length;
    if length > 4 {
      return false;
    }
    if length >= 4 {
      p := p - 1;
      if source[p] < 0x80 || source[p] > 0xBF { return false; }
    }
    if length >= 3 {
      p := p - 1;
      if source[p] < 0x80 || source[p] > 0xBF { return false; }
    }
    if length >= 2 {
      p := p - 1;
      var a := source[p];
      if a > 0xBF { return false; }
      if source[0] == 0xE0 {
        if a < 0xA0 { return false; }
      } else if source[0] == 0xED {
        if a > 0x9F { return false; }
      } else if source[0] == 0xF0 {
        if a < 0x90 { return false; }
      } else if source[0] == 0xF4 {
        if a > 0x8F { return false; }
      } else if a < 0x80 {
        return false;
      }
    }
    if source[0] >= 0x80 && source[0] < 0xC2 { return false; }
    return source[0] <= 0xF4;
  }

  /** The switch that adds the bytes up; legal characters have at most three extra bytes. */
  method ReadBytes(source: seq<UTF8>, s: nat, extra: nat) returns (ch: int)
    requires s + extra < |source| && extra <= 3
    ensures ch == Read8(source[s..][..extra + 1])
  {
    ch := 0;
    var i := s;
    if extra >= 3 {
      ShiftsUp(ch + source[i]);
      ch := Shl(ch + source[i], 6);
      i := i + 1;
    }
    if extra >= 2 {
      ShiftsUp(ch + source[i]);
      ch := Shl(ch + source[i], 6);
      i := i + 1;
    }
    if extra >= 1 {
      ShiftsUp(ch + source[i]);
      ch := Shl(ch + source[i], 6);
      i := i + 1;
    }
    ch := ch + source[i] - Offset(extra);
  }

  /** How both readers of UTF-8 begin: the number of bytes, the check, then the sum. */
  method ReadFront8(source: seq<UTF8>, s: nat) returns (reading: Reading)
    requires s < |source|
    ensures reading == Front8(source[s..])
  {
    var extra := TrailingBytes(source[s]);
    if s + extra >= |source| {
      return Cannot(SourceExhausted);
    }
    var legal := IsLegalUTF8(source[s..], extra + 1);
    if !legal {
      return Cannot(SourceIllegal);
    }
    var ch := ReadBytes(source, s, extra);
    return Char(ch, extra + 1);
  }

  /** How both readers of UTF-16 begin: a surrogate pair is converted first. */
  method ReadFront16(source: seq<UTF16>, s: nat, flags: Flags) returns (reading: Reading)
    requires s < |source|
    ensures reading == Front16(flags, source[s..])
  {
    var p := s;
    var ch: UTF32 := source[p];
    p := p + 1;
    if ch >= 0xD800 && ch <= 0xDBFF {
      if p < |source| {
        var ch2 := source[p];
        if ch2 >= 0xDC00 && ch2 <= 0xDFFF {
          ShiftsUp(ch - 0xD800);
          ch := Shl(ch - 0xD800, HALF_SHIFT) + (ch2 - 0xDC00) + HALF_BASE;
          p := p + 1;
        } else if flags == Strict {
          return Cannot(SourceIllegal);
        }
      } else {
        return Cannot(SourceExhausted);
      }
    } else if flags == Strict {
      if ch >= 0xDC00 && ch <= 0xDFFF {
        return Cannot(SourceIllegal);
      }
    }
    return Char(ch, p - s);
  }

  /** The switch that writes the bytes from the last to the first. */
  method WriteBytes(target: array<UTF8>, start: nat, ch: UTF32, bytesToWrite: nat)
    requires ch <= MAX_LEGAL && bytesToWrite == BytesToWrite(ch) && start + bytesToWrite <= target.Length
    modifies target
    ensures target[..] == old(target[..start]) + Write8(ch, bytesToWrite) + old(target[start + bytesToWrite..])
  {
    hide W.Or, W.And, Shr;
    var t, c: nat := start + bytesToWrite, ch;
    if bytesToWrite >= 4 {
      t := t - 1;
      TrailingByteIsMark(c);
      target[t] := W.And(W.Or(c, BYTE_MARK), BYTE_MASK);
      c := Shr(c, 6);
    }
    if bytesToWrite >= 3 {
      t := t - 1;
      TrailingByteIsMark(c);
      target[t] := W.And(W.Or(c, BYTE_MARK), BYTE_MASK);
      c := Shr(c, 6);
    }
    if bytesToWrite >= 2 {
      t := t - 1;
      TrailingByteIsMark(c);
      target[t] := W.And(W.Or(c, BYTE_MARK), BYTE_MASK);
      c := Shr(c, 6);
    }
    t := t - 1;
    FirstByteIsSum(c, bytesToWrite);
    target[t] := W.Or(c, FirstByteMark(bytesToWrite));
  }

  /** The two assignments that write a surrogate pair. */
  method WriteHalves(target: array<UTF16>, start: nat, ch: UTF32)
    requires MAX_BMP < ch <= MAX_LEGAL && start + 2 <= target.Length
    modifies target
    ensures target[..] == old(target[..start]) + WritePair(ch) + old(target[start + 2..])
  {
    hide W.And, Shr;
    var v: nat, t := ch - HALF_BASE, start;
    HalvesAreQuotients(v);
    target[t] := Shr(v, HALF_SHIFT) + 0xD800;
    t := t + 1;
    target[t] := W.And(v, HALF_MASK) + 0xDC00;
  }

  method Turn8To32(source: seq<UTF8>, target: array<UTF32>, end: nat, flags: Flags, s: nat, t: nat, result: Result)
    returns (stop: bool, s': nat, t': nat, result': Result)
    requires s < |source| && t <= end <= target.Length
    modifies target
    ensures Turned(Step8To32(flags, source[s..], end - t), old(target[..]), target[..], s, t, result, stop, s', t', result')
  {
    hide Front8;
    stop, s', t', result' := false, s, t, result;
    var reading := ReadFront8(source, s);
    if reading.Cannot? {
      return true, s, t, reading.result;
    }
    var ch := reading.ch;
    s' := s' + reading.take;
    if t >= end {
      return true, s, t, TargetExhausted;
    }
    if ch <= MAX_LEGAL {
      if Surrogate(ch) {
        if flags == Strict {
          return true, s, t, SourceIllegal;
        }
        target[t'] := REPLACEMENT;
      } else {
        target[t'] := ch;
      }
    } else {
      result' := SourceIllegal;
      target[t'] := REPLACEMENT;
    }
    t' := t' + 1;
  }

  method ConvertUTF8ToUTF32(source: seq<UTF8>, target: array<UTF32>, start: nat, end: nat, flags: Flags)
    returns (result: Result, s: nat, t: nat)
    requires start <= end <= target.Length
    modifies target
    ensures Sound(From8To32(flags))
    ensures Did(Convert(From8To32(flags), source, end - start), old(target[..]), target[..], start, result, s, t)
  {
    ghost var step, before := From8To32(flags), target[..];
    Traits8To32(flags);
    DoingStart(step, source, before, start, end);
    hide Sound, Doing, Did, Turned;
    result, s, t := ConversionOK, 0, start;
    while s < |source|
      invariant s <= |source| && start <= t <= end
      invariant Doing(step, source, before, target[..], start, end, s, t, result)
    {
      ghost var was, from, at, flag := target[..], s, t, result;
      var stop;
      stop, s, t, result := Turn8To32(source, target, end, flags, s, t, result);
      DoingTurn(step, source, before, was, target[..], start, end, from, at, flag, stop, s, t, result);
      if stop {
        return;
      }
    }
    DoingStop(step, source, before, target[..], start, end, s, t, result);
  }

  method Turn8To16(source: seq<UTF8>, target: array<UTF16>, end: nat, flags: Flags, s: nat, t: nat, result: Result)
    returns (stop: bool, s': nat, t': nat, result': Result)
    requires s < |source| && t <= end <= target.Length
    modifies target
    ensures Turned(Step8To16(flags, source[s..], end - t), old(target[..]), target[..], s, t, result, stop, s', t', result')
  {
    hide Front8;
    stop, s', t', result' := false, s, t, result;
    var reading := ReadFront8(source, s);
    if reading.Cannot? {
      return true, s, t, reading.result;
    }
    var ch := reading.ch;
    s' := s' + reading.take;
    if t >= end {
      return true, s, t, TargetExhausted;
    }
    if ch <= MAX_BMP {
      if Surrogate(ch) {
        if flags == Strict {
          return true, s, t, SourceIllegal;
        }
        target[t'] := REPLACEMENT;
      } else {
        target[t'] := ch;
      }
    } else if ch > MAX_LEGAL {
      if flags == Strict {
        return true, s, t, SourceIllegal;
      }
      target[t'] := REPLACEMENT;
    } else {
      if t' + 1 >= end {
        return true, s, t, TargetExhausted;
      }
      WriteHalves(target, t', ch);
      t' := t' + 1;
    }
    t' := t' + 1;
  }

  method ConvertUTF8ToUTF16(source: seq<UTF8>, target: array<UTF16>, start: nat, end: nat, flags: Flags)
    returns (result: Result, s: nat, t: nat)
    requires start <= end <= target.Length
    modifies target
    ensures Sound(From8To16(flags))
    ensures Did(Convert(From8To16(flags), source, end - start), old(target[..]), target[..], start, result, s, t)
  {
    ghost var step, before := From8To16(flags), target[..];
    Traits8To16(flags);
    DoingStart(step, source, before, start, end);
    hide Sound, Doing, Did, Turned;
    result, s, t := ConversionOK, 0, start;
    while s < |source|
      invariant s <= |source| && start <= t <= end
      invariant Doing(step, source, before, target[..], start, end, s, t, result)
    {
      ghost var was, from, at, flag := target[..], s, t, result;
      var stop;
      stop, s, t, result := Turn8To16(source, target, end, flags, s, t, result);
      DoingTurn(step, source, before, was, target[..], start, end, from, at, flag, stop, s, t, result);
      if stop {
        return;
      }
    }
    DoingStop(step, source, before, target[..], start, end, s, t, result);
  }

  method Turn16To32(source: seq<UTF16>, target: array<UTF32>, end: nat, flags: Flags, s: nat, t: nat, result: Result)
    returns (stop: bool, s': nat, t': nat, result': Result)
    requires s < |source| && t <= end <= target.Length
    modifies target
    ensures Turned(Step16To32(flags, source[s..], end - t), old(target[..]), target[..], s, t, result, stop, s', t', result')
  {
    hide Front16;
    stop, s', t', result' := false, s, t, result;
    var reading := ReadFront16(source, s, flags);
    if reading.Cannot? {
      return true, s, t, reading.result;
    }
    var ch := reading.ch;
    s' := s' + reading.take;
    if t >= end {
      return true, s, t, TargetExhausted;
    }
    target[t'] := ch;
    t' := t' + 1;
  }

  method ConvertUTF16ToUTF32(source: seq<UTF16>, target: array<UTF32>, start: nat, end: nat, flags: Flags)
    returns (result: Result, s: nat, t: nat)
    requires start <= end <= target.Length
    modifies target
    ensures Sound(From16To32(flags))
    ensures Did(Convert(From16To32(flags), source, end - start), old(target[..]), target[..], start, result, s, t)
  {
    ghost var step, before := From16To32(flags), target[..];
    Traits16To32(flags);
    DoingStart(step, source, before, start, end);
    hide Sound, Doing, Did, Turned;
    result, s, t := ConversionOK, 0, start;
    while s < |source|
      invariant s <= |source| && start <= t <= end
      invariant Doing(step, source, before, target[..], start, end, s, t, result)
    {
      ghost var was, from, at, flag := target[..], s, t, result;
      var stop;
      stop, s, t, result := Turn16To32(source, target, end, flags, s, t, result);
      DoingTurn(step, source, before, was, target[..], start, end, from, at, flag, stop, s, t, result);
      if stop {
        return;
      }
    }
    DoingStop(step, source, before, target[..], start, end, s, t, result);
  }

  method Turn16To8(source: seq<UTF16>, target: array<UTF8>, end: nat, flags: Flags, s: nat, t: nat, result: Result)
    returns (stop: bool, s': nat, t': nat, result': Result)
    requires s < |source| && t <= end <= target.Length
    modifies target
    ensures Turned(Step16To8(flags, source[s..], end - t), old(target[..]), target[..], s, t, result, stop, s', t', result')
  {
    hide Front16;
    stop, s', t', result' := false, s, t, result;
    var reading := ReadFront16(source, s, flags);
    if reading.Cannot? {
      return true, s, t, reading.result;
    }
    var ch := reading.ch;
    s' := s' + reading.take;
    var bytesToWrite: nat;
    if ch < 0x80 {
      bytesToWrite := 1;
    } else if ch < 0x800 {
      bytesToWrite := 2;
    } else if ch < 0x10000 {
      bytesToWrite := 3;
    } else if ch < 0x110000 {
      bytesToWrite := 4;
    } else {
      bytesToWrite, ch := 3, REPLACEMENT;
    }
    t' := t' + bytesToWrite;
    if t' > end {
      return true, s, t, TargetExhausted;
    }
    WriteBytes(target, t, ch, bytesToWrite);
  }

  method ConvertUTF16ToUTF8(source: seq<UTF16>, target: array<UTF8>, start: nat, end: nat, flags: Flags)
    returns (result: Result, s: nat, t: nat)
    requires start <= end <= target.Length
    modifies target
    ensures Sound(From16To8(flags))
    ensures Did(Convert(From16To8(flags), source, end - start), old(target[..]), target[..], start, result, s, t)
  {
    ghost var step, before := From16To8(flags), target[..];
    Traits16To8(flags);
    DoingStart(step, source, before, start, end);
    hide Sound, Doing, Did, Turned;
    result, s, t := ConversionOK, 0, start;
    while s < |source|
      invariant s <= |source| && start <= t <= end
      invariant Doing(step, source, before, target[..], start, end, s, t, result)
    {
      ghost var was, from, at, flag := target[..], s, t, result;
      var stop;
      stop, s, t, result := Turn16To8(source, target, end, flags, s, t, result);
      DoingTurn(step, source, before, was, target[..], start, end, from, at, flag, stop, s, t, result);
      if stop {
        return;
      }
    }
    DoingStop(step, source, before, target[..], start, end, s, t, result);
  }

  method Turn32To8(source: seq<UTF32>, target: array<UTF8>, end: nat, flags: Flags, s: nat, t: nat, result: Result)
    returns (stop: bool, s': nat, t': nat, result': Result)
    requires s < |source| && t <= end <= target.Length
    modifies target
    ensures Turned(Step32To8(flags, source[s..], end - t), old(target[..]), target[..], s, t, result, stop, s', t', result')
  {
    stop, s', t', result' := false, s, t, result;
    var ch := source[s'];
    s' := s' + 1;
    if flags == Strict && Surrogate(ch) {
      return true, s, t, SourceIllegal;
    }
    var bytesToWrite: nat;
    if ch < 0x80 {
      bytesToWrite := 1;
    } else if ch < 0x800 {
      bytesToWrite := 2;
    } else if ch < 0x10000 {
      bytesToWrite := 3;
    } else if ch < 0x110000 {
      bytesToWrite := 4;
    } else {
      bytesToWrite, ch := 3, REPLACEMENT;
      result' := SourceIllegal;
    }
    t' := t' + bytesToWrite;
    if t' > end {
      return true, s, t, TargetExhausted;
    }
    WriteBytes(target, t, ch, bytesToWrite);
  }

  method ConvertUTF32ToUTF8(source: seq<UTF32>, target: array<UTF8>, start: nat, end: nat, flags: Flags)
    returns (result: Result, s: nat, t: nat)
    requires start <= end <= target.Length
    modifies target
    ensures Sound(From32To8(flags))
    ensures Did(Convert(From32To8(flags), source, end - start), old(target[..]), target[..], start, result, s, t)
  {
    ghost var step, before := From32To8(flags), target[..];
    Traits32To8(flags);
    DoingStart(step, source, before, start, end);
    hide Sound, Doing, Did, Turned;
    result, s, t := ConversionOK, 0, start;
    while s < |source|
      invariant s <= |source| && start <= t <= end
      invariant Doing(step, source, before, target[..], start, end, s, t, result)
    {
      ghost var was, from, at, flag := target[..], s, t, result;
      var stop;
      stop, s, t, result := Turn32To8(source, target, end, flags, s, t, result);
      DoingTurn(step, source, before, was, target[..], start, end, from, at, flag, stop, s, t, result);
      if stop {
        return;
      }
    }
    DoingStop(step, source, before, target[..], start, end, s, t, result);
  }

  method Turn32To16(source: seq<UTF32>, target: array<UTF16>, end: nat, flags: Flags, s: nat, t: nat, result: Result)
    returns (stop: bool, s': nat, t': nat, result': Result)
    requires s < |source| && t <= end <= target.Length
    modifies target
    ensures Turned(Step32To16(flags, source[s..], end - t), old(target[..]), target[..], s, t, result, stop, s', t', result')
  {
    stop, s', t', result' := false, s, t, result;
    if t >= end {
      return true, s, t, TargetExhausted;
    }
    var ch := source[s'];
    s' := s' + 1;
    if ch <= MAX_BMP {
      if Surrogate(ch) {
        if flags == Strict {
          return true, s, t, SourceIllegal;
        }
        target[t'] := REPLACEMENT;
      } else {
        target[t'] := ch;
      }
      t' := t' + 1;
    } else if ch > MAX_LEGAL {
      if flags == Strict {
        result' := SourceIllegal;
      } else {
        target[t'] := REPLACEMENT;
        t' := t' + 1;
      }
    } else {
      if t' + 1 >= end {
        return true, s, t, TargetExhausted;
      }
      WriteHalves(target, t', ch);
      t' := t' + 1;
      t' := t' + 1;
    }
  }

  method ConvertUTF32ToUTF16(source: seq<UTF32>, target: array<UTF16>, start: nat, end: nat, flags: Flags)
    returns (result: Result, s: nat, t: nat)
    requires start <= end <= target.Length
    modifies target
    ensures Sound(From32To16(flags))
    ensures Did(Convert(From32To16(flags), source, end - start), old(target[..]), target[..], start, result, s, t)
  {
    ghost var step, before := From32To16(flags), target[..];
    Traits32To16(flags);
    DoingStart(step, source, before, start, end);
    hide Sound, Doing, Did, Turned;
    result, s, t := ConversionOK, 0, start;
    while s < |source|
      invariant s <= |source| && start <= t <= end
      invariant Doing(step, source, before, target[..], start, end, s, t, result)
    {
      ghost var was, from, at, flag := target[..], s, t, result;
      var stop;
      stop, s, t, result := Turn32To16(source, target, end, flags, s, t, result);
      DoingTurn(step, source, before, was, target[..], start, end, from, at, flag, stop, s, t, result);
      if stop {
        return;
      }
    }
    DoingStop(step, source, before, target[..], start, end, s, t, result);
  }
}
