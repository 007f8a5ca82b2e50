/** The HLS sink's conversion of start codes to four-byte lengths, into a buffer allocated once for
    the worst case; and what becomes of a buffer that goes through both conversions. */
module AnnexBToAvcc {
  import opened Words
  import opened StartCodes
  import opened EmulationPrevention
  import opened LengthPrefixed

  /** Zero bytes at the end of a NAL unit are padding. */
  function Stripped(unit: Bytes): (s: Bytes)
    ensures |s| <= |unit| && (s != [] ==> Last(s) != 0)
  {
    if unit != [] && Last(unit) == 0 then Stripped(unit[..|unit| - 1]) else unit
  }

  /** The unit with its length, or nothing if nothing is left of it. */
  function Repacked(unit: Bytes): Bytes {
    if Stripped(unit) == [] then [] else Boxed(Stripped(unit))
  }

  /** The conversion from a unit's first byte on. */
  function Converted(data: Bytes, begin: nat): Bytes
    requires begin <= |data|
    decreases |data| - begin
  {
    match FirstCode(data, begin)
    case None => Repacked(data[begin..])
    case Some(next) => Repacked(data[begin..next.pos]) + Converted(data, next.pos + next.size)
  }

  /** No conversion without a start code. */
  function ToAvcc(data: Bytes): Option<Bytes> {
    match FirstCode(data, 0)
    case None => None
    case Some(code) => Some(Converted(data, code.pos + code.size))
  }

  lemma RepackedFits(unit: Bytes)
    ensures 4 * |Repacked(unit)| <= 5 * |unit| + 15
  {
  }

  /** A start code and a unit of at least one byte make at most five quarters of their size. */
  lemma {:induction false} ConvertedFits(data: Bytes, begin: nat)
    requires begin <= |data|
    ensures 4 * |Converted(data, begin)| <= 5 * (|data| - begin + 3)
    decreases |data| - begin
  {
    hide FirstCode, Repacked;
    match FirstCode(data, begin) {
      case None => RepackedFits(data[begin..]);
      case Some(next) =>
        RepackedFits(data[begin..next.pos]);
        ConvertedFits(data, next.pos + next.size);
    }
  }

  method PutByte(out: array<u8>, at: nat, b: int) returns (end: nat)
    requires at < out.Length
    modifies out
    ensures end == at + 1 && out[..end] == old(out[..at]) + [b % 0x100]
  {
    out[at] := b % 0x100;
    end := at + 1;
  }

  method PutLength(out: array<u8>, start: nat, n: u32) returns (at: nat)
    requires start + 4 <= out.Length
    modifies out
    ensures at == start + 4 && out[..at] == old(out[..start]) + Prefix(n)
  {
    at := PutByte(out, start, n / 0x100_0000);
    at := PutByte(out, at, n / 0x1_0000);
    at := PutByte(out, at, n / 0x100);
    at := PutByte(out, at, n);
    PrefixBytes(n);
  }

  /** Where the padding begins. */
  method NalEnd(unit: Bytes) returns (end: nat)
    ensures end <= |unit| && unit[..end] == Stripped(unit)
  {
    end := |unit|;
    assert unit[..end] == unit;
    while end > 0 && unit[end - 1] == 0
      invariant end <= |unit| && Stripped(unit[..end]) == Stripped(unit)
    {
      assert unit[..end][..end - 1] == unit[..end - 1];
      end := end - 1;
    }
  }

  method PutBoxed(unit: Bytes, out: array<u8>, at: nat) returns (end: nat)
    requires |unit| < U32 && at + 4 + |unit| <= out.Length
    modifies out
    ensures end == at + 4 + |unit| && out[..end] == old(out[..at]) + Boxed(unit)
  {
    end := PutLength(out, at, |unit|);
    end := PutUnit(out, end, unit);
  }

  /** A NAL unit goes out with its length. */
  method PutRepacked(unit: Bytes, out: array<u8>, at: nat) returns (end: nat)
    requires |unit| < U32 && at + |Repacked(unit)| <= out.Length
    modifies out
    ensures end == at + |Repacked(unit)| && out[..end] == old(out[..at]) + Repacked(unit)
  {
    var nalEnd := NalEnd(unit);
    end := at;
    if nalEnd > 0 {
      end := PutBoxed(unit[..nalEnd], out, at);
    }
  }

  method PutUnit(out: array<u8>, at: nat, unit: Bytes) returns (end: nat)
    requires at + |unit| <= out.Length
    modifies out
    ensures end == at + |unit| && out[..end] == old(out[..at]) + unit
  {
    forall k | 0 <= k < |unit| {
      out[at + k] := unit[k];
    }
    end := at + |unit|;
  }

  /** `done` is what has come out of the conversion to `whole` before the unit at `begin`. */
  predicate OnTheWay(data: Bytes, begin: nat, done: Bytes, whole: Bytes) {
    begin <= |data| && done + Converted(data, begin) == whole
  }

  lemma NextRepacked(data: Bytes, begin: nat, next: Code, unit: Bytes, done: Bytes, whole: Bytes)
    requires OnTheWay(data, begin, done, whole)
    requires FirstCode(data, begin) == Some(next) && unit == data[begin..next.pos]
    ensures OnTheWay(data, next.pos + next.size, done + Repacked(unit), whole)
    ensures |done| + |Repacked(unit)| <= |whole|
  {
    hide FirstCode, Repacked;
    var rest := Converted(data, next.pos + next.size);
    assert done + (Repacked(unit) + rest) == done + Repacked(unit) + rest;
  }

  lemma LastRepacked(data: Bytes, begin: nat, unit: Bytes, done: Bytes, whole: Bytes)
    requires OnTheWay(data, begin, done, whole) && FirstCode(data, begin) == None && unit == data[begin..]
    ensures done + Repacked(unit) == whole && |done| + |Repacked(unit)| == |whole|
  {
    hide FirstCode, Repacked;
  }

  function Room(size: nat): nat {
    size + size / 2 + 4
  }

  lemma RoomEnough(used: nat, size: nat)
    requires 4 * used <= 5 * size
    ensures used <= Room(size)
  {
  }

  lemma FitsTheRoom(data: Bytes, code: Code)
    requires 3 <= code.size && code.pos + code.size <= |data|
    ensures |Converted(data, code.pos + code.size)| <= Room(|data|)
  {
    ConvertedFits(data, code.pos + code.size);
    RoomEnough(|Converted(data, code.pos + code.size)|, |data|);
  }

  /** The whole conversion: the allocation of half as much again and four bytes is never overrun. */
  method Convert(data: Bytes) returns (out: Option<array<u8>>, outSize: nat)
    requires |data| <= 0x7fff_ffff
    ensures if ToAvcc(data).None? then out.None? && outSize == 0
            else
              && out.Some? && fresh(out.value) && out.value.Length == Room(|data|)
              && outSize <= out.value.Length && out.value[..outSize] == ToAvcc(data).value
  {
    var code := StartCode(data, 0);
    if code.None? {
      return None, 0;
    }
    FitsTheRoom(data, code.value);
    var buffer := new u8[Room(|data|)];
    outSize := ConvertFrom(data, code.value, buffer);
    out := Some(buffer);
  }

  /** One unit, and the start code after it. */
  method ConvertOne(data: Bytes, begin: nat, out: array<u8>, at: nat, ghost whole: Bytes)
    returns (next: Option<Code>, end: nat)
    requires |data| <= 0x7fff_ffff && at <= out.Length && |whole| <= out.Length
    requires OnTheWay(data, begin, out[..at], whole)
    modifies out
    ensures next == FirstCode(data, begin) && end <= out.Length
    ensures match next
            case None => out[..end] == whole
            case Some(code) => OnTheWay(data, code.pos + code.size, out[..end], whole)
  {
    hide Converted, FirstCode, Repacked;
    ghost var done := out[..at];
    next := StartCode(data, begin);
    match next {
      case None =>
        LastRepacked(data, begin, data[begin..], done, whole);
        end := PutRepacked(data[begin..], out, at);
      case Some(code) =>
        NextRepacked(data, begin, code, data[begin..code.pos], done, whole);
        end := PutRepacked(data[begin..code.pos], out, at);
    }
  }

  method ConvertFrom(data: Bytes, first: Code, out: array<u8>) returns (at: nat)
    requires |data| <= 0x7fff_ffff && 0 < first.size && first.pos + first.size <= |data|
    requires |Converted(data, first.pos + first.size)| <= out.Length
    modifies out
    ensures at <= out.Length && out[..at] == Converted(data, first.pos + first.size)
  {
    hide Converted, FirstCode;
    ghost var whole := Converted(data, first.pos + first.size);
    var code := first;
    at := 0;
    assert out[..0] + whole == whole;
    while code.pos < |data|
      invariant at <= out.Length && 0 < code.size && OnTheWay(data, code.pos + code.size, out[..at], whole)
      decreases |data| - code.pos
    {
      var next;
      next, at := ConvertOne(data, code.pos + code.size, out, at, whole);
      if next.None? {
        return;
      }
      code := next.value;
    }
  }
}
