/** When a length-prefixed buffer reaches the H.265 decoder as what it is: its first four bytes may
    be read as a start code, or its first byte as that of a configuration record. */
module RecordMistaken {
  import opened Words
  import opened StartCodes
  import opened EmulationPrevention
  import opened AnnexBStream
  import opened LengthPrefixed
  import opened NalSplitter
  import opened HvccConfig
  import opened AvccRoundTrip

  /** The first length, read as the version byte of a record. */
  predicate LikeRecord(length: int) {
    0x100_0000 <= length < 0x200_0000
  }

  predicate ShortNals(nals: seq<Bytes>) {
    forall i | 0 <= i < |nals| :: |nals[i]| < 0x1_0000
  }

  lemma {:induction false} RecordNalsShort(arrays: seq<Array>)
    requires forall i | 0 <= i < |arrays| :: NalsFit(arrays[i].nals)
    ensures ShortNals(AllNals(arrays))
  {
    if arrays != [] {
      RecordNalsShort(arrays[1..]);
      assert NalsFit(arrays[0].nals);
    }
  }

  predicate LongCodeAt(p: Bytes, j: nat) {
    j + 4 <= |p| && p[j] == 0 && p[j + 1] == 0 && p[j + 2] == 0 && p[j + 3] == 1
  }

  lemma CodedBegins(nals: seq<Bytes>)
    requires nals != []
    ensures LongCodeAt(Coded(nals), 0)
    ensures Coded(nals)[4..4 + |nals[0]|] == nals[0] && Coded(nals)[4 + |nals[0]|..] == Coded(nals[1..])
  {
    CodedStep(nals);
    var p := Coded(nals);
    assert p[..4] == [0, 0, 0, 1];
    assert p[0] == p[..4][0] && p[1] == p[..4][1] && p[2] == p[..4][2] && p[3] == p[..4][3];
  }

  /** From any place but near the end there is a start code within reach. */
  lemma {:induction false} CodeWithin(nals: seq<Bytes>, a: nat) returns (j: nat)
    requires ShortNals(nals) && a + 0x1_0008 <= |Coded(nals)|
    ensures a <= j <= a + 0x1_0004 && LongCodeAt(Coded(nals), j)
    decreases |nals|
  {
    assert nals != [];
    CodedBegins(nals);
    var p, next, rest := Coded(nals), 4 + |nals[0]|, nals[1..];
    if a == 0 {
      j := 0;
    } else {
      assert |Coded(rest)| == |p| - next;
      var i := 0;
      if a <= next {
        assert rest != [];
        CodedBegins(rest);
      } else {
        i := CodeWithin(rest, a - next);
      }
      j := next + i;
      SuffixCode(p, next, i);
    }
  }

  lemma SuffixCode(p: Bytes, k: nat, i: nat)
    requires k <= |p| && LongCodeAt(p[k..], i)
    ensures LongCodeAt(p, k + i)
  {
  }

  lemma CodeInside(p: Bytes, a: nat, b: nat, j: nat)
    requires LongCodeAt(p, j) && a <= j && j + 4 <= b <= |p|
    ensures !Clean(p[a..b])
  {
    var unit, i := p[a..b], j + 1 - a;
    assert unit[i] == p[j + 1] && unit[i + 1] == p[j + 2] && unit[i + 2] == p[j + 3];
  }

  /** Nothing long in a packet of short units is free of start codes. */
  lemma CleanIsShort(nals: seq<Bytes>, a: nat, b: nat)
    requires ShortNals(nals) && a <= b <= |Coded(nals)| && Clean(Coded(nals)[a..b])
    ensures b - a < 0x1_0008
  {
    if b - a >= 0x1_0008 {
      var j := CodeWithin(nals, a);
      CodeInside(Coded(nals), a, b, j);
    }
  }

  predicate Within(data: Bytes, unit: Bytes, a: nat) {
    a + |unit| <= |data| && data[a..a + |unit|] == unit
  }

  /** What is split off stands in the data. */
  lemma {:induction false} SplitWithin(cfg: Config, data: Bytes, i: nat) returns (a: nat)
    requires ValidConfig(cfg) && i < |SplitUnits(cfg, data)|
    ensures Within(data, SplitUnits(cfg, data)[i], a)
    decreases |data|
  {
    hide CutAnnexB, SplitUnits, Within;
    var c := CutAnnexB(data);
    if c.Unit? {
      SplitFirst(cfg, data);
      a := CutWithin(data);
      var skip := if c.bytes == [] then 0 else 1;
      if i >= skip {
        var b := SplitWithin(cfg, c.tail, i - skip);
        a := |data| - |c.tail| + b;
        WithinTail(data, c.tail, SplitUnits(cfg, data)[i], b);
      }
    } else {
      a := LastWithin(cfg, data, i);
    }
  }

  lemma WithinTail(data: Bytes, tail: Bytes, unit: Bytes, b: nat)
    requires |tail| <= |data| && data[|data| - |tail|..] == tail && Within(tail, unit, b)
    ensures Within(data, unit, |data| - |tail| + b)
  {
  }

  lemma LastWithin(cfg: Config, data: Bytes, i: nat) returns (a: nat)
    requires ValidConfig(cfg) && !CutAnnexB(data).Unit? && i < |SplitUnits(cfg, data)|
    ensures Within(data, SplitUnits(cfg, data)[i], a)
  {
    hide FirstCode;
    a := |data| - |SplitUnits(cfg, data)[i]|;
  }

  lemma SplitFirst(cfg: Config, data: Bytes)
    requires ValidConfig(cfg) && CutAnnexB(data).Unit?
    ensures var c := CutAnnexB(data);
            var rest := SplitUnits(cfg, c.tail);
            SplitUnits(cfg, data) == if c.bytes == [] then rest else [c.bytes] + rest
  {
    var c := CutAnnexB(data);
    UnitsConcat(Handed(AnnexB, c, true), SplitAll(cfg, AnnexB, c.tail, true).nals);
  }

  lemma CutWithin(data: Bytes) returns (a: nat)
    requires CutAnnexB(data).Unit?
    ensures Within(data, CutAnnexB(data).bytes, a)
    ensures var tail := CutAnnexB(data).tail; data[|data| - |tail|..] == tail
  {
    var code := FirstCode(data, 0).value;
    a := code.pos + code.size;
  }

  /** What the decoder gets for what looks like a record is never the converted units. */
  lemma RecordIsNot(units: seq<Bytes>, nals: seq<Bytes>)
    requires units != [] && Clean(units[0]) && |units[0]| >= 0x1_0008 && ShortNals(nals)
    ensures Coded(nals) != Coded(units)
  {
    CodedBegins(units);
    if Coded(nals) == Coded(units) {
      CleanIsShort(nals, 4, 4 + |units[0]|);
    }
  }

  /** Nor does the parser split it into them. */
  lemma RecordSplitsOther(cfg: Config, units: seq<Bytes>, nals: seq<Bytes>)
    requires ValidConfig(cfg)
    requires units != [] && Clean(units[0]) && |units[0]| >= 0x1_0008 && ShortNals(nals)
    ensures SplitUnits(cfg, Coded(nals)) != units
  {
    hide SplitUnits, Coded, Clean, ShortNals;
    if SplitUnits(cfg, Coded(nals)) == units {
      var a := SplitWithin(cfg, Coded(nals), 0);
      CleanIsShort(nals, a, a + |units[0]|);
    }
  }

  /** The units of a record's packet. */
  lemma RecordHasShort(data: Bytes)
    requires IsRecord(data) && RecordPacket(data).Some?
    ensures Arrays(data).Some? && ShortNals(AllNals(Arrays(data).value))
    ensures RecordPacket(data).value == Coded(AllNals(Arrays(data).value))
  {
    RecordWasWritten(data, Arrays(data).value);
    RecordNalsShort(Arrays(data).value);
  }

  /** A length-prefixed buffer whose first unit holds no start code reaches the H.265 decoder with
      start codes exactly when its first length reads neither like a record's first byte nor like
      a start code, or there is nothing to change. */
  lemma ConvertedExactly265(units: seq<Bytes>)
    requires Sized(units) && units != [] && Clean(units[0])
    ensures Packet265(BoxedAll(units)) == Some(Coded(units)) <==>
            !LikeRecord(|units[0]|) && (!Misleading(|units[0]|) || AllOnes(units))
  {
    TakenForRecord(units);
    ConvertedExactly(units);
    var data := BoxedAll(units);
    if IsRecord(data) && RecordPacket(data).Some? {
      RecordHasShort(data);
      RecordIsNot(units, AllNals(Arrays(data).value));
    }
  }

  /** The parser finds the units of such a buffer again in what the decoder gets. */
  predicate ArrivesWhole(cfg: Config, units: seq<Bytes>)
    requires ValidConfig(cfg)
  {
    var packet := Packet265(BoxedAll(units)); packet.Some? && SplitUnits(cfg, packet.value) == units
  }

  /** For units that start codes can separate, that is so exactly when the first length reads
      neither way, or when it reads like a start code and the lengths, taken for what the parser
      sees in them, happen to part the buffer into the same units. */
  lemma ArrivesExactly(cfg: Config, units: seq<Bytes>)
    requires ValidConfig(cfg) && Sized(units) && units != [] && Separable(units, AllLong(|units|))
    ensures ArrivesWhole(cfg, units) <==>
            !LikeRecord(|units[0]|) && (Misleading(|units[0]|) ==> SplitUnits(cfg, BoxedAll(units)) == units)
  {
    TakenForRecord(units);
    ConvertedExactly(units);
    FirstLengthShows(units);
    CodedSplits(cfg, units);
    var data := BoxedAll(units);
    if IsRecord(data) && RecordPacket(data).Some? {
      RecordHasShort(data);
      RecordSplitsOther(cfg, units, AllNals(Arrays(data).value));
    }
  }

  /** Every list of separable units whose first has this length arrives whole. */
  ghost predicate LengthArrives(cfg: Config, length: int)
    requires ValidConfig(cfg)
  {
    forall units | Sized(units) && units != [] && |units[0]| == length && Separable(units, AllLong(|units|)) ::
      ArrivesWhole(cfg, units)
  }

  function Twos(n: nat): (unit: Bytes)
    ensures |unit| == n && forall i | 0 <= i < n :: unit[i] == 2
  {
    seq(n, _ => 2)
  }

  lemma TwosAreSeparable(n: nat)
    requires 0 < n < U32
    ensures Sized([Twos(n)]) && Separable([Twos(n)], AllLong(1))
  {
  }

  /** A length of 256 to 511 leaves its last byte in front of the unit. */
  lemma ShortCodeMisleads(cfg: Config, n: nat)
    requires ValidConfig(cfg) && 0x100 <= n < 0x200
    ensures SplitUnits(cfg, BoxedAll([Twos(n)])) != [Twos(n)]
  {
    var data := Prefix(n) + Twos(n);
    BoxedCons(Twos(n), []);
    assert [Twos(n)] + [] == [Twos(n)] && BoxedAll([Twos(n)]) == data;
    PrefixBytes(n);
    hide Prefix, SplitUnits, BoxedAll;
    assert data[0] == 0 && data[1] == 0 && data[2] == 1 && data[4] == 2;
    assert FirstCode(data, 0) == Some(Code(0, 3));
    forall j | 3 <= j
      ensures !CodeAt(data, j)
    {
      assert 4 <= j < |data| ==> data[j] == 2;
    }
    NoCode(data, 3);
    assert data[0..] == data;
    SplitOne(cfg, data, 0, 3);
    assert |data[3..]| == n + 1;
  }

  /** A unit of one byte and one of two. */
  const TWO_UNITS: seq<Bytes> := [Twos(1), Twos(2)]
  const TWO_BOXED: Bytes := [0, 0, 0, 1, 2, 0, 0, 0, 2, 2, 2]

  lemma TwoSeparable()
    ensures Sized(TWO_UNITS) && Separable(TWO_UNITS, AllLong(2))
  {
  }

  lemma TwoBoxed()
    ensures BoxedAll(TWO_UNITS) == TWO_BOXED
  {
    hide Boxed, Prefix;
    BoxedTwos();
    BoxedCons(Twos(2), []);
    BoxedCons(Twos(1), [Twos(2)]);
    assert [Twos(2)] + [] == [Twos(2)] && [Twos(1)] + [Twos(2)] == TWO_UNITS;
  }

  lemma SmallPrefix(n: nat)
    requires n < 0x100
    ensures Prefix(n) == [0, 0, 0, n]
  {
    PrefixBytes(n);
  }

  lemma BoxedTwos()
    ensures Boxed(Twos(1)) + Boxed(Twos(2)) == TWO_BOXED
  {
    hide Prefix;
    SmallPrefix(1);
    SmallPrefix(2);
    assert Twos(1) == [2] && Twos(2) == [2, 2];
    hide Twos;
  }

  /** A length of 1 starts a unit that then goes on over the next length. */
  lemma LongCodeMisleads(cfg: Config)
    requires ValidConfig(cfg)
    ensures |SplitUnits(cfg, TWO_BOXED)| == 1
  {
    hide SplitUnits;
    assert FirstCode(TWO_BOXED, 0) == Some(Code(0, 4));
    forall j | 4 <= j
      ensures !CodeAt(TWO_BOXED, j)
    {
    }
    NoCode(TWO_BOXED, 4);
    assert TWO_BOXED[0..] == TWO_BOXED;
    SplitOne(cfg, TWO_BOXED, 0, 4);
  }

  /** The first length decides: units can be relied on to arrive exactly if it reads neither like a
      record's first byte nor like a start code. */
  lemma FirstLengthDecides(cfg: Config, length: u32)
    requires ValidConfig(cfg) && 0 < length
    ensures LengthArrives(cfg, length) <==> !LikeRecord(length) && !Misleading(length)
  {
    hide ArrivesWhole, Separable, SplitUnits;
    if !LikeRecord(length) && !Misleading(length) {
      forall units | Sized(units) && units != [] && |units[0]| == length && Separable(units, AllLong(|units|))
        ensures ArrivesWhole(cfg, units)
      {
        ArrivesExactly(cfg, units);
      }
    } else if length == 1 {
      TwoSeparable();
      TwoBoxed();
      LongCodeMisleads(cfg);
      ArrivesExactly(cfg, TWO_UNITS);
    } else {
      TwosAreSeparable(length);
      ArrivesExactly(cfg, [Twos(length)]);
      if !LikeRecord(length) {
        ShortCodeMisleads(cfg, length);
      }
    }
  }

  /** Zeros up to a last byte of 2: clean, and as long as a first length of 01 00 00 00 says. */
  const LONG_UNIT: Bytes := seq(0x100_0000, i => if i == 0xff_ffff then 2 else 0)

  /** Such a unit alone: it is taken for a record without arrays, and the decoder gets nothing. */
  lemma TakenForEmptyRecord()
    ensures Sized([LONG_UNIT]) && Separable([LONG_UNIT], AllLong(1))
    ensures Packet265(BoxedAll([LONG_UNIT])) == None
  {
    var data := BoxedAll([LONG_UNIT]);
    BoxedCons(LONG_UNIT, []);
    assert [LONG_UNIT] + [] == [LONG_UNIT] && data == Prefix(|LONG_UNIT|) + LONG_UNIT;
    TakenForRecord([LONG_UNIT]);
    assert data[22] == LONG_UNIT[18] == 0;
    NoArraysAt(data);
  }

  lemma NoArraysAt(data: Bytes)
    requires IsRecord(data) && data[22] == 0
    ensures RecordPacket(data) == None
  {
    assert Coded([]) == [];
  }

  // Records at the edges.

  /** Of at most 23 bytes nothing is taken for a record: a buffer that begins as one is passed on. */
  lemma ShortRecordPassedOn(data: Bytes)
    requires 0 < |data| <= 23 && data[0] == 1
    ensures Packet265(data) == Some(data)
  {
    if |data| >= 4 {
      FirstByteSays(data);
    }
  }

  lemma FirstByteSays(data: Bytes)
    requires |data| >= 4 && data[0] == 1
    ensures BigEndian(data[..4]) >= 0x100_0000
  {
    BigEndian4(data[..4]);
  }

  /** The bytes that the units of a record take with a start code each. */
  function CodedTotal(nals: seq<Bytes>): nat {
    if nals == [] then 0 else 4 + |nals[0]| + CodedTotal(nals[1..])
  }

  lemma {:induction false} CodedTotalIs(nals: seq<Bytes>)
    ensures |Coded(nals)| == CodedTotal(nals)
  {
    if nals != [] {
      CodedStep(nals);
      CodedTotalIs(nals[1..]);
    }
  }

  /** A record is refused exactly if it cannot be read, holds no unit, or its units take more than
      2^31 - 1 bytes. */
  lemma RecordRefusedExactly(data: Bytes)
    requires |data| > 23 && data[0] == 1
    ensures Packet265(data).None? <==>
            Arrays(data).None? || AllNals(Arrays(data).value) == [] ||
            CodedTotal(AllNals(Arrays(data).value)) > 0x7fff_ffff
  {
    if Arrays(data).Some? {
      hide Arrays;
      CodedTotalIs(AllNals(Arrays(data).value));
    }
  }
}
