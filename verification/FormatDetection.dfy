/** Which of the two formats the first four bytes of a stream show, and what that means for the
    units: from a parser that is to find out for itself, units written in either format come back,
    unless the length fields in front read like a start code. */
module FormatDetection {
  import opened Words
  import opened StartCodes
  import opened NalSplitter
  import opened AnnexBStream
  import opened LengthPrefixed
  import opened AvccRoundTrip
  import RecordMistaken

  /** The first four bytes are 00 00 01 xx or 00 00 00 01. */
  predicate ReadsAsCode(data: Bytes) {
    |data| >= 4 && data[0] == 0 && data[1] == 0 && (data[2] == 1 || (data[2] == 0 && data[3] == 1))
  }

  /** Units with big-endian lengths of `size` bytes in front. */
  function Prefixed(size: nat, units: seq<Bytes>): Bytes {
    if units == [] then [] else LowBytes(|units[0]|, size) + units[0] + Prefixed(size, units[1..])
  }

  /** Units that the parser takes: none empty, none over its limit or too long for its length field. */
  predicate Acceptable(cfg: Config, units: seq<Bytes>) {
    forall i | 0 <= i < |units| :: 0 < |units[i]| <= cfg.maxNal && |units[i]| < Pow256(cfg.lengthSize)
  }

  lemma PrefixedCut(cfg: Config, unit: Bytes, rest: Bytes)
    requires ValidConfig(cfg) && 0 < |unit| <= cfg.maxNal && |unit| < Pow256(cfg.lengthSize)
    ensures CutLength(cfg, LowBytes(|unit|, cfg.lengthSize) + unit + rest) == Unit(unit, rest)
  {
    hide LowBytes, Pow256, BigEndian;
    var data := LowBytes(|unit|, cfg.lengthSize) + unit + rest;
    assert data[..cfg.lengthSize] == LowBytes(|unit|, cfg.lengthSize);
    BigEndianOfLow(|unit|, cfg.lengthSize);
    assert data[cfg.lengthSize..cfg.lengthSize + |unit|] == unit && data[cfg.lengthSize + |unit|..] == rest;
  }

  lemma OnePrefixed(cfg: Config, unit: Bytes, tail: Bytes, eos: bool)
    requires ValidConfig(cfg) && 0 < |unit| <= cfg.maxNal && |unit| < Pow256(cfg.lengthSize)
    ensures SplitAll(cfg, Length, LowBytes(|unit|, cfg.lengthSize) + unit + tail, eos) ==
            Before([Nal(unit, eos && tail == [])], SplitAll(cfg, Length, tail, eos))
  {
    hide SplitAll, CutLength, LowBytes, Pow256;
    PrefixedCut(cfg, unit, tail);
    UnitSplit(cfg, Length, LowBytes(|unit|, cfg.lengthSize) + unit + tail, eos);
  }

  /** The units as handed on, none flagged as the last. */
  function Unflagged(units: seq<Bytes>): (nals: seq<Nal>)
    ensures UnitsOf(nals) == units
  {
    if units == [] then []
    else
      UnitsConcat([Nal(units[0], false)], Unflagged(units[1..]));
      [Nal(units[0], false)] + Unflagged(units[1..])
  }

  /** Length-prefixed units followed by `rest` are handed on one after the other; then comes what
      the parser makes of the rest. */
  lemma {:induction false} PrefixedSplit(cfg: Config, units: seq<Bytes>, rest: Bytes, eos: bool)
    requires ValidConfig(cfg) && Acceptable(cfg, units) && rest != []
    ensures var p := SplitAll(cfg, Length, rest, eos);
            SplitAll(cfg, Length, Prefixed(cfg.lengthSize, units) + rest, eos) == Before(Unflagged(units), p)
    decreases |units|
  {
    hide SplitAll, LowBytes, Pow256, UnitsOf;
    if units == [] {
      assert Prefixed(cfg.lengthSize, units) + rest == rest;
      assert [] + SplitAll(cfg, Length, rest, eos).nals == SplitAll(cfg, Length, rest, eos).nals;
    } else {
      var others := Prefixed(cfg.lengthSize, units[1..]);
      PrefixedSplit(cfg, units[1..], rest, eos);
      OnePrefixed(cfg, units[0], others + rest, eos);
      assert Prefixed(cfg.lengthSize, units) + rest ==
             LowBytes(|units[0]|, cfg.lengthSize) + units[0] + (others + rest);
      BeforeOne(units, SplitAll(cfg, Length, rest, eos));
    }
  }

  lemma BeforeOne(units: seq<Bytes>, p: Pass)
    requires units != []
    ensures Before([Nal(units[0], false)], Before(Unflagged(units[1..]), p)) == Before(Unflagged(units), p)
  {
    hide UnitsOf;
    var now := [Nal(units[0], false)];
    assert now + (Unflagged(units[1..]) + p.nals) == now + Unflagged(units[1..]) + p.nals;
  }

  /** At the end of the stream length-prefixed units come back, the last one flagged. */
  lemma {:induction false} PrefixedEnds(cfg: Config, units: seq<Bytes>)
    requires ValidConfig(cfg) && Acceptable(cfg, units)
    ensures SplitAll(cfg, Length, Prefixed(cfg.lengthSize, units), true) == Pass(true, AsHanded(units), [], false)
    decreases |units|
  {
    if units != [] {
      hide SplitAll, LowBytes, Pow256, UnitsOf;
      PrefixedEnds(cfg, units[1..]);
      OnePrefixed(cfg, units[0], Prefixed(cfg.lengthSize, units[1..]), true);
      assert Prefixed(cfg.lengthSize, units[1..]) == [] <==> |units| == 1;
    }
  }

  /** Whatever follows, a length of zero or over the limit is refused, after the units before it. */
  lemma BadLengthRefused(cfg: Config, units: seq<Bytes>, length: nat, rest: Bytes, eos: bool)
    requires ValidConfig(cfg) && Acceptable(cfg, units)
    requires length < Pow256(cfg.lengthSize) && (length == 0 || length > cfg.maxNal)
    ensures var data := Prefixed(cfg.lengthSize, units) + (LowBytes(length, cfg.lengthSize) + rest);
            var p := SplitAll(cfg, Length, data, eos);
            !p.ok && p.nals == Unflagged(units)
  {
    var tail := LowBytes(length, cfg.lengthSize) + rest;
    BigEndianOfLow(length, cfg.lengthSize);
    assert tail[..cfg.lengthSize] == LowBytes(length, cfg.lengthSize);
    assert SplitAll(cfg, Length, tail, eos) == Pass(false, [], tail, false);
    PrefixedSplit(cfg, units, tail, eos);
    assert Unflagged(units) + [] == Unflagged(units);
  }

  /** Part of a unit, its length field included. */
  predicate PartOfUnit(cfg: Config, part: Bytes, unit: Bytes)
    requires ValidConfig(cfg)
  {
    var whole := LowBytes(|unit|, cfg.lengthSize) + unit;
    0 < |part| < |whole| && part == whole[..|part|]
  }

  lemma PartIsStuck(cfg: Config, part: Bytes, unit: Bytes)
    requires ValidConfig(cfg) && PartOfUnit(cfg, part, unit)
    requires 0 < |unit| <= cfg.maxNal && |unit| < Pow256(cfg.lengthSize)
    ensures CutLength(cfg, part) == Stuck
  {
    var whole := LowBytes(|unit|, cfg.lengthSize) + unit;
    if |part| >= cfg.lengthSize {
      assert part[..cfg.lengthSize] == whole[..cfg.lengthSize] == LowBytes(|unit|, cfg.lengthSize);
      BigEndianOfLow(|unit|, cfg.lengthSize);
    }
  }

  /** A stream that ends inside a unit: before the end the part is kept, at the end it is an error
      or dropped as the policy says, and the units before it have come either way. */
  lemma CutOffUnit(cfg: Config, units: seq<Bytes>, part: Bytes, unit: Bytes, eos: bool)
    requires ValidConfig(cfg) && Acceptable(cfg, units) && Acceptable(cfg, [unit]) && PartOfUnit(cfg, part, unit)
    ensures var p := SplitAll(cfg, Length, Prefixed(cfg.lengthSize, units) + part, eos);
            && p.nals == Unflagged(units)
            && p.ok == !(eos && cfg.strict) && p.dropped == eos
            && (p.ok ==> p.rest == if eos then [] else part)
  {
    assert [unit][0] == unit;
    PartIsStuck(cfg, part, unit);
    assert SplitAll(cfg, Length, part, eos) == Finish(cfg, Length, part, eos);
    PrefixedSplit(cfg, units, part, eos);
    assert Unflagged(units) + [] == Unflagged(units);
  }

  // From a parser that is to find the format out.

  lemma DetectedFormat(data: Bytes)
    ensures Detect(Auto, data) == if |data| < 4 then Auto else if ReadsAsCode(data) then AnnexB else Length
  {
  }

  /** What the whole stream in one buffer gives, as the first four bytes decide. */
  lemma DetectedWhole(cfg: Config, data: Bytes)
    requires ValidConfig(cfg)
    ensures var s := PushStep(cfg, Started(Auto), data, true);
            if |data| < 4 then s == State(true, Auto, data, [])
            else
              var p := SplitAll(cfg, if ReadsAsCode(data) then AnnexB else Length, data, true);
              s == State(p.ok, if ReadsAsCode(data) then AnnexB else Length, p.rest, p.nals)
  {
    hide ReadsAsCode;
    DetectedFormat(data);
    assert [] + data == data;
    var p := SplitAll(cfg, Detect(Auto, data), data, true);
    assert [] + p.nals == p.nals;
  }

  /** Fewer than four bytes show nothing: they are kept, nothing is handed on, even at the end. */
  lemma TooShortToTell(cfg: Config, chunks: seq<Bytes>)
    requires ValidConfig(cfg) && chunks != [] && |Joined(chunks)| < 4
    ensures var s := PushAll(cfg, Started(Auto), chunks);
            s.ok && s.nals == [] && s.adapter == Joined(chunks) && s.format == Auto
  {
    ChunksAgree(cfg, Started(Auto), chunks);
    DetectedWhole(cfg, Joined(chunks));
    assert |UnitsOf(PushAll(cfg, Started(Auto), chunks).nals)| == 0;
  }

  /** The stream in whatever buffers has come to these units. */
  predicate Gives(cfg: Config, chunks: seq<Bytes>, units: seq<Bytes>)
    requires ValidConfig(cfg)
  {
    var s := PushAll(cfg, Started(Auto), chunks); s.ok && UnitsOf(s.nals) == units
  }

  lemma GivesAsOne(cfg: Config, chunks: seq<Bytes>, units: seq<Bytes>)
    requires ValidConfig(cfg) && chunks != []
    ensures var s := PushStep(cfg, Started(Auto), Joined(chunks), true);
            Gives(cfg, chunks, units) <==> s.ok && UnitsOf(s.nals) == units
  {
    ChunksAgree(cfg, Started(Auto), chunks);
  }

  /** Separable units behind start codes of either length come back from any buffers. */
  lemma StartCodesComeBack(cfg: Config, units: seq<Bytes>, long: seq<bool>, chunks: seq<Bytes>)
    requires ValidConfig(cfg) && |long| == |units| && Separable(units, long)
    requires chunks != [] && Joined(chunks) == Stream(units, long)
    ensures Gives(cfg, chunks, units)
  {
    var data := Stream(units, long);
    GivesAsOne(cfg, chunks, units);
    DetectedWhole(cfg, data);
    SplitStream(cfg, units, long);
    if units != [] {
      StreamReads(units, long);
    }
  }

  lemma StreamReads(units: seq<Bytes>, long: seq<bool>)
    requires |long| == |units| && units != [] && units[0] != []
    ensures ReadsAsCode(Stream(units, long))
  {
    StreamStart(units, long);
    FirstCodeFinds(Stream(units, long), 0);
  }

  /** Units behind their lengths come back from any buffers exactly if there are four bytes to tell
      the format by, and they do not read as a start code, or do so where it happens to make no
      difference. */
  lemma LengthsComeBack(cfg: Config, units: seq<Bytes>, chunks: seq<Bytes>)
    requires ValidConfig(cfg) && Acceptable(cfg, units) && units != []
    requires chunks != [] && Joined(chunks) == Prefixed(cfg.lengthSize, units)
    ensures var data := Prefixed(cfg.lengthSize, units);
            Gives(cfg, chunks, units) <==>
            |data| >= 4 && (ReadsAsCode(data) ==> SplitUnits(cfg, data) == units)
  {
    hide ReadsAsCode, SplitAll, Prefixed;
    var data := Prefixed(cfg.lengthSize, units);
    GivesAsOne(cfg, chunks, units);
    DetectedWhole(cfg, data);
    PrefixedEnds(cfg, units);
    AnnexBNeverFails(cfg, data, true);
  }

  /** Where lengths read as a start code: four bytes wide, a first length of 1 or 256 to 511; three
      bytes wide, a first length of 1. */
  predicate Ambiguous(size: nat, length: int) {
    (size == 4 && (length == 1 || 0x100 <= length < 0x200)) || (size == 3 && length == 1)
  }

  lemma LowThree(n: nat)
    ensures LowBytes(n, 1) == [n % 0x100]
    ensures LowBytes(n, 2) == [n / 0x100 % 0x100] + [n % 0x100]
    ensures LowBytes(n, 3) == [n / 0x1_0000 % 0x100] + [n / 0x100 % 0x100] + [n % 0x100]
  {
    var n1, n2 := n / 0x100, n / 0x1_0000;
    assert n1 / 0x100 == n2;
    assert LowBytes(n2, 1) == [n2 % 0x100] && LowBytes(n1, 1) == [n1 % 0x100];
    assert LowBytes(n1, 2) == LowBytes(n2, 1) + [n1 % 0x100];
  }

  lemma ReadsExactly(cfg: Config, units: seq<Bytes>)
    requires ValidConfig(cfg) && Acceptable(cfg, units) && units != [] && |Prefixed(cfg.lengthSize, units)| >= 4
    ensures ReadsAsCode(Prefixed(cfg.lengthSize, units)) <==> Ambiguous(cfg.lengthSize, |units[0]|)
  {
    var data, n := Prefixed(cfg.lengthSize, units), |units[0]|;
    assert data[..cfg.lengthSize] == LowBytes(n, cfg.lengthSize);
    hide Prefixed;
    if cfg.lengthSize == 4 {
      FourBytesRead(data, n);
    } else {
      LowThree(n);
      hide LowBytes;
      ThreeBytesRead(data, n, cfg.lengthSize);
    }
  }

  lemma FourBytesRead(data: Bytes, n: nat)
    requires |data| >= 4 && data[..4] == LowBytes(n, 4) && n < Pow256(4)
    ensures ReadsAsCode(data) <==> n == 1 || 0x100 <= n < 0x200
  {
    assert Pow256(2) == 0x1_0000 && Pow256(4) == U32;
    PrefixBytes(n);
    hide LowBytes, Pow256;
    assert data[0] == data[..4][0] && data[1] == data[..4][1] && data[2] == data[..4][2] && data[3] == data[..4][3];
    LengthReads(n);
  }

  lemma ThreeBytesRead(data: Bytes, n: nat, size: nat)
    requires 1 <= size <= 3 && |data| >= 4 && 0 < n < Pow256(size)
    requires size == 1 ==> data[..1] == [n % 0x100]
    requires size == 2 ==> data[..2] == [n / 0x100 % 0x100] + [n % 0x100]
    requires size == 3 ==> data[..3] == [n / 0x1_0000 % 0x100] + [n / 0x100 % 0x100] + [n % 0x100]
    ensures ReadsAsCode(data) <==> size == 3 && n == 1
  {
    assert Pow256(1) == 0x100 && Pow256(2) == 0x1_0000 && Pow256(3) == 0x100_0000;
    hide Pow256;
    assert data[0] == data[..size][0];
    if size >= 2 {
      assert data[1] == data[..size][1];
    }
    if size == 3 {
      assert data[2] == data[..size][2];
    }
  }

  /** Every stream of acceptable units, the first of this length, comes back. */
  ghost predicate AlwaysComesBack(cfg: Config, length: nat)
    requires ValidConfig(cfg)
  {
    forall units {:trigger Prefixed(cfg.lengthSize, units)} |
      Acceptable(cfg, units) && units != [] && |units[0]| == length && |Prefixed(cfg.lengthSize, units)| >= 4 ::
        Gives(cfg, [Prefixed(cfg.lengthSize, units)], units)
  }

  /** The width of the length fields and the first length decide whether the units can be relied on
      to come back. */
  lemma ComesBackExactly(cfg: Config, length: nat)
    requires ValidConfig(cfg) && 0 < length <= cfg.maxNal && length < Pow256(cfg.lengthSize) && 2 <= cfg.maxNal
    ensures AlwaysComesBack(cfg, length) <==> !Ambiguous(cfg.lengthSize, length)
  {
    hide Gives, Prefixed, ReadsAsCode, SplitUnits;
    if Ambiguous(cfg.lengthSize, length) {
      var units := AmbiguousUnits(cfg, length);
      Misreads(cfg, units);
    } else {
      forall units | Acceptable(cfg, units) && units != [] && |units[0]| == length &&
                     |Prefixed(cfg.lengthSize, units)| >= 4
        ensures Gives(cfg, [Prefixed(cfg.lengthSize, units)], units)
      {
        ReadsExactly(cfg, units);
        JoinedOne(Prefixed(cfg.lengthSize, units));
        LengthsComeBack(cfg, units, [Prefixed(cfg.lengthSize, units)]);
      }
    }
  }

  lemma JoinedOne(data: Bytes)
    ensures Joined([data]) == data
  {
    assert [data][1..] == [] && data + [] == data;
  }

  lemma Misreads(cfg: Config, units: seq<Bytes>)
    requires ValidConfig(cfg) && Acceptable(cfg, units) && units != [] && |Prefixed(cfg.lengthSize, units)| >= 4
    requires Ambiguous(cfg.lengthSize, |units[0]|) && SplitUnits(cfg, Prefixed(cfg.lengthSize, units)) != units
    ensures !Gives(cfg, [Prefixed(cfg.lengthSize, units)], units)
  {
    hide Gives, Prefixed, ReadsAsCode, SplitUnits;
    ReadsExactly(cfg, units);
    JoinedOne(Prefixed(cfg.lengthSize, units));
    LengthsComeBack(cfg, units, [Prefixed(cfg.lengthSize, units)]);
  }

  /** Units with an ambiguous first length that the parser takes for others. */
  lemma AmbiguousUnits(cfg: Config, length: nat) returns (units: seq<Bytes>)
    requires ValidConfig(cfg) && 0 < length <= cfg.maxNal && length < Pow256(cfg.lengthSize) && 2 <= cfg.maxNal
    requires Ambiguous(cfg.lengthSize, length)
    ensures Acceptable(cfg, units) && units != [] && |units[0]| == length
    ensures |Prefixed(cfg.lengthSize, units)| >= 4 && SplitUnits(cfg, Prefixed(cfg.lengthSize, units)) != units
  {
    assert Pow256(2) == 0x1_0000 && Pow256(4) == U32 && Pow256(3) == 0x100_0000;
    if cfg.lengthSize == 3 {
      units := RecordMistaken.TWO_UNITS;
      ShortPrefixMisleads(cfg);
    } else if length == 1 {
      units := RecordMistaken.TWO_UNITS;
      PrefixedIsBoxed(units);
      RecordMistaken.TwoBoxed();
      RecordMistaken.LongCodeMisleads(cfg);
    } else {
      units := [RecordMistaken.Twos(length)];
      PrefixedIsBoxed(units);
      RecordMistaken.ShortCodeMisleads(cfg, length);
      BoxedCons(units[0], []);
      assert units[1..] == [] && [units[0]] + [] == units;
    }
  }

  lemma {:induction false} PrefixedIsBoxed(units: seq<Bytes>)
    ensures Prefixed(4, units) == BoxedAll(units)
  {
    if units != [] {
      hide LowBytes;
      PrefixedIsBoxed(units[1..]);
    }
  }

  /** Units of one byte and of two behind three-byte lengths. */
  const SHORT_BOXED: Bytes := [0, 0, 1, 2, 0, 0, 2, 2, 2]

  lemma ShortPrefixMisleads(cfg: Config)
    requires ValidConfig(cfg)
    ensures Prefixed(3, RecordMistaken.TWO_UNITS) == SHORT_BOXED && |SplitUnits(cfg, SHORT_BOXED)| == 1
  {
    ShortBoxed();
    hide SplitUnits, Prefixed;
    assert FirstCode(SHORT_BOXED, 0) == Some(Code(0, 3));
    forall j | 3 <= j
      ensures !CodeAt(SHORT_BOXED, j)
    {
    }
    NoCode(SHORT_BOXED, 3);
    assert SHORT_BOXED[0..] == SHORT_BOXED;
    SplitOne(cfg, SHORT_BOXED, 0, 3);
  }

  lemma ShortBoxed()
    ensures Prefixed(3, RecordMistaken.TWO_UNITS) == SHORT_BOXED
  {
    hide LowBytes, Prefixed;
    LowThree(1);
    LowThree(2);
    var first, second := RecordMistaken.Twos(1), RecordMistaken.Twos(2);
    assert first == [2] && second == [2, 2];
    hide RecordMistaken.Twos;
    PrefixedCons(3, second, []);
    PrefixedCons(3, first, [second]);
    NothingPrefixed(3);
    assert [second] + [] == [second] && [first] + [second] == RecordMistaken.TWO_UNITS;
  }

  lemma NothingPrefixed(size: nat)
    ensures Prefixed(size, []) == []
  {
  }

  lemma PrefixedCons(size: nat, unit: Bytes, rest: seq<Bytes>)
    ensures Prefixed(size, [unit] + rest) == LowBytes(|unit|, size) + unit + Prefixed(size, rest)
  {
    assert ([unit] + rest)[1..] == rest;
  }
}
