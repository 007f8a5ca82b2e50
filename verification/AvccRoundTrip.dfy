/** Start codes to lengths and back: how the two conversions and the parser's splitting agree. */
module AvccRoundTrip {
  import opened Words
  import opened StartCodes
  import opened EmulationPrevention
  import opened AnnexBStream
  import opened LengthPrefixed
  import opened AnnexBToAvcc
  import opened NalSplitter
  import NalParser
  import ParserOutput

  /** The units with their trailing zeros taken off, without those of which nothing is left. */
  function Kept(units: seq<Bytes>): seq<Bytes> {
    if units == [] then []
    else (if Stripped(units[0]) == [] then [] else [Stripped(units[0])]) + Kept(units[1..])
  }

  lemma BoxedCons(unit: Bytes, rest: seq<Bytes>)
    ensures BoxedAll([unit] + rest) == Boxed(unit) + BoxedAll(rest)
  {
    assert ([unit] + rest)[1..] == rest;
  }

  lemma KeptCons(unit: Bytes, rest: seq<Bytes>)
    ensures BoxedAll(Kept([unit] + rest)) == Repacked(unit) + BoxedAll(Kept(rest))
  {
    assert ([unit] + rest)[1..] == rest;
    if Stripped(unit) == [] {
      assert [] + Kept(rest) == Kept(rest) && [] + BoxedAll(Kept(rest)) == BoxedAll(Kept(rest));
    } else {
      BoxedCons(Stripped(unit), Kept(rest));
    }
  }

  function SplitUnits(cfg: Config, data: Bytes): seq<Bytes>
    requires ValidConfig(cfg)
  {
    UnitsOf(SplitAll(cfg, AnnexB, data, true).nals)
  }

  lemma SplitCons(cfg: Config, p: Bytes, off: nat, size: nat, next: Code)
    requires ValidConfig(cfg) && 0 < size && NalParser.OnCode(p, off, size) && FirstCode(p, off + size) == Some(next)
    ensures var unit, rest := p[off + size..next.pos], SplitUnits(cfg, p[next.pos..]);
            SplitUnits(cfg, p[off..]) == if unit == [] then rest else [unit] + rest
  {
    hide FirstCode, SplitAll, NalParser.OnCode, UnitsOf;
    NalParser.OneUnit(cfg, p, off, size, true);
    UnitsCons(p[off + size..next.pos], SplitAll(cfg, AnnexB, p[next.pos..], true).nals);
  }

  lemma UnitsCons(unit: Bytes, rest: seq<Nal>)
    ensures UnitsOf([Nal(unit, false)] + rest) == [unit] + UnitsOf(rest)
    ensures [] + rest == rest
  {
    UnitsConcat([Nal(unit, false)], rest);
  }

  lemma SplitOne(cfg: Config, p: Bytes, off: nat, size: nat)
    requires ValidConfig(cfg) && 0 < size && NalParser.OnCode(p, off, size) && FirstCode(p, off + size).None?
    ensures SplitUnits(cfg, p[off..]) == if |p| == off + size then [] else [p[off + size..]]
  {
    NalParser.OneUnit(cfg, p, off, size, true);
  }

  /** The conversion puts out what the parser would split off, less the padding. */
  lemma {:induction false} ConvertedIsSplit(cfg: Config, p: Bytes, off: nat, size: nat)
    requires ValidConfig(cfg) && 0 < size && NalParser.OnCode(p, off, size)
    ensures Converted(p, off + size) == BoxedAll(Kept(SplitUnits(cfg, p[off..])))
    decreases |p| - off
  {
    hide FirstCode, Repacked, Kept, BoxedAll, SplitUnits;
    match FirstCode(p, off + size) {
      case None => ConvertedLast(cfg, p, off, size);
      case Some(next) =>
        NalParser.FoundIsOn(p, off + size);
        ConvertedIsSplit(cfg, p, next.pos, next.size);
        ConvertedNext(cfg, p, off, size, next);
    }
  }

  lemma ConvertedLast(cfg: Config, p: Bytes, off: nat, size: nat)
    requires ValidConfig(cfg) && 0 < size && NalParser.OnCode(p, off, size) && FirstCode(p, off + size).None?
    ensures Repacked(p[off + size..]) == BoxedAll(Kept(SplitUnits(cfg, p[off..])))
  {
    hide FirstCode, Repacked;
    var unit := p[off + size..];
    SplitOne(cfg, p, off, size);
    KeptCons(unit, []);
    assert [unit] + [] == [unit] && Repacked(unit) + [] == Repacked(unit);
    EmptyRepacked();
  }

  lemma EmptyRepacked()
    ensures Repacked([]) == [] && Kept([]) == [] && BoxedAll([]) == []
  {
  }

  lemma ConvertedNext(cfg: Config, p: Bytes, off: nat, size: nat, next: Code)
    requires ValidConfig(cfg) && 0 < size && NalParser.OnCode(p, off, size) && FirstCode(p, off + size) == Some(next)
    ensures Repacked(p[off + size..next.pos]) + BoxedAll(Kept(SplitUnits(cfg, p[next.pos..]))) ==
            BoxedAll(Kept(SplitUnits(cfg, p[off..])))
  {
    hide FirstCode, Repacked, Kept, BoxedAll, SplitUnits;
    var unit, rest := p[off + size..next.pos], SplitUnits(cfg, p[next.pos..]);
    SplitCons(cfg, p, off, size, next);
    KeptCons(unit, rest);
    EmptyRepacked();
    assert [] + BoxedAll(Kept(rest)) == BoxedAll(Kept(rest));
  }

  /** Of any buffer with a start code, the HLS sink keeps exactly the NAL units that the parser
      would hand on, in order, without their trailing zeros. */
  lemma ToAvccIsSplit(cfg: Config, data: Bytes)
    requires ValidConfig(cfg)
    ensures ToAvcc(data) ==
            if FirstCode(data, 0).None? then None else Some(BoxedAll(Kept(SplitUnits(cfg, data))))
  {
    hide FirstCode, SplitAll, Kept, BoxedAll;
    if FirstCode(data, 0).Some? {
      NalParser.FoundIsOn(data, 0);
      NalParser.FirstUnit(cfg, data, true);
      ConvertedIsSplit(cfg, data, FirstCode(data, 0).value.pos, FirstCode(data, 0).value.size);
    }
  }

  predicate AllFramable(units: seq<Bytes>) {
    forall i | 0 <= i < |units| :: Framable(units[i])
  }

  lemma {:induction false} FramableKept(units: seq<Bytes>)
    requires AllFramable(units)
    ensures Kept(units) == units
  {
    if units != [] {
      assert Framable(units[0]);
      FramableKept(units[1..]);
      assert [units[0]] + units[1..] == units;
    }
  }

  lemma {:induction false} StrippedClean(unit: Bytes)
    requires Clean(unit)
    ensures Clean(Stripped(unit))
  {
    if unit != [] && Last(unit) == 0 {
      StrippedClean(unit[..|unit| - 1]);
    }
  }

  lemma {:induction false} KeptFramable(units: seq<Bytes>)
    requires forall i | 0 <= i < |units| :: Clean(units[i])
    ensures AllFramable(Kept(units))
  {
    if units != [] {
      StrippedClean(units[0]);
      KeptFramable(units[1..]);
    }
  }

  lemma CodedSplits(cfg: Config, units: seq<Bytes>)
    requires ValidConfig(cfg) && Separable(units, AllLong(|units|))
    ensures SplitUnits(cfg, Coded(units)) == units
  {
    SplitStream(cfg, units, AllLong(|units|));
  }

  lemma CodedHasCode(units: seq<Bytes>)
    ensures FirstCode(Coded(units), 0).Some? <==> units != []
  {
    if units != [] {
      StreamStart(units, AllLong(|units|));
    }
  }

  /** What comes out is always units that start codes can separate. */
  lemma ConvertedUnits(cfg: Config, data: Bytes)
    requires ValidConfig(cfg)
    ensures AllFramable(Kept(SplitUnits(cfg, data)))
  {
    ParserOutput.HandedOn(cfg, AnnexB, data, true);
    KeptFramable(SplitUnits(cfg, data));
  }

  lemma {:induction false} KeptSized(units: seq<Bytes>)
    requires forall i | 0 <= i < |units| :: |units[i]| < U32
    ensures Sized(Kept(units))
  {
    if units != [] {
      KeptSized(units[1..]);
    }
  }

  /** Boxing is injective on units of a size that the four bytes can hold. */
  lemma BoxedInjective(a: seq<Bytes>, b: seq<Bytes>)
    requires Sized(a) && Sized(b) && BoxedAll(a) == BoxedAll(b)
    ensures a == b
  {
    UnboxBoxed(a);
    UnboxBoxed(b);
  }

  predicate AllShort(units: seq<Bytes>, limit: nat) {
    forall i | 0 <= i < |units| :: |units[i]| <= limit
  }

  lemma {:induction false} SplitShort(cfg: Config, data: Bytes)
    requires ValidConfig(cfg)
    ensures AllShort(SplitUnits(cfg, data), |data|)
    decreases |data|
  {
    var c := CutAnnexB(data);
    if c.Unit? {
      SplitShort(cfg, c.tail);
      UnitsConcat(Handed(AnnexB, c, true), SplitAll(cfg, AnnexB, c.tail, true).nals);
    }
  }

  /** Units with start codes come back with their lengths exactly when each of them is without a
      start code inside and a zero at its end. */
  lemma RestoredExactly(cfg: Config, units: seq<Bytes>)
    requires ValidConfig(cfg) && units != [] && Sized(units) && |Coded(units)| < U32
    ensures ToAvcc(Coded(units)) == Some(BoxedAll(units)) <==> AllFramable(units)
  {
    ToAvccIsSplit(cfg, Coded(units));
    CodedHasCode(units);
    var split := SplitUnits(cfg, Coded(units));
    if AllFramable(units) {
      CodedSplits(cfg, units);
      FramableKept(units);
    } else if BoxedAll(Kept(split)) == BoxedAll(units) {
      ConvertedUnits(cfg, Coded(units));
      SplitShort(cfg, Coded(units));
      KeptSized(split);
      BoxedInjective(Kept(split), units);
    }
  }

  /** Through the decoder's conversion and back: a length-prefixed buffer whose first length does
      not read like a start code is restored exactly when its units can be separated by start
      codes; and the parser splits the packet into those units. */
  lemma ThereAndBack(cfg: Config, units: seq<Bytes>)
    requires ValidConfig(cfg) && units != [] && Sized(units) && |BoxedAll(units)| < U32
    requires !Misleading(|units[0]|)
    ensures Packet(BoxedAll(units)).Some?
    ensures var packet := Packet(BoxedAll(units)).value;
            && |packet| == |BoxedAll(units)|
            && (ToAvcc(packet) == Some(BoxedAll(units)) <==> AllFramable(units))
            && (Separable(units, AllLong(|units|)) ==> SplitUnits(cfg, packet) == units)
  {
    ConvertedExactly(units);
    CodedSize(units);
    RestoredExactly(cfg, units);
    if Separable(units, AllLong(|units|)) {
      CodedSplits(cfg, units);
    }
  }
}
