/** Writing NAL units out with start codes and splitting them back (Annex B of ITU-T H.264). */
module AnnexBStream {
  import opened Words
  import opened StartCodes
  import opened EmulationPrevention
  import opened NalSplitter

  function CodeBytes(long: bool): Bytes {
    if long then [0, 0, 0, 1] else [0, 0, 1]
  }

  /** Units with a start code in front of each, long or short as `long` says. */
  function Stream(units: seq<Bytes>, long: seq<bool>): Bytes
    requires |long| == |units|
  {
    if units == [] then [] else CodeBytes(long[0]) + units[0] + Stream(units[1..], long[1..])
  }

  function AllLong(n: nat): seq<bool> {
    seq(n, _ => true)
  }

  /** The units with a four-byte start code in front of each. */
  function Coded(units: seq<Bytes>): Bytes {
    Stream(units, AllLong(|units|))
  }

  lemma CodedStep(units: seq<Bytes>)
    requires units != []
    ensures Coded(units) == [0, 0, 0, 1] + units[0] + Coded(units[1..])
  {
    assert AllLong(|units|)[1..] == AllLong(|units| - 1);
  }

  lemma {:induction false} CodedConcat(a: seq<Bytes>, b: seq<Bytes>)
    ensures Coded(a + b) == Coded(a) + Coded(b)
    decreases |a|
  {
    if a == [] {
      assert [] + b == b && Coded([]) + Coded(b) == Coded(b);
    } else {
      CodedConcat(a[1..], b);
      CodedStep(a);
      CodedStep(a + b);
      assert (a + b)[1..] == a[1..] + b;
    }
  }

  lemma CodedOne(unit: Bytes)
    ensures Coded([unit]) == [0, 0, 0, 1] + unit
  {
    CodedStep([unit]);
    assert Coded([]) == [];
  }

  lemma CodedSnoc(units: seq<Bytes>, unit: Bytes)
    ensures Coded(units + [unit]) == Coded(units) + ([0, 0, 0, 1] + unit)
  {
    CodedConcat(units, [unit]);
    CodedOne(unit);
  }

  /** Units that can be told apart again: no start code inside, and no zero at the end of one that
      a short start code follows, which would be taken for part of a long one. */
  predicate Separable(units: seq<Bytes>, long: seq<bool>)
    requires |long| == |units|
  {
    forall i | 0 <= i < |units| ::
      units[i] != [] && Clean(units[i]) && (i + 1 < |units| && !long[i + 1] ==> Last(units[i]) != 0)
  }

  lemma {:induction false} NoCode(p: Bytes, from: nat)
    requires forall j | from <= j :: !CodeAt(p, j)
    ensures FirstCode(p, from) == None
    decreases |p| - from
  {
    if from + 3 <= |p| {
      NoCode(p, from + 1);
    }
  }

  /** Inside a clean unit no start code begins, not even one that reaches past its end. */
  lemma UnitHasNone(p: Bytes, begin: nat, end: nat, j: nat)
    requires begin <= j < end <= |p| && Clean(p[begin..end])
    requires end == |p| || p[end - 1] != 0 || (end + 2 < |p| && p[end] == 0 && p[end + 1] == 0 && p[end + 2] == 0)
    ensures !CodeAt(p, j)
  {
    var unit, i := p[begin..end], j - begin;
    assert i + 2 < |unit| ==> !(unit[i] == 0 && unit[i + 1] == 0 && unit[i + 2] == 1);
    assert i + 3 < |unit| ==> !(unit[i + 1] == 0 && unit[i + 2] == 0 && unit[i + 3] == 1);
  }

  lemma StreamStart(units: seq<Bytes>, long: seq<bool>)
    requires |long| == |units| && units != []
    ensures FirstCode(Stream(units, long), 0) == Some(Code(0, |CodeBytes(long[0])|))
  {
    var p := Stream(units, long);
    assert p[..|CodeBytes(long[0])|] == CodeBytes(long[0]);
    assert p[0] == 0 && p[1] == 0;
    if long[0] {
      assert p[2] == CodeBytes(true)[2] && p[3] == CodeBytes(true)[3];
    } else {
      assert p[2] == CodeBytes(false)[2];
    }
  }

  lemma LongStart(units: seq<Bytes>, long: seq<bool>)
    requires |long| == |units| && units != [] && long[0]
    ensures var p := Stream(units, long); |p| >= 4 && p[0] == 0 && p[1] == 0 && p[2] == 0
  {
    var p := Stream(units, long);
    assert p[..4] == CodeBytes(true);
    assert p[0] == p[..4][0] && p[1] == p[..4][1] && p[2] == p[..4][2];
  }

  /** The second start code of the stream is where its first unit ends. */
  lemma NextStart(units: seq<Bytes>, long: seq<bool>)
    requires |long| == |units| && units != [] && Separable(units, long)
    ensures var p, begin := Stream(units, long), |CodeBytes(long[0])|;
            FirstCode(p, begin) ==
            if |units| == 1 then None else Some(Code(begin + |units[0]|, |CodeBytes(long[1])|))
  {
    var p, begin := Stream(units, long), |CodeBytes(long[0])|;
    var end := begin + |units[0]|;
    assert p[begin..end] == units[0] && p[end..] == Stream(units[1..], long[1..]);
    assert p[end - 1] == Last(units[0]);
    if |units| > 1 && long[1] {
      LongStart(units[1..], long[1..]);
      assert p[end] == p[end..][0] && p[end + 1] == p[end..][1] && p[end + 2] == p[end..][2];
    }
    forall j | begin <= j < end
      ensures !CodeAt(p, j)
    {
      UnitHasNone(p, begin, end, j);
    }
    if |units| == 1 {
      assert |p| == end;
      NoCode(p, begin);
    } else {
      StreamStart(units[1..], long[1..]);
      FirstCodeFinds(p[end..], 0);
      assert CodeAt(p, end) && p[end + 2] == p[end..][2];
      FirstCodeIs(p, begin, end);
    }
  }

  lemma StreamCut(units: seq<Bytes>, long: seq<bool>)
    requires |long| == |units| && units != [] && Separable(units, long)
    ensures CutAnnexB(Stream(units, long)) ==
            if |units| == 1 then Stuck else Unit(units[0], Stream(units[1..], long[1..]))
  {
    var p, begin := Stream(units, long), |CodeBytes(long[0])|;
    StreamStart(units, long);
    NextStart(units, long);
    CutIs(p, 0, begin);
    assert p[begin..begin + |units[0]|] == units[0] && p[begin + |units[0]|..] == Stream(units[1..], long[1..]);
  }

  lemma StreamOfOne(unit: Bytes, long: bool)
    ensures Stream([unit], [long]) == CodeBytes(long) + unit
  {
    assert [unit][1..] == [] && [long][1..] == [];
  }

  lemma StreamFinish(cfg: Config, unit: Bytes, long: bool)
    requires unit != []
    ensures Finish(cfg, AnnexB, Stream([unit], [long]), true) == Pass(true, [Nal(unit, true)], [], false)
  {
    StreamStart([unit], [long]);
    StreamOfOne(unit, long);
    assert (CodeBytes(long) + unit)[|CodeBytes(long)|..] == unit;
  }

  /** The units as handed on, the last one flagged. */
  function AsHanded(units: seq<Bytes>): (nals: seq<Nal>)
    ensures UnitsOf(nals) == units
  {
    if units == [] then []
    else
      var nals := [Nal(units[0], |units| == 1)] + AsHanded(units[1..]);
      UnitsConcat([Nal(units[0], |units| == 1)], AsHanded(units[1..]));
      nals
  }

  /** Splitting the stream gives the units back. */
  lemma {:induction false} SplitStream(cfg: Config, units: seq<Bytes>, long: seq<bool>)
    requires ValidConfig(cfg) && |long| == |units| && Separable(units, long)
    ensures SplitAll(cfg, AnnexB, Stream(units, long), true) == Pass(true, AsHanded(units), [], false)
    decreases |units|
  {
    if |units| == 1 {
      StreamCut(units, long);
      StreamFinish(cfg, units[0], long[0]);
      assert units == [units[0]] && long == [long[0]];
    } else if |units| > 1 {
      StreamCut(units, long);
      SplitStream(cfg, units[1..], long[1..]);
    }
  }

  /** Separable units joined with start codes, cut into buffers anywhere and pushed through the
      parser, come back. */
  lemma UnitsComeBack(cfg: Config, units: seq<Bytes>, long: seq<bool>, chunks: seq<Bytes>)
    requires ValidConfig(cfg) && |long| == |units| && Separable(units, long)
    requires chunks != [] && Joined(chunks) == Stream(units, long)
    ensures PushAll(cfg, Started(AnnexB), chunks).ok && UnitsOf(PushAll(cfg, Started(AnnexB), chunks).nals) == units
  {
    SplitStream(cfg, units, long);
    ChunksAgree(cfg, Started(AnnexB), chunks);
    assert [] + Joined(chunks) == Joined(chunks);
  }

  function WrittenAll(headers: seq<u8>, payloads: seq<Bytes>): (units: seq<Bytes>)
    requires |headers| == |payloads|
    ensures |units| == |payloads|
  {
    seq(|payloads|, i requires 0 <= i < |payloads| => Written(headers[i], payloads[i]))
  }

  function Payloads(units: seq<Bytes>): seq<Bytes> {
    seq(|units|, i requires 0 <= i < |units| => if units[i] == [] then [] else Unescape(units[i][1..], 0))
  }

  lemma WrittenComeBack(headers: seq<u8>, payloads: seq<Bytes>, long: seq<bool>)
    requires |headers| == |payloads| == |long|
    requires forall i | 0 <= i < |payloads| :: headers[i] != 0 && (payloads[i] != [] ==> Last(payloads[i]) != 0)
    ensures Separable(WrittenAll(headers, payloads), long) && Payloads(WrittenAll(headers, payloads)) == payloads
  {
    var units := WrittenAll(headers, payloads);
    forall i | 0 <= i < |payloads|
      ensures Framable(units[i]) && Payloads(units)[i] == payloads[i]
    {
      WrittenIsFramable(headers[i], payloads[i]);
    }
  }

  /** Payloads written as NAL units behind nonzero headers, joined with start codes, cut into
      buffers anywhere and pushed through the parser, come back unescaped. */
  lemma PayloadsComeBack(cfg: Config, headers: seq<u8>, payloads: seq<Bytes>, long: seq<bool>, chunks: seq<Bytes>)
    requires ValidConfig(cfg) && |headers| == |payloads| == |long| && chunks != []
    requires forall i | 0 <= i < |payloads| :: headers[i] != 0 && (payloads[i] != [] ==> Last(payloads[i]) != 0)
    requires Joined(chunks) == Stream(WrittenAll(headers, payloads), long)
    ensures PushAll(cfg, Started(AnnexB), chunks).ok
    ensures Payloads(UnitsOf(PushAll(cfg, Started(AnnexB), chunks).nals)) == payloads
  {
    WrittenComeBack(headers, payloads, long);
    UnitsComeBack(cfg, WrittenAll(headers, payloads), long, chunks);
  }
}
