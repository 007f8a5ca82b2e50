/** Splitting an elementary stream into NAL units as it arrives, in Annex B or length-prefixed
    form or whichever of the two its first four bytes show. How the stream is cut into buffers
    makes no difference to the NAL units. */
module NalSplitter {
  import opened Words
  import opened StartCodes

  datatype Format = Auto | AnnexB | Length

  /** What is handed to `handle_nal`: the unit's bytes, and whether it was flagged as the last. */
  datatype Nal = Nal(bytes: Bytes, eos: bool)

  datatype Config = Config(lengthSize: nat, maxNal: u32, maxBuffered: u32, strict: bool)

  predicate ValidConfig(cfg: Config) {
    1 <= cfg.lengthSize <= 4
  }

  /** What one pass over the adapter hands on, keeps, and reports. `dropped` says that a
      truncated last unit was thrown away. */
  datatype Pass = Pass(ok: bool, nals: seq<Nal>, rest: Bytes, dropped: bool)

  function Before(nals: seq<Nal>, p: Pass): Pass {
    p.(nals := nals + p.nals)
  }

  function BigEndian(b: Bytes): nat {
    if b == [] then 0 else BigEndian(b[..|b| - 1]) * 256 + b[|b| - 1]
  }

  /** The next complete unit and what follows it, if the bytes at hand show one. */
  datatype Cut = Stuck | Bad | Unit(bytes: Bytes, tail: Bytes)

  /** Between two start codes; the second stays for the next cut. */
  function CutAnnexB(data: Bytes): (c: Cut)
    ensures c.Unit? ==> |c.tail| < |data|
  {
    var code := FirstCode(data, 0);
    if code.None? then Stuck
    else
      var begin := code.value.pos + code.value.size;
      var next := FirstCode(data, begin);
      if next.None? then Stuck
      else Unit(data[begin..next.value.pos], data[next.value.pos..])
  }

  function CutLength(cfg: Config, data: Bytes): (c: Cut)
    requires ValidConfig(cfg)
    ensures c.Unit? ==> |c.tail| < |data|
  {
    if |data| < cfg.lengthSize then Stuck
    else
      var n := BigEndian(data[..cfg.lengthSize]);
      if n == 0 || n > cfg.maxNal then Bad
      else if n > |data| - cfg.lengthSize then Stuck
      else Unit(data[cfg.lengthSize..cfg.lengthSize + n], data[cfg.lengthSize + n..])
  }

  function NextCut(cfg: Config, format: Format, data: Bytes): (c: Cut)
    requires ValidConfig(cfg)
    ensures c.Unit? ==> |c.tail| < |data|
  {
    match format
    case Auto => Stuck
    case AnnexB => CutAnnexB(data)
    case Length => CutLength(cfg, data)
  }

  /** Bytes in front of the first start code are not kept. */
  function Trim(data: Bytes): (t: Bytes)
    ensures |t| <= |data|
  {
    var code := FirstCode(data, 0);
    if code.Some? then data[code.value.pos..] else data
  }

  /** No further unit is complete: keep the bytes, or at the end of the stream give them out (Annex
      B), or call them an error or drop them (length-prefixed). */
  function Finish(cfg: Config, format: Format, data: Bytes, eos: bool): Pass {
    match format
    case Auto => Pass(true, [], data, false)
    case AnnexB =>
      var code := FirstCode(data, 0);
      var begin := if code.Some? then code.value.pos + code.value.size else |data|;
      if eos && begin < |data| then Pass(true, [Nal(data[begin..], true)], [], false)
      else Pass(true, [], Trim(data), false)
    case Length =>
      if !eos || data == [] then Pass(true, [], data, false)
      else if cfg.strict then Pass(false, [], data, true)
      else Pass(true, [], [], true)
  }

  /** The unit as handed on: an empty one is not, and a length-prefixed one that ends where the
      stream does is flagged. */
  function Handed(format: Format, c: Cut, eos: bool): seq<Nal>
    requires c.Unit?
  {
    if c.bytes == [] then [] else [Nal(c.bytes, eos && format.Length? && c.tail == [])]
  }

  function SplitAll(cfg: Config, format: Format, data: Bytes, eos: bool): Pass
    requires ValidConfig(cfg)
    decreases |data|
  {
    var c := NextCut(cfg, format, data);
    match c
    case Bad => Pass(false, [], data, false)
    case Stuck => Finish(cfg, format, data, eos)
    case Unit(_, tail) => Before(Handed(format, c, eos), SplitAll(cfg, format, tail, eos))
  }

  function Detect(format: Format, data: Bytes): Format {
    if format.Auto? && |data| >= 4 then if CodeAt(data, 0) then AnnexB else Length else format
  }

  function Split(cfg: Config, format: Format, data: Bytes, eos: bool): Pass
    requires ValidConfig(cfg)
  {
    SplitAll(cfg, Detect(format, data), data, eos)
  }

  /** The parser's state between buffers. */
  datatype State = State(ok: bool, format: Format, adapter: Bytes, nals: seq<Nal>)

  function PushStep(cfg: Config, s: State, data: Bytes, eos: bool): State
    requires ValidConfig(cfg)
  {
    if !s.ok then s
    else
      var p := Split(cfg, s.format, s.adapter + data, eos);
      State(p.ok, Detect(s.format, s.adapter + data), p.rest, s.nals + p.nals)
  }

  /** Pushing the chunks in order, the last one with the end-of-stream flag. */
  function PushAll(cfg: Config, s: State, chunks: seq<Bytes>): State
    requires ValidConfig(cfg)
    decreases |chunks|
  {
    if chunks == [] then s
    else PushAll(cfg, PushStep(cfg, s, chunks[0], |chunks| == 1), chunks[1..])
  }

  function Joined(chunks: seq<Bytes>): Bytes {
    if chunks == [] then [] else chunks[0] + Joined(chunks[1..])
  }

  function Started(format: Format): State {
    State(true, format, [], [])
  }

  function UnitsOf(nals: seq<Nal>): (r: seq<Bytes>)
    ensures |r| == |nals|
  {
    seq(|nals|, i requires 0 <= i < |nals| => nals[i].bytes)
  }

  lemma UnitsConcat(a: seq<Nal>, b: seq<Nal>)
    ensures UnitsOf(a + b) == UnitsOf(a) + UnitsOf(b)
  {
  }

  /** More bytes never change a cut already possible, only what follows it. */
  lemma CutStable(cfg: Config, format: Format, data: Bytes, more: Bytes)
    requires ValidConfig(cfg)
    ensures var c := NextCut(cfg, format, data);
            && (c.Unit? ==> NextCut(cfg, format, data + more) == Unit(c.bytes, c.tail + more))
            && (c.Bad? ==> NextCut(cfg, format, data + more) == Bad)
  {
    match format {
      case Auto =>
      case AnnexB => CutAnnexBStable(data, more);
      case Length => CutLengthStable(cfg, data, more);
    }
  }

  lemma SlicesStable(data: Bytes, more: Bytes, begin: nat, end: nat)
    requires begin <= end <= |data|
    ensures (data + more)[begin..end] == data[begin..end] && (data + more)[end..] == data[end..] + more
  {
  }

  lemma CutAnnexBStable(data: Bytes, more: Bytes)
    ensures var c := CutAnnexB(data); c.Unit? ==> CutAnnexB(data + more) == Unit(c.bytes, c.tail + more)
  {
    hide FirstCode;
    var code := FirstCode(data, 0);
    if code.Some? {
      var begin := code.value.pos + code.value.size;
      FirstCodeStable(data, more, 0);
      if FirstCode(data, begin).Some? {
        FirstCodeStable(data, more, begin);
        SlicesStable(data, more, begin, FirstCode(data, begin).value.pos);
      }
    }
  }

  lemma CutLengthStable(cfg: Config, data: Bytes, more: Bytes)
    requires ValidConfig(cfg)
    ensures var c := CutLength(cfg, data);
            && (c.Unit? ==> CutLength(cfg, data + more) == Unit(c.bytes, c.tail + more))
            && (c.Bad? ==> CutLength(cfg, data + more) == Bad)
  {
    if |data| >= cfg.lengthSize {
      assert (data + more)[..cfg.lengthSize] == data[..cfg.lengthSize];
    }
  }

  /** Where the first two start codes are does not depend on the bytes in front of the first. */
  lemma TrimCodes(data: Bytes, more: Bytes)
    requires FirstCode(data, 0).Some?
    ensures var k, size := FirstCode(data, 0).value.pos, FirstCode(data, 0).value.size;
            var all := data + more;
            && Trim(data) + more == all[k..]
            && FirstCode(all, 0) == Some(Code(k, size)) && FirstCode(all[k..], 0) == Some(Code(0, size))
            && (FirstCode(all, k + size).Some? <==> FirstCode(all[k..], size).Some?)
            && (FirstCode(all, k + size).Some? ==>
                  FirstCode(all, k + size).value.pos == k + FirstCode(all[k..], size).value.pos)
  {
    var k, all := FirstCode(data, 0).value.pos, data + more;
    assert Trim(data) + more == all[k..];
    FirstCodeStable(data, more, 0);
    FirstCodeFinds(all, 0);
    FirstCodeIs(all, k, k);
    FirstCodeShift(all, k, 0);
    FirstCodeShift(all, k, FirstCode(data, 0).value.size);
  }

  lemma CutIs(p: Bytes, k: nat, size: nat)
    requires FirstCode(p, 0) == Some(Code(k, size))
    ensures var next := FirstCode(p, k + size);
            CutAnnexB(p) ==
            if next.None? then Stuck else Unit(p[k + size..next.value.pos], p[next.value.pos..])
  {
  }

  lemma SliceShift(p: Bytes, k: nat, a: nat, b: nat)
    requires k <= |p| && a <= b <= |p| - k
    ensures p[k..][a..b] == p[k + a..k + b] && p[k..][b..] == p[k + b..]
  {
  }

  lemma ShiftedCut(p: Bytes, k: nat, size: nat)
    requires FirstCode(p, 0) == Some(Code(k, size))
    requires FirstCode(p[k..], 0) == Some(Code(0, size))
    ensures CutAnnexB(p[k..]) == CutAnnexB(p)
  {
    CutIs(p, k, size);
    CutIs(p[k..], 0, size);
    ShiftedNext(p, k, size);
  }

  lemma ShiftedNext(p: Bytes, k: nat, size: nat)
    requires k + size <= |p|
    ensures var next, whole := FirstCode(p[k..], size), FirstCode(p, k + size);
            next.Some? == whole.Some? &&
            (next.Some? ==>
               && whole.value.pos == k + next.value.pos
               && p[k..][size..next.value.pos] == p[k + size..whole.value.pos]
               && p[k..][next.value.pos..] == p[whole.value.pos..])
  {
    FirstCodeShift(p, k, size);
    var next := FirstCode(p[k..], size);
    if next.Some? {
      SliceShift(p, k, size, next.value.pos);
    }
  }

  lemma TrimCut(data: Bytes, more: Bytes)
    ensures CutAnnexB(Trim(data) + more) == CutAnnexB(data + more)
  {
    if FirstCode(data, 0).Some? {
      TrimCodes(data, more);
      ShiftedCut(data + more, FirstCode(data, 0).value.pos, FirstCode(data, 0).value.size);
    }
  }

  lemma TrimFinish(cfg: Config, data: Bytes, more: Bytes, eos: bool)
    ensures Finish(cfg, AnnexB, Trim(data) + more, eos) == Finish(cfg, AnnexB, data + more, eos)
  {
    if FirstCode(data, 0).Some? {
      TrimCodes(data, more);
      var k, size, all := FirstCode(data, 0).value.pos, FirstCode(data, 0).value.size, data + more;
      assert all[k..][size..] == all[k + size..] && all[k..][0..] == all[k..];
    }
  }

  lemma TrimAll(cfg: Config, data: Bytes, more: Bytes, eos: bool)
    requires ValidConfig(cfg)
    ensures var p, q := SplitAll(cfg, AnnexB, Trim(data) + more, eos), SplitAll(cfg, AnnexB, data + more, eos);
            p.ok && q.ok && p == q
  {
    TrimCut(data, more);
    TrimFinish(cfg, data, more, eos);
    AnnexBNeverFails(cfg, data + more, eos);
  }

  lemma {:induction false} AnnexBNeverFails(cfg: Config, data: Bytes, eos: bool)
    requires ValidConfig(cfg)
    ensures SplitAll(cfg, AnnexB, data, eos).ok && !SplitAll(cfg, AnnexB, data, eos).dropped
    decreases |data|
  {
    var c := NextCut(cfg, AnnexB, data);
    if c.Unit? {
      AnnexBNeverFails(cfg, c.tail, eos);
    }
  }

  /** The same units and outcome; end-of-stream flags may differ. */
  predicate SameUnits(p: Pass, q: Pass) {
    && p.ok == q.ok && UnitsOf(p.nals) == UnitsOf(q.nals)
    && (p.ok ==> p.rest == q.rest && p.dropped == q.dropped)
  }

  /** Splitting part of the bytes now and the rest later is splitting all of them: to the flag
      if there is a rest, and up to the flag in any case. */
  predicate CarriesOn(cfg: Config, format: Format, data: Bytes, more: Bytes, eos: bool)
    requires ValidConfig(cfg)
  {
    var a, all := SplitAll(cfg, format, data, false), SplitAll(cfg, format, data + more, eos);
    if a.ok then
      var later := Before(a.nals, SplitAll(cfg, format, a.rest + more, eos));
      SameUnits(all, later) && (more != [] ==> all.nals == later.nals)
    else
      !all.ok && all.nals == a.nals
  }

  /** Units put in front of two outcomes that agree. */
  lemma BeforeBoth(now: seq<Nal>, whole: seq<Nal>, a: Pass, all: Pass, b: Pass)
    requires UnitsOf(now) == UnitsOf(whole) && SameUnits(all, Before(a.nals, b))
    ensures SameUnits(Before(whole, all), Before(Before(now, a).nals, b))
    ensures now == whole && all.nals == Before(a.nals, b).nals ==>
              Before(whole, all).nals == Before(Before(now, a).nals, b).nals
  {
    UnitsConcat(now, a.nals + b.nals);
    UnitsConcat(whole, all.nals);
    assert now + (a.nals + b.nals) == now + a.nals + b.nals;
  }

  lemma UnitFirst(cfg: Config, format: Format, data: Bytes, more: Bytes, eos: bool)
    requires ValidConfig(cfg) && NextCut(cfg, format, data).Unit?
    requires CarriesOn(cfg, format, NextCut(cfg, format, data).tail, more, eos)
    ensures CarriesOn(cfg, format, data, more, eos)
  {
    CutStable(cfg, format, data, more);
    var c, d := NextCut(cfg, format, data), NextCut(cfg, format, data + more);
    var a, all := SplitAll(cfg, format, c.tail, false), SplitAll(cfg, format, c.tail + more, eos);
    var now, whole := Handed(format, c, false), Handed(format, d, eos);
    assert SplitAll(cfg, format, data, false) == Before(now, a);
    assert SplitAll(cfg, format, data + more, eos) == Before(whole, all);
    assert UnitsOf(now) == UnitsOf(whole);
    if a.ok {
      BeforeBoth(now, whole, a, all, SplitAll(cfg, format, a.rest + more, eos));
    } else {
      assert c.tail != [];
    }
  }

  lemma {:induction false} SplitMore(cfg: Config, format: Format, data: Bytes, more: Bytes, eos: bool)
    requires ValidConfig(cfg)
    ensures CarriesOn(cfg, format, data, more, eos)
    decreases |data|
  {
    var c := NextCut(cfg, format, data);
    match c {
      case Bad => CutStable(cfg, format, data, more);
      case Stuck => StuckCarriesOn(cfg, format, data, more, eos);
      case Unit(_, tail) =>
        SplitMore(cfg, format, tail, more, eos);
        UnitFirst(cfg, format, data, more, eos);
    }
  }

  lemma StuckKeeps(cfg: Config, format: Format, data: Bytes)
    requires ValidConfig(cfg) && NextCut(cfg, format, data).Stuck?
    ensures SplitAll(cfg, format, data, false) ==
            Pass(true, [], if format.AnnexB? then Trim(data) else data, false)
  {
  }

  lemma StuckCarriesOn(cfg: Config, format: Format, data: Bytes, more: Bytes, eos: bool)
    requires ValidConfig(cfg) && NextCut(cfg, format, data).Stuck?
    ensures CarriesOn(cfg, format, data, more, eos)
  {
    hide SplitAll, NextCut, Trim;
    StuckKeeps(cfg, format, data);
    if format.AnnexB? {
      TrimAll(cfg, data, more, eos);
    }
    var all := SplitAll(cfg, format, data + more, eos);
    assert [] + all.nals == all.nals;
  }

  lemma DetectMore(format: Format, data: Bytes, more: Bytes)
    ensures !Detect(format, data).Auto? ==> Detect(format, data + more) == Detect(format, data)
    ensures Detect(format, data).Auto? ==> format.Auto? && |data| < 4
    ensures forall d :: Detect(Detect(format, data), d) ==
                        if Detect(format, data).Auto? then Detect(Auto, d) else Detect(format, data)
  {
  }

  lemma {:induction false} LastChunkShows(chunks: seq<Bytes>)
    requires chunks != [] && chunks[|chunks| - 1] != []
    ensures Joined(chunks) != []
  {
    if |chunks| > 1 {
      LastChunkShows(chunks[1..]);
    }
  }

  /** Two states that handed on the same units and will do the same next. */
  predicate Agree(s: State, t: State) {
    && s.ok == t.ok && UnitsOf(s.nals) == UnitsOf(t.nals)
    && (s.ok ==> s.adapter == t.adapter && s.format == t.format)
  }

  /** One push of the bytes of two, against the two pushes. */
  lemma PushSplit(cfg: Config, s: State, data: Bytes, more: Bytes)
    requires ValidConfig(cfg) && s.ok
    ensures var first, whole := PushStep(cfg, s, data, false), PushStep(cfg, s, data + more, true);
            if first.ok then
              var second := PushStep(cfg, first, more, true);
              Agree(second, whole) && (more != [] ==> second.nals == whole.nals)
            else
              !whole.ok && whole.nals == first.nals
  {
    var d := s.adapter + data;
    assert d + more == s.adapter + (data + more);
    DetectMore(s.format, d, more);
    hide PushStep, Agree, Detect;
    if Detect(s.format, d).Auto? {
      NonePushed(cfg, s, data, more);
    } else {
      SplitPushed(cfg, s, data, more);
    }
  }

  /** Too few bytes to tell the format are all kept for the next push. */
  lemma NonePushed(cfg: Config, s: State, data: Bytes, more: Bytes)
    requires ValidConfig(cfg) && s.ok && Detect(s.format, s.adapter + data).Auto?
    ensures var first := PushStep(cfg, s, data, false);
            first.ok && PushStep(cfg, first, more, true) == PushStep(cfg, s, data + more, true)
  {
    assert s.nals + [] == s.nals;
    assert s.adapter + data + more == s.adapter + (data + more);
    assert SplitAll(cfg, Auto, s.adapter + data, false) == Pass(true, [], s.adapter + data, false);
    hide SplitAll;
  }

  lemma SplitPushed(cfg: Config, s: State, data: Bytes, more: Bytes)
    requires ValidConfig(cfg) && s.ok && !Detect(s.format, s.adapter + data).Auto?
    requires s.adapter + (data + more) == s.adapter + data + more
    requires Detect(s.format, s.adapter + (data + more)) == Detect(s.format, s.adapter + data)
    ensures var first, whole := PushStep(cfg, s, data, false), PushStep(cfg, s, data + more, true);
            if first.ok then
              var second := PushStep(cfg, first, more, true);
              Agree(second, whole) && (more != [] ==> second.nals == whole.nals)
            else
              !whole.ok && whole.nals == first.nals
  {
    hide SplitAll, PushStep, UnitsOf;
    var d := s.adapter + data;
    var f := Detect(s.format, d);
    Pushed(cfg, s, data, false);
    Pushed(cfg, s, data + more, true);
    SplitMore(cfg, f, d, more, true);
    var a, all := SplitAll(cfg, f, d, false), SplitAll(cfg, f, d + more, true);
    if a.ok {
      Pushed(cfg, PushStep(cfg, s, data, false), more, true);
      assert Detect(f, a.rest + more) == f;
      hide Detect;
      ThreeUnits(s.nals, a.nals, SplitAll(cfg, f, a.rest + more, true).nals, all.nals);
    }
  }

  lemma ThreeUnits(a: seq<Nal>, b: seq<Nal>, c: seq<Nal>, d: seq<Nal>)
    requires UnitsOf(d) == UnitsOf(b + c)
    ensures UnitsOf(a + d) == UnitsOf(a + b + c)
    ensures d == b + c ==> a + d == a + b + c
  {
    UnitsConcat(a, d);
    UnitsConcat(a, b + c);
    assert a + (b + c) == a + b + c;
  }

  /** However a stream is cut into buffers, the same units are handed on and the stream fails or
      succeeds alike, with the same bytes left over. */
  lemma {:induction false} ChunksAgree(cfg: Config, s: State, chunks: seq<Bytes>)
    requires ValidConfig(cfg) && s.ok && chunks != []
    ensures var whole := PushStep(cfg, s, Joined(chunks), true);
            && Agree(PushAll(cfg, s, chunks), whole)
            && (chunks[|chunks| - 1] != [] ==> PushAll(cfg, s, chunks).nals == whole.nals)
    decreases |chunks|
  {
    if |chunks| == 1 {
      assert Joined(chunks) == chunks[0];
    } else {
      var first, more := PushStep(cfg, s, chunks[0], false), Joined(chunks[1..]);
      PushSplit(cfg, s, chunks[0], more);
      if first.ok {
        ChunksAgree(cfg, first, chunks[1..]);
        if chunks[|chunks| - 1] != [] {
          LastChunkShows(chunks[1..]);
        }
      } else {
        FailedStays(cfg, first, chunks[1..]);
      }
    }
  }

  lemma {:induction false} FailedStays(cfg: Config, s: State, chunks: seq<Bytes>)
    requires ValidConfig(cfg) && !s.ok
    ensures PushAll(cfg, s, chunks) == s
  {
    if chunks != [] {
      FailedStays(cfg, s, chunks[1..]);
    }
  }

  /** The stream is length-prefixed and not empty, and its last byte is the last of a unit. */
  predicate EndsOnUnit(cfg: Config, format: Format, data: Bytes)
    requires ValidConfig(cfg)
  {
    data != [] && Detect(format, data).Length? &&
    var p := SplitAll(cfg, Length, data, false); p.ok && p.rest == []
  }

  /** Nothing more can be cut from what a pass leaves. */
  lemma {:induction false} RestIsStuck(cfg: Config, format: Format, data: Bytes)
    requires ValidConfig(cfg)
    ensures var p := SplitAll(cfg, format, data, false); p.ok ==> NextCut(cfg, format, p.rest).Stuck?
    decreases |data|
  {
    var c := NextCut(cfg, format, data);
    if c.Unit? {
      RestIsStuck(cfg, format, c.tail);
    } else if format.AnnexB? {
      TrimCut(data, []);
      assert Trim(data) + [] == Trim(data) && data + [] == data;
    }
  }

  /** Of an Annex B stream no more than one unit is kept, from its start code on, unless there has
      been no start code at all. */
  lemma {:induction false} KeptIsOneUnit(cfg: Config, data: Bytes)
    requires ValidConfig(cfg)
    ensures var rest := SplitAll(cfg, AnnexB, data, false).rest;
            match FirstCode(rest, 0)
            case None => true
            case Some(code) => code.pos == 0 && FirstCode(rest, code.size) == None
    decreases |data|
  {
    var c := CutAnnexB(data);
    if c.Unit? {
      hide FirstCode, CutAnnexB, Trim;
      KeptIsOneUnit(cfg, c.tail);
    } else if FirstCode(data, 0).Some? {
      TrimCodes(data, []);
      assert Trim(data) + [] == Trim(data) && data + [] == data;
    }
  }

  /** A split at the end of the stream against one before it and one of what that leaves. */
  predicate EndsAlike(cfg: Config, format: Format, data: Bytes)
    requires ValidConfig(cfg)
  {
    var a := SplitAll(cfg, format, data, false);
    SplitAll(cfg, format, data, true).nals == a.nals + SplitAll(cfg, format, a.rest, true).nals
  }

  lemma {:induction false} EndSplit(cfg: Config, format: Format, data: Bytes)
    requires ValidConfig(cfg) && SplitAll(cfg, format, data, false).ok
    ensures EndsAlike(cfg, format, data) <==>
            !(format.Length? && data != [] && SplitAll(cfg, format, data, false).rest == [])
    decreases |data|
  {
    var c := NextCut(cfg, format, data);
    match c {
      case Stuck => StuckEnd(cfg, format, data);
      case Unit(_, tail) =>
        EndSplit(cfg, format, tail);
        UnitEnd(cfg, format, data);
    }
  }

  lemma StuckEnd(cfg: Config, format: Format, data: Bytes)
    requires ValidConfig(cfg) && NextCut(cfg, format, data).Stuck?
    ensures EndsAlike(cfg, format, data)
    ensures format.Length? ==> SplitAll(cfg, format, data, false).rest == data
  {
    if format.AnnexB? {
      TrimAll(cfg, data, [], true);
      assert Trim(data) + [] == Trim(data) && data + [] == data;
    }
  }

  lemma UnitSplit(cfg: Config, format: Format, data: Bytes, eos: bool)
    requires ValidConfig(cfg) && NextCut(cfg, format, data).Unit?
    ensures var c := NextCut(cfg, format, data);
            SplitAll(cfg, format, data, eos) == Before(Handed(format, c, eos), SplitAll(cfg, format, c.tail, eos))
  {
  }

  /** Whether the end is known makes a difference only to a length-prefixed unit that ends there. */
  lemma HandedEnds(cfg: Config, format: Format, data: Bytes)
    requires ValidConfig(cfg) && NextCut(cfg, format, data).Unit?
    ensures var c := NextCut(cfg, format, data);
            var now, whole := Handed(format, c, false), Handed(format, c, true);
            if format.Length? && c.tail == [] then now == [Nal(c.bytes, false)] && whole == [Nal(c.bytes, true)]
            else now == whole
  {
  }

  lemma UnitEnd(cfg: Config, format: Format, data: Bytes)
    requires ValidConfig(cfg) && NextCut(cfg, format, data).Unit?
    requires SplitAll(cfg, format, NextCut(cfg, format, data).tail, false).ok
    ensures var c := NextCut(cfg, format, data);
            EndsAlike(cfg, format, data) <==>
            EndsAlike(cfg, format, c.tail) && !(format.Length? && c.tail == [])
  {
    hide SplitAll, NextCut, Handed;
    UnitSplit(cfg, format, data, false);
    UnitSplit(cfg, format, data, true);
    HandedEnds(cfg, format, data);
    var c := NextCut(cfg, format, data);
    var a, all := SplitAll(cfg, format, c.tail, false), SplitAll(cfg, format, c.tail, true);
    var later := SplitAll(cfg, format, a.rest, true).nals;
    PrefixedEnd(Handed(format, c, false), Handed(format, c, true), a.nals, later, all.nals);
  }

  lemma PrefixedEnd(now: seq<Nal>, whole: seq<Nal>, a: seq<Nal>, later: seq<Nal>, all: seq<Nal>)
    ensures now == whole ==> (whole + all == now + a + later <==> all == a + later)
    ensures now != [] && whole != [] && now[0] != whole[0] ==> whole + all != now + a + later
  {
    assert now + a + later == now + (a + later);
    if now == whole {
      SamePrefix(now, all, a + later);
    } else if now != [] && whole != [] && now[0] != whole[0] {
      assert (whole + all)[0] != (now + (a + later))[0];
    }
  }

  lemma SamePrefix(a: seq<Nal>, b: seq<Nal>, c: seq<Nal>)
    ensures a + b == a + c <==> b == c
  {
    assert b == (a + b)[|a|..] && c == (a + c)[|a|..];
  }

  predicate Drained(cfg: Config, s: State)
    requires ValidConfig(cfg)
  {
    s.ok && NextCut(cfg, Detect(s.format, s.adapter), s.adapter).Stuck?
  }

  lemma PushDrains(cfg: Config, s: State, data: Bytes)
    requires ValidConfig(cfg) && s.ok
    ensures var t := PushStep(cfg, s, data, false); t.ok ==> Drained(cfg, t)
  {
    var d := s.adapter + data;
    RestIsStuck(cfg, Detect(s.format, d), d);
    DetectMore(s.format, d, []);
  }

  /** After two buffers the stream ends on a unit if it does after the two as one. */
  lemma EndsOnSame(cfg: Config, s: State, data: Bytes, more: Bytes)
    requires ValidConfig(cfg) && s.ok && more != []
    ensures var first := PushStep(cfg, s, data, false);
            EndsOnUnit(cfg, s.format, s.adapter + (data + more)) <==>
            first.ok && EndsOnUnit(cfg, first.format, first.adapter + more)
  {
    var d := s.adapter + data;
    assert d + more == s.adapter + (data + more);
    DetectMore(s.format, d, more);
    if !Detect(s.format, d).Auto? {
      SplitMore(cfg, Detect(s.format, d), d, more, false);
    }
  }

  lemma FailedEnds(cfg: Config, s: State, data: Bytes, more: Bytes)
    requires ValidConfig(cfg) && s.ok && !PushStep(cfg, s, data, false).ok
    ensures !EndsOnUnit(cfg, s.format, s.adapter + (data + more))
  {
    var d := s.adapter + data;
    assert d + more == s.adapter + (data + more);
    DetectMore(s.format, d, more);
    SplitMore(cfg, Detect(s.format, d), d, more, false);
  }

  lemma NextDetect(cfg: Config, s: State, data: Bytes)
    requires ValidConfig(cfg) && s.ok && PushStep(cfg, s, data, false).ok
    ensures var f, first := Detect(s.format, s.adapter + data), PushStep(cfg, s, data, false);
            Detect(first.format, first.adapter) == f
  {
    DetectMore(s.format, s.adapter + data, []);
  }

  lemma Pushed(cfg: Config, s: State, data: Bytes, eos: bool)
    requires ValidConfig(cfg) && s.ok
    ensures var f, d := Detect(s.format, s.adapter + data), s.adapter + data;
            var p := SplitAll(cfg, f, d, eos);
            PushStep(cfg, s, data, eos) == State(p.ok, f, p.rest, s.nals + p.nals)
  {
  }

  lemma EmptyPushed(cfg: Config, s: State)
    requires ValidConfig(cfg) && s.ok
    ensures PushStep(cfg, s, [], true).nals ==
            s.nals + SplitAll(cfg, Detect(s.format, s.adapter), s.adapter, true).nals
  {
    assert s.adapter + [] == s.adapter;
  }

  /** What two pushes hand on, the second of them empty and at the end. */
  lemma LastNals(cfg: Config, s: State, data: Bytes)
    requires ValidConfig(cfg) && s.ok && PushStep(cfg, s, data, false).ok
    ensures var d, first := s.adapter + data, PushStep(cfg, s, data, false);
            var f := Detect(s.format, d);
            var a := SplitAll(cfg, f, d, false);
            a.ok && PushStep(cfg, first, [], true).nals == s.nals + (a.nals + SplitAll(cfg, f, a.rest, true).nals)
  {
    hide SplitAll, Detect, PushStep;
    Pushed(cfg, s, data, false);
    NextDetect(cfg, s, data);
    EmptyPushed(cfg, PushStep(cfg, s, data, false));
  }

  lemma LastStep(cfg: Config, s: State, data: Bytes)
    requires ValidConfig(cfg) && s.ok && PushStep(cfg, s, data, false).ok
    ensures var first, whole := PushStep(cfg, s, data, false), PushStep(cfg, s, data, true);
            PushStep(cfg, first, [], true).nals == whole.nals <==> !EndsOnUnit(cfg, s.format, s.adapter + data)
  {
    hide SplitAll, NextCut, Detect, PushStep, Split;
    LastNals(cfg, s, data);
    Pushed(cfg, s, data, true);
    var d := s.adapter + data;
    var f := Detect(s.format, d);
    var a := SplitAll(cfg, f, d, false);
    EndSplit(cfg, f, d);
    SamePrefix(s.nals, a.nals + SplitAll(cfg, f, a.rest, true).nals, SplitAll(cfg, f, d, true).nals);
  }

  lemma {:induction false} EmptyEnd(cfg: Config, s: State, chunks: seq<Bytes>)
    requires ValidConfig(cfg) && Drained(cfg, s) && chunks != [] && chunks[|chunks| - 1] == []
    ensures PushAll(cfg, s, chunks).nals == PushStep(cfg, s, Joined(chunks), true).nals <==>
            !EndsOnUnit(cfg, s.format, s.adapter + Joined(chunks))
    decreases |chunks|
  {
    if |chunks| == 1 {
      assert Joined(chunks) == [] && s.adapter + [] == s.adapter;
    } else {
      var first, more := PushStep(cfg, s, chunks[0], false), Joined(chunks[1..]);
      if first.ok {
        PushDrains(cfg, s, chunks[0]);
        EmptyEnd(cfg, first, chunks[1..]);
        if more == [] {
          assert chunks[0] + more == chunks[0] && first.adapter + more == first.adapter;
          LastStep(cfg, s, chunks[0]);
        } else {
          PushSplit(cfg, s, chunks[0], more);
          EndsOnSame(cfg, s, chunks[0], more);
        }
      } else {
        PushSplit(cfg, s, chunks[0], more);
        FailedStays(cfg, first, chunks[1..]);
        FailedEnds(cfg, s, chunks[0], more);
      }
    }
  }

  /** The end-of-stream flags, too, are the same however the stream is cut, unless the last buffer
      is empty and the stream ends on a length-prefixed unit: that one has then gone out
      unflagged before the end is known. */
  lemma FlagsAgreeExactly(cfg: Config, format: Format, chunks: seq<Bytes>)
    requires ValidConfig(cfg) && chunks != []
    ensures PushAll(cfg, Started(format), chunks).nals == PushStep(cfg, Started(format), Joined(chunks), true).nals
            <==> chunks[|chunks| - 1] != [] || !EndsOnUnit(cfg, format, Joined(chunks))
  {
    assert [] + Joined(chunks) == Joined(chunks);
    if chunks[|chunks| - 1] == [] {
      assert FirstCode([], 0).None?;
      EmptyEnd(cfg, Started(format), chunks);
    } else {
      ChunksAgree(cfg, Started(format), chunks);
    }
  }

  /** Such a stream: one length-prefixed unit followed by an empty last buffer. */
  lemma EmptyLastChunk()
    ensures var cfg, unit := Config(4, 100, 100, true), [0, 0, 0, 1, 0x65];
            && PushStep(cfg, Started(Length), unit, true).nals == [Nal([0x65], true)]
            && PushAll(cfg, Started(Length), [unit, []]).nals == [Nal([0x65], false)]
  {
    var cfg, unit: Bytes := Config(4, 100, 100, true), [0, 0, 0, 1, 0x65];
    var start := Started(Length);
    BigEndian4(unit[..4]);
    assert start.adapter + unit == unit && unit[4..5] == [0x65] && unit[5..] == [];
    assert CutLength(cfg, unit) == Unit([0x65], []);
    assert CutLength(cfg, []) == Stuck;
    assert SplitAll(cfg, Length, unit, true).nals == [Nal([0x65], true)];
    var first := PushStep(cfg, start, unit, false);
    assert first == State(true, Length, [], [Nal([0x65], false)]);
    assert [unit, []][1..] == [[]];
    assert PushAll(cfg, first, [[]]) == PushStep(cfg, first, [], true);
  }

  lemma BigEndian4(b: Bytes)
    requires |b| == 4
    ensures BigEndian(b) == Word32(b[0], b[1], b[2], b[3])
  {
    assert b[..3][..2] == b[..2] && b[..2][..1] == b[..1] && b[..1][..0] == [];
    assert BigEndian(b[..1]) == b[0];
    assert BigEndian(b[..2]) == Word16(b[0], b[1]);
    assert BigEndian(b[..3]) == Word16(b[0], b[1]) * 256 + b[2];
  }
}
