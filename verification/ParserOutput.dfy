/** The parser from end to end: buffers in, NAL units, buffers out. */
module ParserOutput {
  import opened StartCodes
  import opened EmulationPrevention
  import opened AnnexBStream
  import opened AccessUnits

  predicate AllClean(nals: seq<Nal>) {
    forall i | 0 <= i < |nals| :: Clean(nals[i].bytes)
  }

  /** Between a start code and the next, or the end, there is no start code. */
  lemma BetweenCodesClean(data: Bytes, begin: nat, end: nat)
    requires begin <= end <= |data| && forall j | begin <= j < end :: !CodeAt(data, j)
    ensures Clean(data[begin..end])
  {
    forall i | 0 <= i < end - begin - 2
      ensures !(data[begin..end][i] == 0 && data[begin..end][i + 1] == 0 && data[begin..end][i + 2] == 1)
    {
      assert !CodeAt(data, begin + i);
    }
  }

  lemma CutClean(data: Bytes)
    ensures NalSplitter.CutAnnexB(data).Unit? ==> Clean(NalSplitter.CutAnnexB(data).bytes)
  {
    if NalSplitter.CutAnnexB(data).Unit? {
      var code := FirstCode(data, 0).value;
      FirstCodeFinds(data, code.pos + code.size);
      BetweenCodesClean(data, code.pos + code.size, FirstCode(data, code.pos + code.size).value.pos);
    }
  }

  lemma FinishClean(cfg: NalSplitter.Config, data: Bytes, eos: bool)
    requires NalSplitter.CutAnnexB(data).Stuck?
    ensures AllClean(NalSplitter.Finish(cfg, NalSplitter.AnnexB, data, eos).nals)
  {
    if FirstCode(data, 0).Some? {
      var code := FirstCode(data, 0).value;
      FirstCodeFinds(data, code.pos + code.size);
      BetweenCodesClean(data, code.pos + code.size, |data|);
      assert data[code.pos + code.size..] == data[code.pos + code.size..|data|];
    }
  }

  /** Nothing empty is handed on, and from an Annex B stream nothing with a start code inside. */
  lemma {:induction false} HandedOn(cfg: NalSplitter.Config, format: NalSplitter.Format, data: Bytes, eos: bool)
    requires NalSplitter.ValidConfig(cfg)
    ensures AllNonEmpty(NalSplitter.SplitAll(cfg, format, data, eos).nals)
    ensures format.AnnexB? ==> AllClean(NalSplitter.SplitAll(cfg, format, data, eos).nals)
    decreases |data|
  {
    var c := NalSplitter.NextCut(cfg, format, data);
    if format.AnnexB? {
      CutClean(data);
    }
    if c.Unit? {
      HandedOn(cfg, format, c.tail, eos);
    } else if format.AnnexB? {
      FinishClean(cfg, data, eos);
    }
  }

  lemma {:induction false} AllHandedOn(cfg: NalSplitter.Config, s: NalSplitter.State, chunks: seq<Bytes>)
    requires NalSplitter.ValidConfig(cfg) && AllNonEmpty(s.nals)
    ensures AllNonEmpty(NalSplitter.PushAll(cfg, s, chunks).nals)
    ensures s.format.AnnexB? && AllClean(s.nals) ==> AllClean(NalSplitter.PushAll(cfg, s, chunks).nals)
    decreases |chunks|
  {
    if chunks != [] {
      if s.ok {
        HandedOn(cfg, NalSplitter.Detect(s.format, s.adapter + chunks[0]), s.adapter + chunks[0], |chunks| == 1);
      }
      AllHandedOn(cfg, NalSplitter.PushStep(cfg, s, chunks[0], |chunks| == 1), chunks[1..]);
    }
  }

  lemma {:induction false} ByteStreamIs(nals: seq<Nal>)
    ensures ByteStream(nals) == Coded(NalSplitter.UnitsOf(nals))
  {
    if nals != [] {
      var before, units := nals[..|nals| - 1], NalSplitter.UnitsOf(nals);
      ByteStreamIs(before);
      CodedSnoc(NalSplitter.UnitsOf(before), nals[|nals| - 1].bytes);
      assert units == NalSplitter.UnitsOf(before) + [nals[|nals| - 1].bytes];
    }
  }

  /** Parsing what the parser put out, aggregated or not, gives its NAL units again: whatever Annex
      B stream went in, and however input and output are cut into buffers. */
  lemma OutputParsesAlike(cfg: NalSplitter.Config, au: Config, chunks: seq<Bytes>, again: seq<Bytes>)
    requires NalSplitter.ValidConfig(cfg) && again != []
    requires var nals := NalSplitter.PushAll(cfg, NalSplitter.Started(NalSplitter.AnnexB), chunks).nals;
             && Ended(Run(au, nals)).ok
             && NalSplitter.Joined(again) == Concatenated(Ended(Run(au, nals)).out)
    ensures var first := NalSplitter.PushAll(cfg, NalSplitter.Started(NalSplitter.AnnexB), chunks);
            var second := NalSplitter.PushAll(cfg, NalSplitter.Started(NalSplitter.AnnexB), again);
            second.ok && NalSplitter.UnitsOf(second.nals) == NalSplitter.UnitsOf(first.nals)
  {
    var nals := NalSplitter.PushAll(cfg, NalSplitter.Started(NalSplitter.AnnexB), chunks).nals;
    AllHandedOn(cfg, NalSplitter.Started(NalSplitter.AnnexB), chunks);
    OutputIsByteStream(au, nals);
    ByteStreamIs(nals);
    UnitsComeBack(cfg, NalSplitter.UnitsOf(nals), AllLong(|nals|), again);
  }

  /** The same up to end-of-stream flags. */
  predicate SameBuffer(a: Unit, b: Unit) {
    a.bytes == b.bytes && a.key == b.key
  }

  predicate SameBuffers(a: seq<Unit>, b: seq<Unit>) {
    |a| == |b| && forall k | 0 <= k < |a| :: SameBuffer(a[k], b[k])
  }

  predicate SameState(s: State, t: State) {
    s.ok == t.ok && s.au == t.au && s.hasVcl == t.hasVcl && s.key == t.key && SameBuffers(s.out, t.out)
  }

  lemma FlushSame(s: State, t: State)
    requires SameState(s, t)
    ensures SameState(Flushed(s), Flushed(t))
  {
  }

  lemma PartedSame(cfg: Config, s: State, t: State, nal: Bytes)
    requires SameState(s, t) && nal != []
    ensures SameState(Parted(cfg, s, nal), Parted(cfg, t, nal))
  {
    FlushSame(s, t);
    FlushSame(Flushed(s), Flushed(t));
  }

  lemma TakenSame(cfg: Config, s: State, t: State, m: Nal, n: Nal)
    requires SameState(s, t) && m.bytes == n.bytes != []
    ensures SameState(Taken(cfg, s, m), Taken(cfg, t, n))
  {
  }

  lemma StepSame(cfg: Config, s: State, t: State, m: Nal, n: Nal)
    requires SameState(s, t) && m.bytes == n.bytes
    ensures SameState(HandleStep(cfg, s, m), HandleStep(cfg, t, n))
  {
    if m.bytes != [] && s.ok {
      PartedSame(cfg, s, t, m.bytes);
      TakenSame(cfg, Parted(cfg, s, m.bytes), Parted(cfg, t, n.bytes), m, n);
    }
  }

  lemma {:induction false} RunSame(cfg: Config, a: seq<Nal>, b: seq<Nal>)
    requires NalSplitter.UnitsOf(a) == NalSplitter.UnitsOf(b)
    ensures SameState(Ended(Run(cfg, a)), Ended(Run(cfg, b))) && SameState(Run(cfg, a), Run(cfg, b))
  {
    assert |a| == |NalSplitter.UnitsOf(a)| == |b|;
    if a != [] {
      var c, d := a[..|a| - 1], b[..|b| - 1];
      assert NalSplitter.UnitsOf(c) == NalSplitter.UnitsOf(a)[..|c|] == NalSplitter.UnitsOf(d);
      assert NalSplitter.UnitsOf(a)[|c|] == NalSplitter.UnitsOf(b)[|d|];
      RunSame(cfg, c, d);
      StepSame(cfg, Run(cfg, c), Run(cfg, d), a[|c|], b[|d|]);
    }
    if Run(cfg, a).ok {
      FlushSame(Run(cfg, a).(eos := true), Run(cfg, b).(eos := true));
    }
  }

  /** How the input is cut into buffers makes no difference to the buffers put out. */
  lemma ChunksPutOutAlike(cfg: NalSplitter.Config, au: Config, format: NalSplitter.Format,
                          chunks: seq<Bytes>, others: seq<Bytes>)
    requires NalSplitter.ValidConfig(cfg) && chunks != [] && others != []
    requires NalSplitter.Joined(chunks) == NalSplitter.Joined(others)
    ensures SameState(Ended(Run(au, NalSplitter.PushAll(cfg, NalSplitter.Started(format), chunks).nals)),
                      Ended(Run(au, NalSplitter.PushAll(cfg, NalSplitter.Started(format), others).nals)))
  {
    var start := NalSplitter.Started(format);
    NalSplitter.ChunksAgree(cfg, start, chunks);
    NalSplitter.ChunksAgree(cfg, start, others);
    RunSame(au, NalSplitter.PushAll(cfg, start, chunks).nals, NalSplitter.PushAll(cfg, start, others).nals);
  }
}
