/** The parser's adapter: bytes are appended as buffers arrive, and each pass walks offsets over
    them, hands on the complete units, and moves what is left to the front. Each push is proved
    to be one step of NalSplitter. */
module NalParser {
  import opened Words
  import opened StartCodes
  import opened NalSplitter

  /** The offset is at a start code of `size` bytes. */
  predicate OnCode(p: Bytes, off: nat, size: nat) {
    off + size <= |p| && FirstCode(p[off..], 0) == Some(Code(0, size))
  }

  lemma FoundIsOn(p: Bytes, from: nat)
    ensures FirstCode(p, from).Some? ==> OnCode(p, FirstCode(p, from).value.pos, FirstCode(p, from).value.size)
  {
    if FirstCode(p, from).Some? {
      var off := FirstCode(p, from).value.pos;
      FirstCodeFinds(p, from);
      FirstCodeIs(p, off, off);
      FirstCodeShift(p, off, 0);
    }
  }

  /** Before the first start code there is nothing to hand on. */
  lemma FirstUnit(cfg: Config, p: Bytes, eos: bool)
    requires ValidConfig(cfg)
    ensures SplitAll(cfg, AnnexB, p, eos) ==
            if FirstCode(p, 0).Some? then SplitAll(cfg, AnnexB, p[FirstCode(p, 0).value.pos..], eos)
            else Pass(true, [], p, false)
  {
    if FirstCode(p, 0).Some? {
      TrimAll(cfg, p, [], eos);
      assert Trim(p) + [] == Trim(p) && p + [] == p;
    }
  }

  /** From one start code to the next, or to the end. */
  lemma OneUnit(cfg: Config, p: Bytes, off: nat, size: nat, eos: bool)
    requires ValidConfig(cfg) && OnCode(p, off, size)
    ensures var next := FirstCode(p, off + size);
            SplitAll(cfg, AnnexB, p[off..], eos) ==
            if next.Some? then
              Before(if next.value.pos > off + size then [Nal(p[off + size..next.value.pos], false)] else [],
                     SplitAll(cfg, AnnexB, p[next.value.pos..], eos))
            else if eos && |p| > off + size then Pass(true, [Nal(p[off + size..], true)], [], false)
            else Pass(true, [], p[off..], false)
  {
    CutIs(p[off..], 0, size);
    ShiftedNext(p, off, size);
    if FirstCode(p, off + size).None? {
      LastUnit(cfg, p[off..], size, eos);
      assert p[off..][size..] == p[off + size..];
    }
  }

  lemma LastUnit(cfg: Config, p: Bytes, size: nat, eos: bool)
    requires ValidConfig(cfg) && FirstCode(p, 0) == Some(Code(0, size)) && CutAnnexB(p) == Stuck
    ensures SplitAll(cfg, AnnexB, p, eos) ==
            if eos && |p| > size then Pass(true, [Nal(p[size..], true)], [], false) else Pass(true, [], p, false)
  {
    assert p[0..] == p;
  }

  /** Where a walk over the adapter has come to: units handed on so far, and the offset. */
  datatype Progress = Progress(handed: seq<Nal>, off: nat)

  /** The unit between two start codes; an empty one is not handed on. */
  function Between(p: Bytes, begin: nat, end: nat): seq<Nal>
    requires begin <= end <= |p|
  {
    if begin < end then [Nal(p[begin..end], false)] else []
  }

  /** The walk over start codes from the one at `off`. */
  function WalkCodes(p: Bytes, off: nat, size: nat, eos: bool, handed: seq<Nal>): (r: Progress)
    requires 0 < size && off + size <= |p|
    ensures off <= r.off <= |p|
    decreases |p| - off
  {
    var next := FirstCode(p, off + size);
    if next.Some? then
      WalkCodes(p, next.value.pos, next.value.size, eos, handed + Between(p, off + size, next.value.pos))
    else if eos && |p| > off + size then Progress(handed + [Nal(p[off + size..], true)], |p|)
    else Progress(handed, off)
  }

  lemma BeforeTwice(a: seq<Nal>, b: seq<Nal>, p: Pass)
    ensures Before(a, Before(b, p)) == Before(a + b, p)
    ensures Before(a, Before([], p)) == Before(a, p)
  {
    assert a + (b + p.nals) == a + b + p.nals && [] + p.nals == p.nals;
  }

  /** The walk hands on and keeps what `p` would, on top of `handed`. */
  predicate Amounts(bytes: Bytes, w: Progress, handed: seq<Nal>, p: Pass)
    requires w.off <= |bytes|
  {
    Pass(true, w.handed, bytes[w.off..], false) == Before(handed, p)
  }

  lemma AmountsBefore(bytes: Bytes, w: Progress, handed: seq<Nal>, first: seq<Nal>, p: Pass)
    requires w.off <= |bytes| && Amounts(bytes, w, handed + first, p)
    ensures Amounts(bytes, w, handed, Before(first, p))
  {
    BeforeTwice(handed, first, p);
  }

  lemma WalkGoesOn(cfg: Config, p: Bytes, off: nat, size: nat, next: Code, eos: bool, handed: seq<Nal>)
    requires ValidConfig(cfg) && 0 < size && OnCode(p, off, size) && FirstCode(p, off + size) == Some(next)
    requires Amounts(p, WalkCodes(p, next.pos, next.size, eos, handed + Between(p, off + size, next.pos)),
                     handed + Between(p, off + size, next.pos), SplitAll(cfg, AnnexB, p[next.pos..], eos))
    ensures Amounts(p, WalkCodes(p, off, size, eos, handed), handed, SplitAll(cfg, AnnexB, p[off..], eos))
  {
    var first := Between(p, off + size, next.pos);
    OneUnit(cfg, p, off, size, eos);
    assert handed + [] == handed;
    AmountsBefore(p, WalkCodes(p, next.pos, next.size, eos, handed + first), handed, first,
                  SplitAll(cfg, AnnexB, p[next.pos..], eos));
  }

  lemma {:induction false} WalkIsSplit(cfg: Config, p: Bytes, off: nat, size: nat, eos: bool, handed: seq<Nal>)
    requires ValidConfig(cfg) && 0 < size && OnCode(p, off, size)
    ensures Amounts(p, WalkCodes(p, off, size, eos, handed), handed, SplitAll(cfg, AnnexB, p[off..], eos))
    decreases |p| - off
  {
    FoundIsOn(p, off + size);
    match FirstCode(p, off + size) {
      case None => OneUnit(cfg, p, off, size, eos);
      case Some(next) =>
        WalkIsSplit(cfg, p, next.pos, next.size, eos, handed + Between(p, off + size, next.pos));
        WalkGoesOn(cfg, p, off, size, next, eos, handed);
    }
  }

  /** What the length field at `off` says: no acceptable length, no complete unit, or a unit. */
  datatype Field = Refused | Incomplete | Complete(begin: nat, end: nat)

  function FieldAt(cfg: Config, p: Bytes, off: nat): (f: Field)
    requires ValidConfig(cfg) && off <= |p|
    ensures f.Complete? ==> off < f.begin <= f.end <= |p|
  {
    if |p| - off < cfg.lengthSize then Incomplete
    else
      var begin := off + cfg.lengthSize;
      var n := BigEndian(p[off..begin]);
      if n == 0 || n > cfg.maxNal then Refused
      else if n > |p| - begin then Incomplete
      else Complete(begin, begin + n)
  }

  lemma FieldIsCut(cfg: Config, p: Bytes, off: nat)
    requires ValidConfig(cfg) && off <= |p|
    ensures CutLength(cfg, p[off..]) ==
            match FieldAt(cfg, p, off)
            case Refused => Bad
            case Incomplete => Stuck
            case Complete(begin, end) => Unit(p[begin..end], p[end..])
  {
    var tail := p[off..];
    if |tail| >= cfg.lengthSize {
      var begin := off + cfg.lengthSize;
      assert tail[..cfg.lengthSize] == p[off..begin];
      if FieldAt(cfg, p, off).Complete? {
        SliceShift(p, off, cfg.lengthSize, FieldAt(cfg, p, off).end - off);
      }
    }
  }

  function UnitAt(p: Bytes, begin: nat, end: nat, eos: bool): Nal
    requires begin <= end <= |p|
  {
    Nal(p[begin..end], eos && end == |p|)
  }

  /** The walk over length-prefixed units; false when a length is not acceptable. */
  function WalkLengths(cfg: Config, p: Bytes, off: nat, eos: bool, handed: seq<Nal>): (r: (bool, Progress))
    requires ValidConfig(cfg) && off <= |p|
    ensures off <= r.1.off <= |p|
    decreases |p| - off
  {
    match FieldAt(cfg, p, off)
    case Refused => (false, Progress(handed, off))
    case Incomplete => (true, Progress(handed, off))
    case Complete(begin, end) => WalkLengths(cfg, p, end, eos, handed + [UnitAt(p, begin, end, eos)])
  }

  /** What is done with the bytes at which such a walk stops. */
  function Ended(cfg: Config, p: Bytes, w: (bool, Progress), eos: bool): Pass
    requires w.1.off <= |p|
  {
    if w.0 then Before(w.1.handed, Finish(cfg, Length, p[w.1.off..], eos))
    else Pass(false, w.1.handed, p[w.1.off..], false)
  }

  lemma {:induction false} LengthsAreSplit(cfg: Config, p: Bytes, off: nat, eos: bool, handed: seq<Nal>)
    requires ValidConfig(cfg) && off <= |p|
    ensures Ended(cfg, p, WalkLengths(cfg, p, off, eos, handed), eos) ==
            Before(handed, SplitAll(cfg, Length, p[off..], eos))
    decreases |p| - off
  {
    FieldIsCut(cfg, p, off);
    var f := FieldAt(cfg, p, off);
    if f.Complete? {
      var unit := UnitAt(p, f.begin, f.end, eos);
      LengthsAreSplit(cfg, p, f.end, eos, handed + [unit]);
      BeforeTwice(handed, [unit], SplitAll(cfg, Length, p[f.end..], eos));
      CutIsUnit(cfg, p, off, f.begin, f.end, eos);
    }
  }

  lemma CutIsUnit(cfg: Config, p: Bytes, off: nat, begin: nat, end: nat, eos: bool)
    requires ValidConfig(cfg) && off <= begin <= end <= |p|
    requires FieldAt(cfg, p, off) == Complete(begin, end)
    ensures SplitAll(cfg, Length, p[off..], eos) ==
            Before([UnitAt(p, begin, end, eos)], SplitAll(cfg, Length, p[end..], eos))
  {
    FieldIsCut(cfg, p, off);
    assert end > begin;
  }

  class Parser {
    const cfg: Config
    var format: Format
    var adapter: Bytes
    var parseErrors: nat
    var droppedNals: nat
    ghost var handed: seq<Nal>

    ghost predicate Valid()
      reads this
    {
      ValidConfig(cfg) && |adapter| <= cfg.maxBuffered
    }

    constructor (cfg: Config, format: Format)
      requires ValidConfig(cfg)
      ensures Valid() && this.cfg == cfg && this.format == format
      ensures adapter == [] && handed == [] && parseErrors == 0 && droppedNals == 0
    {
      this.cfg, this.format := cfg, format;
      adapter, handed, parseErrors, droppedNals := [], [], 0, 0;
    }

    /** Where `handle_nal` takes over. */
    method HandleNal(bytes: Bytes, eos: bool)
      modifies this`handed
      ensures handed == old(handed) + [Nal(bytes, eos)]
    {
      handed := handed + [Nal(bytes, eos)];
    }

    method HandleBetween(begin: nat, end: nat)
      requires begin <= end <= |adapter|
      modifies this`handed
      ensures handed == old(handed) + Between(adapter, begin, end)
    {
      if end > begin {
        HandleNal(adapter[begin..end], false);
      }
    }

    method ParseAnnexB(eos: bool) returns (off: nat)
      requires Valid()
      modifies this`handed
      ensures off <= |adapter|
      ensures handed == old(handed) + SplitAll(cfg, AnnexB, adapter, eos).nals
      ensures adapter[off..] == SplitAll(cfg, AnnexB, adapter, eos).rest
    {
      FirstUnit(cfg, adapter, eos);
      var code := StartCode(adapter, 0);
      if code.None? {
        return 0;
      }
      FoundIsOn(adapter, 0);
      WalkIsSplit(cfg, adapter, code.value.pos, code.value.size, eos, handed);
      AnnexBNeverFails(cfg, adapter, eos);
      off := HandleCodes(code.value, eos);
    }

    /** The loop over start codes. */
    method HandleCodes(code: Code, eos: bool) returns (off: nat)
      requires 0 < code.size && code.pos + code.size <= |adapter|
      modifies this`handed
      ensures Progress(handed, off) == WalkCodes(adapter, code.pos, code.size, eos, old(handed))
    {
      hide FirstCode;
      ghost var goal := WalkCodes(adapter, code.pos, code.size, eos, handed);
      off := code.pos;
      var codeLen := code.size;
      var next := StartCode(adapter, off + codeLen);
      while next.Some?
        invariant 0 < codeLen && off + codeLen <= |adapter| && next == FirstCode(adapter, off + codeLen)
        invariant WalkCodes(adapter, off, codeLen, eos, handed) == goal
        decreases |adapter| - off
      {
        HandleBetween(off + codeLen, next.value.pos);
        off := next.value.pos;
        codeLen := next.value.size;
        next := StartCode(adapter, off + codeLen);
      }
      if eos && |adapter| > off + codeLen {
        HandleNal(adapter[off + codeLen..], true);
        off := |adapter|;
      }
    }

    method ReadField(off: nat) returns (f: Field)
      requires Valid() && off + cfg.lengthSize <= |adapter|
      ensures f == FieldAt(cfg, adapter, off)
    {
      var begin := off + cfg.lengthSize;
      var n := 0;
      for i := 0 to cfg.lengthSize
        invariant n == BigEndian(adapter[off..off + i])
      {
        assert adapter[off..off + i + 1][..i] == adapter[off..off + i];
        n := n * 256 + adapter[off + i];
      }
      f := if n == 0 || n > cfg.maxNal then Refused
           else if n > |adapter| - begin then Incomplete
           else Complete(begin, begin + n);
    }

    /** The loop over length-prefixed units. */
    method HandleLengths(eos: bool) returns (ok: bool, off: nat)
      requires Valid()
      modifies this`handed
      ensures (ok, Progress(handed, off)) == WalkLengths(cfg, adapter, 0, eos, old(handed))
    {
      off := 0;
      while |adapter| - off >= cfg.lengthSize
        invariant off <= |adapter|
        invariant WalkLengths(cfg, adapter, off, eos, handed) == WalkLengths(cfg, adapter, 0, eos, old(handed))
        decreases |adapter| - off
      {
        var f := ReadField(off);
        match f {
          case Refused => return false, off;
          case Incomplete => return true, off;
          case Complete(begin, end) =>
            HandleNal(adapter[begin..end], eos && end == |adapter|);
            off := end;
        }
      }
      ok := true;
    }

    method ParseLength(eos: bool) returns (ok: bool, off: nat)
      requires Valid()
      modifies this`handed, this`parseErrors, this`droppedNals
      ensures off <= |adapter|
      ensures var p := SplitAll(cfg, Length, adapter, eos);
              && ok == p.ok && handed == old(handed) + p.nals
              && (ok ==> adapter[off..] == p.rest)
              && parseErrors == old(parseErrors) + (if p.dropped then 1 else 0)
              && droppedNals == old(droppedNals) + (if p.dropped && p.ok then 1 else 0)
    {
      LengthsAreSplit(cfg, adapter, 0, eos, handed);
      assert adapter[0..] == adapter;
      ok, off := HandleLengths(eos);
      if ok && eos && off != |adapter| {
        parseErrors := parseErrors + 1;
        if cfg.strict {
          return false, off;
        }
        droppedNals := droppedNals + 1;
        off := |adapter|;
      }
    }

    /** One pass over the adapter. */
    method ParseAdapter(eos: bool) returns (ok: bool)
      requires Valid()
      modifies this`handed, this`parseErrors, this`droppedNals, this`format, this`adapter
      ensures Valid() && format == Detect(old(format), old(adapter))
      ensures var p := Split(cfg, old(format), old(adapter), eos);
              && ok == p.ok && handed == old(handed) + p.nals
              && adapter == (if ok then p.rest else old(adapter))
              && parseErrors == old(parseErrors) + (if p.dropped then 1 else 0)
              && droppedNals == old(droppedNals) + (if p.dropped && p.ok then 1 else 0)
    {
      var off := 0;
      if format == Auto && |adapter| >= 4 {
        var code := StartCode(adapter, 0);
        format := if code.Some? && code.value.pos == 0 then AnnexB else Length;
      }
      ok := true;
      if format == AnnexB {
        off := ParseAnnexB(eos);
        AnnexBNeverFails(cfg, adapter, eos);
      } else if format == Length {
        ok, off := ParseLength(eos);
        if !ok {
          return;
        }
      }
      adapter := adapter[off..];
    }

    /** One buffer, with or without the end-of-stream flag. Bytes beyond the buffering limit are
        refused before anything else happens. */
    method Push(data: Bytes, eos: bool) returns (ok: bool)
      requires Valid()
      modifies this`handed, this`parseErrors, this`droppedNals, this`format, this`adapter
      ensures Valid()
      ensures if |old(adapter)| + |data| > cfg.maxBuffered then
                !ok && format == old(format) && adapter == old(adapter) && handed == old(handed)
              else
                var s := PushStep(cfg, State(true, old(format), old(adapter), old(handed)), data, eos);
                && ok == s.ok && format == s.format && handed == s.nals
                && adapter == (if ok then s.adapter else old(adapter) + data)
      ensures if |old(adapter)| + |data| > cfg.maxBuffered then
                parseErrors == old(parseErrors) && droppedNals == old(droppedNals)
              else
                var p := Split(cfg, old(format), old(adapter) + data, eos);
                && parseErrors == old(parseErrors) + (if p.dropped then 1 else 0) + (if ok then 0 else 1)
                && droppedNals == old(droppedNals) + (if p.dropped && p.ok then 1 else 0)
    {
      if |data| > cfg.maxBuffered - |adapter| {
        return false;
      }
      adapter := adapter + data;
      ok := ParseAdapter(eos);
      if !ok {
        parseErrors := parseErrors + 1;
      }
    }
  }
}
