/** Aggregating NAL units into access units (section 7.4.1.2.3 of ITU-T H.264): where the parser
    starts a new unit, what a unit it puts out is, and why that grouping is the only one with its
    properties. */
module AccessUnits {
  import opened Words
  import opened StartCodes
  import opened EmulationPrevention
  import opened BitReader
  import opened Grouping
  import NalSplitter

  datatype Codec = H264 | H265

  datatype Config = Config(codec: Codec, aggregate: bool, maxAu: u32)

  type Nal = NalSplitter.Nal

  function Type(codec: Codec, nal: Bytes): nat
    requires nal != []
  {
    if codec.H264? then nal[0] % 32 else nal[0] / 2 % 64
  }

  predicate Vcl(codec: Codec, nal: Bytes)
    requires nal != []
  {
    if codec.H264? then 1 <= Type(codec, nal) <= 5 else Type(codec, nal) <= 31
  }

  predicate Key(codec: Codec, nal: Bytes)
    requires nal != []
  {
    if codec.H264? then Type(codec, nal) == 5 else 16 <= Type(codec, nal) <= 21
  }

  /** first_mb_in_slice of an H.264 slice whose header is readable as far as its PPS identifier. */
  function FirstMb(nal: Bytes): Option<nat> {
    if |nal| <= 1 then None
    else
      match ReadUe(BitsOf(Unescape(nal[1..], 0)))
      case Short => None
      case Got(firstMb, afterFirst) =>
        match ReadUe(afterFirst)
        case Short => None
        case Got(_, afterType) =>
          match ReadUe(afterType)
          case Short => None
          case Got(pps, _) => if pps < 256 then Some(firstMb) else None
  }

  /** A slice that is the first of its picture. */
  predicate FirstSlice(codec: Codec, nal: Bytes)
    requires nal != []
  {
    Vcl(codec, nal) && if codec.H264? then FirstMb(nal) == Some(0) else |nal| > 2 && nal[2] >= 0x80
  }

  /** A unit that can only come before the slices of its picture. */
  predicate Leads(codec: Codec, nal: Bytes)
    requires nal != []
  {
    codec.H264? && (6 <= Type(codec, nal) <= 9 || 14 <= Type(codec, nal) <= 18)
  }

  function ItemOf(codec: Codec, nal: Nal): Item<Nal>
    requires nal.bytes != []
  {
    Item(nal, Vcl(codec, nal.bytes), Leads(codec, nal.bytes) || FirstSlice(codec, nal.bytes))
  }

  predicate AllNonEmpty(nals: seq<Nal>) {
    forall i | 0 <= i < |nals| :: nals[i].bytes != []
  }

  function Items(codec: Codec, nals: seq<Nal>): (items: seq<Item<Nal>>)
    requires AllNonEmpty(nals)
    ensures |items| == |nals|
  {
    seq(|nals|, i requires 0 <= i < |nals| => ItemOf(codec, nals[i]))
  }

  /** A buffer put out: its bytes, and its key-frame and end-of-stream flags. */
  datatype Unit = Unit(bytes: Bytes, key: bool, eos: bool)

  function WithCode(nal: Bytes): Bytes {
    [0, 0, 0, 1] + nal
  }

  /** The aggregator between NAL units: the access unit being collected and what has gone out. */
  datatype State = State(ok: bool, au: Bytes, hasVcl: bool, key: bool, eos: bool, out: seq<Unit>)

  const Empty := State(true, [], false, false, false, [])

  function Flushed(s: State): State {
    if s.au == [] then s else State(s.ok, [], false, false, false, s.out + [Unit(s.au, s.key, s.eos)])
  }

  /** The collected unit goes out before a NAL unit that belongs to the next one. */
  function Parted(cfg: Config, s: State, nal: Bytes): State
    requires nal != []
  {
    var s1 := if cfg.aggregate && s.hasVcl && Leads(cfg.codec, nal) then Flushed(s) else s;
    if FirstSlice(cfg.codec, nal) && s1.hasVcl then Flushed(s1) else s1
  }

  /** The NAL unit goes into the collected unit, if that does not get too long. */
  function Taken(cfg: Config, s: State, nal: Nal): State
    requires nal.bytes != []
  {
    if |nal.bytes| + 4 > cfg.maxAu - |s.au| then s.(ok := false)
    else
      State(true, s.au + WithCode(nal.bytes), s.hasVcl || Vcl(cfg.codec, nal.bytes),
            s.key || Key(cfg.codec, nal.bytes), s.eos || nal.eos, s.out)
  }

  function HandleStep(cfg: Config, s: State, nal: Nal): State {
    if !s.ok || nal.bytes == [] then s
    else
      var ready := Parted(cfg, s, nal.bytes);
      if cfg.aggregate then Taken(cfg, ready, nal)
      else ready.(out := ready.out + [Unit(WithCode(nal.bytes), Key(cfg.codec, nal.bytes), nal.eos)])
  }

  function Run(cfg: Config, nals: seq<Nal>): State {
    if nals == [] then Empty else HandleStep(cfg, Run(cfg, nals[..|nals| - 1]), nals[|nals| - 1])
  }

  /** At the end of the stream the last unit is flagged and put out. */
  function Ended(s: State): State {
    if s.ok then Flushed(s.(eos := true)) else s
  }

  /** The NAL units of a group as one buffer. */
  function Framed(group: seq<Item<Nal>>): (bytes: Bytes)
    ensures bytes == [] <==> group == []
  {
    if group == [] then [] else Framed(group[..|group| - 1]) + WithCode(group[|group| - 1].value.bytes)
  }

  predicate AnyKey(codec: Codec, group: seq<Item<Nal>>) {
    exists i | 0 <= i < |group| :: group[i].value.bytes != [] && Key(codec, group[i].value.bytes)
  }

  predicate AnyEos(group: seq<Item<Nal>>) {
    exists i | 0 <= i < |group| :: group[i].value.eos
  }

  function UnitOf(codec: Codec, group: seq<Item<Nal>>): Unit {
    Unit(Framed(group), AnyKey(codec, group), AnyEos(group))
  }

  function UnitsOf(codec: Codec, groups: seq<seq<Item<Nal>>>): (units: seq<Unit>)
    ensures |units| == |groups|
  {
    seq(|groups|, k requires 0 <= k < |groups| => UnitOf(codec, groups[k]))
  }

  predicate AllFit(cfg: Config, groups: seq<seq<Item<Nal>>>) {
    forall k | 0 <= k < |groups| :: |Framed(groups[k])| <= cfg.maxAu
  }

  /** The state is what collecting the items says. */
  predicate Collects(cfg: Config, s: State, c: Collected<Nal>) {
    s == State(true, Framed(c.open), HasVcl(c.open), AnyKey(cfg.codec, c.open), AnyEos(c.open),
               UnitsOf(cfg.codec, c.done))
  }

  lemma AnySnoc(codec: Codec, group: seq<Item<Nal>>, item: Item<Nal>)
    requires item.value.bytes != []
    ensures AnyKey(codec, group + [item]) <==> AnyKey(codec, group) || Key(codec, item.value.bytes)
    ensures AnyEos(group + [item]) <==> AnyEos(group) || item.value.eos
    ensures Framed(group + [item]) == Framed(group) + WithCode(item.value.bytes)
  {
    var longer := group + [item];
    assert longer[..|group|] == group && longer[|group|] == item;
    assert forall i | 0 <= i < |group| :: longer[i] == group[i];
    if AnyKey(codec, group) {
      var i :| 0 <= i < |group| && group[i].value.bytes != [] && Key(codec, group[i].value.bytes);
      assert longer[i].value == group[i].value;
    }
    if AnyEos(group) {
      var i :| 0 <= i < |group| && group[i].value.eos;
      assert longer[i].value == group[i].value;
    }
  }

  lemma UnitsSnoc(codec: Codec, groups: seq<seq<Item<Nal>>>, group: seq<Item<Nal>>)
    ensures UnitsOf(codec, groups + [group]) == UnitsOf(codec, groups) + [UnitOf(codec, group)]
  {
  }

  lemma FlushCollects(cfg: Config, s: State, c: Collected<Nal>)
    requires Collects(cfg, s, c) && c.open != []
    ensures Collects(cfg, Flushed(s), Collected(c.done + [c.open], []))
  {
    UnitsSnoc(cfg.codec, c.done, c.open);
  }

  lemma TakenCollects(cfg: Config, s: State, c: Collected<Nal>, nal: Nal)
    requires Collects(cfg, s, c) && nal.bytes != []
    ensures var item, s' := ItemOf(cfg.codec, nal), Taken(cfg, s, nal);
            if |Framed(c.open + [item])| <= cfg.maxAu then Collects(cfg, s', Collected(c.done, c.open + [item]))
            else !s'.ok
  {
    AnySnoc(cfg.codec, c.open, ItemOf(cfg.codec, nal));
    HasVclSnoc(c.open, ItemOf(cfg.codec, nal));
  }

  lemma PartedIs(cfg: Config, s: State, nal: Bytes)
    requires cfg.aggregate && nal != []
    ensures Parted(cfg, s, nal) ==
            if s.hasVcl && (Leads(cfg.codec, nal) || FirstSlice(cfg.codec, nal)) then Flushed(s) else s
  {
  }

  lemma StepCollects(cfg: Config, s: State, c: Collected<Nal>, nal: Nal)
    requires cfg.aggregate && nal.bytes != [] && Collects(cfg, s, c)
    ensures var s', c' := HandleStep(cfg, s, nal), Add(c, ItemOf(cfg.codec, nal));
            if |Framed(c'.open)| <= cfg.maxAu then Collects(cfg, s', c') else !s'.ok
  {
    var item := ItemOf(cfg.codec, nal);
    PartedIs(cfg, s, nal.bytes);
    if HasVcl(c.open) && item.opens {
      FlushCollects(cfg, s, c);
      TakenCollects(cfg, Flushed(s), Collected(c.done + [c.open], []), nal);
      assert [] + [item] == [item];
    } else {
      TakenCollects(cfg, s, c, nal);
    }
  }

  lemma ItemsSnoc(codec: Codec, nals: seq<Nal>)
    requires AllNonEmpty(nals) && nals != []
    ensures var before, nal := nals[..|nals| - 1], nals[|nals| - 1];
            && AllNonEmpty(before) && nal.bytes != []
            && AddAll(Items(codec, nals)) == Add(AddAll(Items(codec, before)), ItemOf(codec, nal))
  {
    var items := Items(codec, nals);
    assert items[..|items| - 1] == Items(codec, nals[..|nals| - 1]);
  }

  /** A group that is still growing only gets longer. */
  lemma FitsSoFar(cfg: Config, c: Collected<Nal>, item: Item<Nal>)
    requires AllFit(cfg, Closed(Add(c, item))) && item.value.bytes != []
    ensures AllFit(cfg, Closed(c)) && |Framed(Add(c, item).open)| <= cfg.maxAu
  {
    var after := Closed(Add(c, item));
    assert after == Add(c, item).done + [Add(c, item).open];
    AnySnoc(cfg.codec, c.open, item);
    forall k | 0 <= k < |Closed(c)|
      ensures |Framed(Closed(c)[k])| <= cfg.maxAu
    {
      assert |Framed(after[k])| <= cfg.maxAu;
    }
    assert |Framed(after[|after| - 1])| <= cfg.maxAu;
  }

  lemma FitsOnward(cfg: Config, c: Collected<Nal>, item: Item<Nal>)
    requires AllFit(cfg, Closed(c)) && |Framed(Add(c, item).open)| <= cfg.maxAu
    ensures AllFit(cfg, Closed(Add(c, item)))
  {
    var after := Closed(Add(c, item));
    forall k | 0 <= k < |after|
      ensures |Framed(after[k])| <= cfg.maxAu
    {
      if k < |after| - 1 {
        assert after[k] == Closed(c)[k];
      }
    }
  }

  /** The run meets no limit exactly when every group fits, and then it has collected them. */
  lemma {:induction false} RunCollects(cfg: Config, nals: seq<Nal>)
    requires cfg.aggregate && AllNonEmpty(nals)
    ensures Run(cfg, nals).ok <==> AllFit(cfg, Groups(Items(cfg.codec, nals)))
    ensures Run(cfg, nals).ok ==> Collects(cfg, Run(cfg, nals), AddAll(Items(cfg.codec, nals)))
  {
    if nals != [] {
      var before, nal := nals[..|nals| - 1], nals[|nals| - 1];
      ItemsSnoc(cfg.codec, nals);
      RunCollects(cfg, before);
      var c, item := AddAll(Items(cfg.codec, before)), ItemOf(cfg.codec, nal);
      if AllFit(cfg, Groups(Items(cfg.codec, nals))) {
        FitsSoFar(cfg, c, item);
      }
      if Run(cfg, before).ok {
        StepCollects(cfg, Run(cfg, before), c, nal);
        if |Framed(Add(c, item).open)| <= cfg.maxAu {
          FitsOnward(cfg, c, item);
        }
      }
    }
  }

  /** The last buffer is flagged as the end of the stream, if the NAL units did not do so. */
  function LastFlagged(units: seq<Unit>): seq<Unit> {
    if units == [] then [] else units[|units| - 1 := units[|units| - 1].(eos := true)]
  }

  /** Short of the size limit, the buffers put out are the groups of the NAL units, in order. */
  lemma BuffersAreGroups(cfg: Config, nals: seq<Nal>)
    requires cfg.aggregate && AllNonEmpty(nals)
    ensures var items, s := Items(cfg.codec, nals), Ended(Run(cfg, nals));
            && (s.ok <==> AllFit(cfg, Groups(items)))
            && (s.ok ==> s.out == LastFlagged(UnitsOf(cfg.codec, Groups(items))))
  {
    RunCollects(cfg, nals);
    var c := AddAll(Items(cfg.codec, nals));
    UnitsSnoc(cfg.codec, c.done, c.open);
    AddAllOk(Items(cfg.codec, nals));
  }

  /** Any way of grouping the NAL units in which no group goes on past a unit that opens the next,
      and each opening unit that starts a group comes after a slice, is the one put out. */
  lemma BuffersAreUnique(cfg: Config, nals: seq<Nal>, groups: seq<seq<Item<Nal>>>)
    requires cfg.aggregate && AllNonEmpty(nals) && AllFit(cfg, groups)
    requires AllOk(groups) && Flatten(groups) == Items(cfg.codec, nals)
    ensures Ended(Run(cfg, nals)).ok && Ended(Run(cfg, nals)).out == LastFlagged(UnitsOf(cfg.codec, groups))
  {
    GroupsAreUnique(Items(cfg.codec, nals), groups);
    BuffersAreGroups(cfg, nals);
  }

  /** What each buffer holds: its NAL units with start codes, none of which leads, or is the first
      slice of a picture, after a slice; and a key frame is flagged exactly when it holds one. */
  lemma EachBuffer(cfg: Config, nals: seq<Nal>, k: nat)
    requires cfg.aggregate && AllNonEmpty(nals) && Ended(Run(cfg, nals)).ok
    requires k < |Ended(Run(cfg, nals)).out|
    ensures k < |Groups(Items(cfg.codec, nals))|
    ensures var group, unit := Groups(Items(cfg.codec, nals))[k], Ended(Run(cfg, nals)).out[k];
            && group != [] && unit.bytes == Framed(group) && |unit.bytes| <= cfg.maxAu
            && unit.key == AnyKey(cfg.codec, group)
            && (unit.eos <==> AnyEos(group) || k == |Ended(Run(cfg, nals)).out| - 1)
            && forall i, j | 0 <= i < j < |group| && group[i].vcl :: !group[j].opens
  {
    BuffersAreGroups(cfg, nals);
    GroupsAreOk(Items(cfg.codec, nals));
    assert GroupOk(Groups(Items(cfg.codec, nals)), k);
  }

  function Concatenated(units: seq<Unit>): Bytes {
    if units == [] then [] else Concatenated(units[..|units| - 1]) + units[|units| - 1].bytes
  }

  lemma ConcatenatedSnoc(units: seq<Unit>, unit: Unit)
    ensures Concatenated(units + [unit]) == Concatenated(units) + unit.bytes
  {
    assert (units + [unit])[..|units|] == units;
  }

  /** Everything put out or still held. */
  function Produced(s: State): Bytes {
    Concatenated(s.out) + s.au
  }

  lemma FlushProduces(s: State)
    ensures Produced(Flushed(s)) == Produced(s) && Flushed(s).ok == s.ok
    ensures Flushed(s).au == []
  {
    hide Concatenated;
    ConcatenatedSnoc(s.out, Unit(s.au, s.key, s.eos));
  }

  lemma PartedProduces(cfg: Config, s: State, nal: Bytes)
    requires nal != []
    ensures Produced(Parted(cfg, s, nal)) == Produced(s) && Parted(cfg, s, nal).ok == s.ok
    ensures s.au == [] ==> Parted(cfg, s, nal).au == []
  {
    hide Produced, Flushed, Leads, FirstSlice;
    FlushProduces(s);
    FlushProduces(if cfg.aggregate && s.hasVcl && Leads(cfg.codec, nal) then Flushed(s) else s);
  }

  lemma StepProduces(cfg: Config, s: State, nal: Nal)
    requires s.ok && nal.bytes != [] && HandleStep(cfg, s, nal).ok
    requires !cfg.aggregate ==> s.au == []
    ensures Produced(HandleStep(cfg, s, nal)) == Produced(s) + WithCode(nal.bytes)
    ensures !cfg.aggregate ==> HandleStep(cfg, s, nal).au == []
  {
    PartedProduces(cfg, s, nal.bytes);
    var ready := Parted(cfg, s, nal.bytes);
    if cfg.aggregate {
      assert Concatenated(ready.out) + (ready.au + WithCode(nal.bytes)) == Produced(ready) + WithCode(nal.bytes);
    } else {
      ConcatenatedSnoc(ready.out, Unit(WithCode(nal.bytes), Key(cfg.codec, nal.bytes), nal.eos));
      assert Produced(ready) == Concatenated(ready.out);
    }
  }

  /** The NAL units in order, each with a four-byte start code. */
  function ByteStream(nals: seq<Nal>): Bytes {
    if nals == [] then [] else ByteStream(nals[..|nals| - 1]) + WithCode(nals[|nals| - 1].bytes)
  }

  lemma {:induction false} RunProduces(cfg: Config, nals: seq<Nal>)
    requires AllNonEmpty(nals) && Run(cfg, nals).ok
    ensures Produced(Run(cfg, nals)) == ByteStream(nals)
    ensures !cfg.aggregate ==> Run(cfg, nals).au == []
  {
    if nals == [] {
      assert Concatenated([]) + [] == [];
    } else {
      RunProduces(cfg, nals[..|nals| - 1]);
      StepProduces(cfg, Run(cfg, nals[..|nals| - 1]), nals[|nals| - 1]);
    }
  }

  /** Aggregating or not, the buffers one after the other are the NAL units in order, each behind a
      four-byte start code: none lost, repeated, moved or changed. */
  lemma OutputIsByteStream(cfg: Config, nals: seq<Nal>)
    requires AllNonEmpty(nals) && Ended(Run(cfg, nals)).ok
    ensures Concatenated(Ended(Run(cfg, nals)).out) == ByteStream(nals)
  {
    RunProduces(cfg, nals);
    FlushProduces(Run(cfg, nals).(eos := true));
  }

  /** Without aggregation nothing is ever refused. */
  lemma {:induction false} NoLimitUnaggregated(cfg: Config, nals: seq<Nal>)
    requires !cfg.aggregate
    ensures Run(cfg, nals).ok && Run(cfg, nals).au == []
  {
    if nals != [] {
      NoLimitUnaggregated(cfg, nals[..|nals| - 1]);
      if nals[|nals| - 1].bytes != [] {
        PartedProduces(cfg, Run(cfg, nals[..|nals| - 1]), nals[|nals| - 1].bytes);
      }
    }
  }

  /** A slice header written with its three Exp-Golomb fields gives back its first macroblock, so
      that the slice is the first of its picture exactly when that is number 0, unless its PPS
      identifier is over 255: then it is not recognised. */
  lemma SliceHeaderBack(header: u8, rbsp: Bytes, firstMb: nat, sliceType: nat, pps: nat, rest: Bits)
    requires rbsp != [] && BitsOf(rbsp) == UeCode(firstMb) + (UeCode(sliceType) + (UeCode(pps) + rest))
    requires firstMb <= 0x7fff_fffe && sliceType <= 0x7fff_fffe && pps <= 0x7fff_fffe
    ensures FirstMb(Written(header, rbsp)) == if pps <= 255 then Some(firstMb) else None
  {
    var nal := Written(header, rbsp);
    assert nal[1..] == Escape(rbsp, 0);
    EscapedEndsAlike(rbsp, 0);
    UnescapeEscape(rbsp, 0);
    hide UeCode, ReadUe, BitsOf, Escape, Unescape;
    UeBack(firstMb, UeCode(sliceType) + (UeCode(pps) + rest));
    UeBack(sliceType, UeCode(pps) + rest);
    UeBack(pps, rest);
  }
}
