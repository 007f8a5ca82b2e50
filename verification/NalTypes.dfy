/** What the NAL unit header decides: which number it holds, and how units are grouped and flagged,
    said on the bits of the first byte. */
module NalTypes {
  import opened Words
  import opened StartCodes
  import opened Grouping
  import opened AccessUnits

  /** An H.264 header byte: forbidden bit, two bits of reference, five of type (section 7.3.1 of
      ITU-T H.264). */
  function Header264(forbidden: bool, reference: nat, number: nat): (b: u8)
    requires reference < 4 && number < 32
  {
    (if forbidden then 128 else 0) + 32 * reference + number
  }

  /** The first byte of an H.265 header: forbidden bit, six bits of type, the high bit of the layer
      (section 7.3.1.2 of ITU-T H.265). */
  function Header265(forbidden: bool, number: nat, layerHigh: bool): (b: u8)
    requires number < 64
  {
    (if forbidden then 128 else 0) + 2 * number + (if layerHigh then 1 else 0)
  }

  /** The number written is the one read, whatever stands around it. */
  lemma TypeBack264(forbidden: bool, reference: nat, number: nat, rest: Bytes)
    requires reference < 4 && number < 32
    ensures Type(H264, [Header264(forbidden, reference, number)] + rest) == number
  {
    var q := (if forbidden then 4 else 0) + reference;
    assert Header264(forbidden, reference, number) == 32 * q + number;
  }

  lemma TypeBack265(forbidden: bool, number: nat, layerHigh: bool, rest: Bytes)
    requires number < 64
    ensures Type(H265, [Header265(forbidden, number, layerHigh)] + rest) == number
  {
  }

  // Slices, key frames and units that lead a picture, by the first byte.

  /** Types 1 to 5 of H.264; types up to 31 of H.265, whose top bit is clear. */
  predicate SliceByte(codec: Codec, b: u8) {
    if codec.H264? then b % 32 in {1, 2, 3, 4, 5} else b % 128 < 64
  }

  /** Type 5 of H.264; types 16 to 21 of H.265. */
  predicate KeyByte(codec: Codec, b: u8) {
    if codec.H264? then b % 32 == 5 else 32 <= b % 128 < 44
  }

  /** Types 6 to 9 and 14 to 18 of H.264. */
  predicate LeadByte(codec: Codec, b: u8) {
    codec.H264? && b % 32 in {6, 7, 8, 9, 14, 15, 16, 17, 18}
  }

  /** It belongs to the next picture if the one before it has a slice: a leading unit, or a slice
      with first macroblock 0 (H.264) or the flag of a picture's first segment (H.265). */
  predicate OpensNext(codec: Codec, nal: Bytes)
    requires nal != []
  {
    || LeadByte(codec, nal[0])
    || (SliceByte(codec, nal[0]) && if codec.H264? then FirstMb(nal) == Some(0) else |nal| > 2 && nal[2] / 128 == 1)
  }

  lemma SmallSets(t: nat)
    ensures t in {1, 2, 3, 4, 5} <==> 1 <= t <= 5
    ensures t in {6, 7, 8, 9, 14, 15, 16, 17, 18} <==> 6 <= t <= 9 || 14 <= t <= 18
  {
  }

  lemma Halves(b: u8)
    ensures b / 2 % 64 == b % 128 / 2
  {
  }

  lemma ItemByByte(codec: Codec, nal: Nal)
    requires nal.bytes != []
    ensures var item := ItemOf(codec, nal);
            item.vcl == SliceByte(codec, nal.bytes[0]) && item.opens == OpensNext(codec, nal.bytes)
    ensures Key(codec, nal.bytes) == KeyByte(codec, nal.bytes[0])
  {
    hide FirstMb;
    SmallSets(nal.bytes[0] % 32);
    Halves(nal.bytes[0]);
  }

  /** The NAL units of a group. */
  function NalsOf(group: seq<Item<Nal>>): (nals: seq<Nal>)
    ensures |nals| == |group|
  {
    seq(|group|, i requires 0 <= i < |group| => group[i].value)
  }

  predicate AnySlice(codec: Codec, nals: seq<Nal>)
    requires AllNonEmpty(nals)
  {
    exists i | 0 <= i < |nals| :: SliceByte(codec, nals[i].bytes[0])
  }

  /** A buffer's NAL units: the key flag tells whether one is a key frame's, and none that belongs
      to the next picture follows a slice. */
  predicate PictureOk(codec: Codec, nals: seq<Nal>, key: bool)
    requires AllNonEmpty(nals)
  {
    && (key <==> exists i | 0 <= i < |nals| :: KeyByte(codec, nals[i].bytes[0]))
    && forall i, j | 0 <= i < j < |nals| && SliceByte(codec, nals[i].bytes[0]) :: !OpensNext(codec, nals[j].bytes)
  }

  /** The items are those of their NAL units. */
  predicate Made(codec: Codec, group: seq<Item<Nal>>) {
    forall i | 0 <= i < |group| :: group[i].value.bytes != [] && group[i] == ItemOf(codec, group[i].value)
  }

  lemma {:induction false} GroupsAreMade(codec: Codec, groups: seq<seq<Item<Nal>>>, nals: seq<Nal>)
    requires AllNonEmpty(nals) && Flatten(groups) == Items(codec, nals)
    ensures forall k | 0 <= k < |groups| :: Made(codec, groups[k])
    decreases |groups|
  {
    if groups != [] {
      var rest, last := groups[..|groups| - 1], groups[|groups| - 1];
      var n := |nals| - |last|;
      assert groups == rest + [last];
      FlattenSnoc(rest, last);
      assert Flatten(rest) == Items(codec, nals)[..n] == Items(codec, nals[..n]);
      GroupsAreMade(codec, rest, nals[..n]);
      forall i | 0 <= i < |last|
        ensures last[i].value.bytes != [] && last[i] == ItemOf(codec, last[i].value)
      {
        assert last[i] == Items(codec, nals)[n + i] == ItemOf(codec, nals[n + i]);
      }
    }
  }

  lemma MadeIsOk(codec: Codec, group: seq<Item<Nal>>)
    requires Made(codec, group) && WellOrdered(group)
    ensures AllNonEmpty(NalsOf(group)) && PictureOk(codec, NalsOf(group), AnyKey(codec, group))
    ensures HasVcl(group) == AnySlice(codec, NalsOf(group))
  {
    hide Key, ItemOf;
    var nals := NalsOf(group);
    forall i | 0 <= i < |group|
      ensures nals[i].bytes != []
      ensures group[i].vcl == SliceByte(codec, nals[i].bytes[0]) && group[i].opens == OpensNext(codec, nals[i].bytes)
      ensures Key(codec, nals[i].bytes) == KeyByte(codec, nals[i].bytes[0])
    {
      ItemByByte(codec, nals[i]);
    }
    hide SliceByte, OpensNext, KeyByte;
  }

  /** Buffer `k`, by the first bytes of its NAL units. */
  lemma EachPicture(cfg: Config, nals: seq<Nal>, k: nat)
    requires cfg.aggregate && AllNonEmpty(nals) && Ended(Run(cfg, nals)).ok
    requires k < |Ended(Run(cfg, nals)).out|
    ensures k < |Groups(Items(cfg.codec, nals))|
    ensures var groups, unit := Groups(Items(cfg.codec, nals)), Ended(Run(cfg, nals)).out[k];
            var units := NalsOf(groups[k]);
            && units != [] && AllNonEmpty(units) && unit.bytes == Framed(groups[k])
            && PictureOk(cfg.codec, units, unit.key)
            && (k > 0 ==>
                  var before := NalsOf(groups[k - 1]);
                  AllNonEmpty(before) && AnySlice(cfg.codec, before) && OpensNext(cfg.codec, units[0].bytes))
  {
    EachBuffer(cfg, nals, k);
    var groups := Groups(Items(cfg.codec, nals));
    GroupsAreOk(Items(cfg.codec, nals));
    GroupsAreMade(cfg.codec, groups, nals);
    hide Groups, Run, Ended, PictureOk, OpensNext;
    assert GroupOk(groups, k) && Made(cfg.codec, groups[k]);
    MadeIsOk(cfg.codec, groups[k]);
    if k > 0 {
      assert GroupOk(groups, k - 1) && Made(cfg.codec, groups[k - 1]);
      MadeIsOk(cfg.codec, groups[k - 1]);
      ItemByByte(cfg.codec, groups[k][0].value);
    }
  }

  lemma {:induction false} AloneInOrder(cfg: Config, nals: seq<Nal>, k: nat)
    requires !cfg.aggregate && AllNonEmpty(nals) && k < |nals|
    ensures var s := Run(cfg, nals);
            && s.ok && s.au == [] && |s.out| == |nals|
            && s.out[k] == Unit(WithCode(nals[k].bytes), KeyByte(cfg.codec, nals[k].bytes[0]), nals[k].eos)
    decreases |nals|
  {
    var last := |nals| - 1;
    ItemByByte(cfg.codec, nals[last]);
    hide KeyByte, WithCode, Key;
    NoneCollected(cfg, nals[..last]);
    if k < last {
      AloneInOrder(cfg, nals[..last], k);
    }
  }

  lemma {:induction false} NoneCollected(cfg: Config, nals: seq<Nal>)
    requires !cfg.aggregate && AllNonEmpty(nals)
    ensures var s := Run(cfg, nals); s.ok && s.au == [] && !s.hasVcl && |s.out| == |nals|
    decreases |nals|
  {
    if nals != [] {
      NoneCollected(cfg, nals[..|nals| - 1]);
    }
  }

  /** Without aggregation every NAL unit goes out by itself behind a start code, flagged as a key
      frame by its first byte. */
  lemma EachAlone(cfg: Config, nals: seq<Nal>, k: nat)
    requires !cfg.aggregate && AllNonEmpty(nals) && k < |nals|
    ensures var s := Ended(Run(cfg, nals));
            && s.ok && |s.out| == |nals|
            && s.out[k] == Unit(WithCode(nals[k].bytes), KeyByte(cfg.codec, nals[k].bytes[0]), nals[k].eos)
  {
    hide KeyByte, WithCode;
    AloneInOrder(cfg, nals, k);
  }
}
