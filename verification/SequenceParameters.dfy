/** The H.264 sequence parameter set (section 7.3.2.1.1 of ITU-T H.264): what the parser reads of
    it is what a writer put in. */
module SequenceParameters {
  import opened Words
  import opened StartCodes
  import opened EmulationPrevention
  import opened BitReader

  /** The fields up to the picture size that later reading depends on. */
  datatype Head = Head(profile: nat, level: nat, id: nat, chroma: nat)
  datatype Size = Size(widthMbs: nat, heightMap: nat, frameMbs: nat)
  datatype Crop = Crop(left: nat, right: nat, top: nat, bottom: nat)

  /** What is kept of a parameter set. */
  datatype Sps = Sps(id: nat, profile: nat, level: nat, codedWidth: nat, codedHeight: nat, width: nat, height: nat)

  const HIGH_PROFILES: set<nat> := {100, 110, 122, 244, 44, 83, 86, 118, 128, 138, 139, 134}

  function OneBitIf(b: Bits, present: bool): Reading<nat> {
    if present then ReadBits(b, 1) else Got(0, b)
  }

  /** `count` flags, all of which have to be off. */
  function FlagsOff(b: Bits, count: nat): Reading<nat> {
    if count == 0 then Got(0, b)
    else
      var (flag, b1) :- ReadBits(b, 1);
      if flag != 0 then Short else FlagsOff(b1, count - 1)
  }

  /** The fields that only the high profiles have; the value is chroma_format_idc. */
  function ParseHigh(b: Bits): Reading<nat> {
    var (chroma, b1) :- ReadUe(b);
    var (_, b2) :- OneBitIf(b1, chroma == 3);
    var (_, b3) :- ReadUe(b2);
    var (_, b4) :- ReadUe(b3);
    var (_, b5) :- ReadBits(b4, 1);
    var (scaling, b6) :- ReadBits(b5, 1);
    var (_, b7) :- FlagsOff(b6, if scaling == 0 then 0 else if chroma == 3 then 12 else 8);
    Got(chroma, b7)
  }

  function ParseHead(b: Bits): Reading<Head> {
    var (profile, b1) :- ReadBits(b, 8);
    var (_, b2) :- ReadBits(b1, 8);
    var (level, b3) :- ReadBits(b2, 8);
    var (id, b4) :- ReadUe(b3);
    var (chroma, b5) :- (if profile in HIGH_PROFILES then ParseHigh(b4) else Got(1, b4));
    Got(Head(profile, level, id, chroma), b5)
  }

  function ParseSize(b: Bits): Reading<Size> {
    var (_, b1) :- ReadUe(b);
    var (_, b2) :- ReadUe(b1);
    var (_, b3) :- ReadUe(b2);
    var (_, b4) :- ReadUe(b3);
    var (_, b5) :- ReadBits(b4, 1);
    var (width, b6) :- ReadUe(b5);
    var (height, b7) :- ReadUe(b6);
    var (frameMbs, b8) :- ReadBits(b7, 1);
    var (_, b9) :- OneBitIf(b8, frameMbs == 0);
    var (_, b10) :- ReadBits(b9, 1);
    Got(Size(width, height, frameMbs), b10)
  }

  function ParseCrop(b: Bits): Reading<Crop> {
    var (crop, b1) :- ReadBits(b, 1);
    if crop == 0 then Got(Crop(0, 0, 0, 0), b1)
    else
      var (left, b2) :- ReadUe(b1);
      var (right, b3) :- ReadUe(b2);
      var (top, b4) :- ReadUe(b3);
      var (bottom, b5) :- ReadUe(b4);
      Got(Crop(left, right, top, bottom), b5)
  }

  function W32(n: int): u32 {
    n % 0x1_0000_0000
  }

  /** `k * n` for the factors one and two. */
  function Times(k: nat, n: int): (r: int)
    ensures r == k * n
  {
    if k == 1 then n else if k == 2 then n + n else k * n
  }

  /** The picture size in 32-bit arithmetic, refused when the cropping leaves nothing. */
  function Picture(h: Head, s: Size, c: Crop): Option<Sps> {
    var codedWidth := W32((s.widthMbs + 1) * 16);
    var fields := W32(2 - s.frameMbs);
    var codedHeight := W32(Times(fields, (s.heightMap + 1) * 16));
    var subWidth := if h.chroma == 3 then 1 else 2;
    var subHeight := if h.chroma == 1 then 2 else 1;
    var cropX := W32(Times(subWidth, c.left + c.right));
    var cropY := W32(Times(fields, Times(subHeight, c.top + c.bottom)));
    if cropX >= codedWidth || cropY >= codedHeight then None
    else Some(Sps(h.id, h.profile, h.level, codedWidth, codedHeight, codedWidth - cropX, codedHeight - cropY))
  }

  function ParseBits(b: Bits): Option<Sps> {
    match ParseHead(b)
    case Short => None
    case Got(head, b1) =>
      match ParseSize(b1)
      case Short => None
      case Got(size, b2) =>
        match ParseCrop(b2)
        case Short => None
        case Got(crop, _) => Picture(head, size, crop)
  }

  function ParseSps(nal: Bytes): Option<Sps> {
    if |nal| <= 1 then None else ParseBits(BitsOf(Unescape(nal[1..], 0)))
  }

  /** How picture order is counted: types 0, 1 and 2 with what each sends, the signed offsets of
      type 1 by the numbers that code them. */
  datatype OrderCount =
    | Lsb(bits: nat)
    | Cycle(deltasZero: bool, nonRef: nat, topBottom: nat, offsets: seq<nat>)
    | OutputOrder

  /** Scaling lists: none sent, all of them absent, or the first `before` absent and the next sent. */
  datatype Scaling = Unsent | AllAbsent | Lists(before: nat)

  /** Everything a writer chooses. */
  datatype Fields = Fields(
    profile: u8, constraints: u8, level: u8, id: nat,
    chroma: nat, separatePlanes: bool, lumaDepth: nat, chromaDepth: nat, bypass: bool, scaling: Scaling,
    frameNumBits: nat, order: OrderCount, refFrames: nat, gaps: bool,
    widthMbs: nat, heightMap: nat, frameMbs: bool, adaptive: bool, direct8x8: bool,
    crop: Option<Crop>)

  /** The profiles that send chroma_format_idc and what follows it up to the scaling lists, one by
      one as section 7.3.2.1.1 names them. */
  predicate HasChroma(profile: nat) {
    || profile == 100 || profile == 110 || profile == 122 || profile == 244 || profile == 44 || profile == 83
    || profile == 86 || profile == 118 || profile == 128 || profile == 138 || profile == 139 || profile == 134
  }

  function Absent(n: nat): (flags: Bits)
    ensures |flags| == n
  {
    seq(n, _ => false)
  }

  function ListCount(f: Fields): nat {
    if f.chroma == 3 then 12 else 8
  }

  function WriteScaling(f: Fields, rest: Bits): Bits {
    match f.scaling
    case Unsent => [false] + rest
    case AllAbsent => [true] + (Absent(ListCount(f)) + rest)
    case Lists(before) => [true] + (Absent(before) + ([true] + rest))
  }

  function WriteHigh(f: Fields, rest: Bits): Bits {
    UeCode(f.chroma) + ((if f.chroma == 3 then [f.separatePlanes] else []) +
    (UeCode(f.lumaDepth) + (UeCode(f.chromaDepth) + ([f.bypass] + WriteScaling(f, rest)))))
  }

  function WriteHead(f: Fields, rest: Bits): Bits {
    Fixed(f.profile, 8) + (Fixed(f.constraints, 8) + (Fixed(f.level, 8) + (UeCode(f.id) +
    (if HasChroma(f.profile) then WriteHigh(f, rest) else rest))))
  }

  function WriteUes(values: seq<nat>, rest: Bits): Bits {
    if values == [] then rest else UeCode(values[0]) + WriteUes(values[1..], rest)
  }

  function WriteOrder(o: OrderCount, rest: Bits): Bits {
    match o
    case Lsb(bits) => UeCode(0) + (UeCode(bits) + rest)
    case Cycle(deltasZero, nonRef, topBottom, offsets) =>
      UeCode(1) + ([deltasZero] + WriteUes([nonRef, topBottom, |offsets|] + offsets, rest))
    case OutputOrder => UeCode(2) + rest
  }

  function WriteSize(f: Fields, rest: Bits): Bits {
    UeCode(f.frameNumBits) + WriteOrder(f.order, UeCode(f.refFrames) + ([f.gaps] +
    (UeCode(f.widthMbs) + (UeCode(f.heightMap) + ([f.frameMbs] +
    ((if f.frameMbs then [] else [f.adaptive]) + ([f.direct8x8] + rest)))))))
  }

  function WriteCrop(f: Fields, rest: Bits): Bits {
    match f.crop
    case None => [false] + rest
    case Some(c) => [true] + (UeCode(c.left) + (UeCode(c.right) + (UeCode(c.top) + (UeCode(c.bottom) + rest))))
  }

  /** The parameter set, followed by whatever comes after the cropping. */
  function WriteSps(f: Fields, rest: Bits): Bits {
    WriteHead(f, WriteSize(f, WriteCrop(f, rest)))
  }

  /** `n` fits an Exp-Golomb codeword that the parser accepts. */
  predicate Codable(n: nat) {
    n <= 0x7fff_fffe
  }

  function CropOf(f: Fields): Crop {
    if f.crop.Some? then f.crop.value else Crop(0, 0, 0, 0)
  }

  /** chroma_format_idc as it applies: 4:2:0 where the profile does not say. */
  function ChromaOf(f: Fields): nat {
    if HasChroma(f.profile) then f.chroma else 1
  }

  /** Horizontal and vertical cropping unit in luma samples of a frame, section 7.4.2.1.1: one for
      monochrome, otherwise SubWidthC and SubHeightC of table 6-1. */
  function SubWidth(chroma: nat): nat {
    if chroma == 0 || chroma == 3 then 1 else 2
  }

  function SubHeight(chroma: nat): nat {
    if chroma == 1 then 2 else 1
  }

  function FieldHeight(f: Fields): nat {
    if f.frameMbs then 1 else 2
  }

  /** Luma size before and after cropping, section 7.4.2.1.1. */
  function CodedWidth(f: Fields): nat {
    16 * (f.widthMbs + 1)
  }

  function CodedHeight(f: Fields): nat {
    Times(FieldHeight(f), 16 * (f.heightMap + 1))
  }

  function CroppedWidth(f: Fields): int {
    CodedWidth(f) - Times(SubWidth(ChromaOf(f)), CropOf(f).left + CropOf(f).right)
  }

  function CroppedHeight(f: Fields): int {
    CodedHeight(f) - Times(FieldHeight(f), Times(SubHeight(ChromaOf(f)), CropOf(f).top + CropOf(f).bottom))
  }

  predicate ValidOrder(o: OrderCount) {
    match o
    case Lsb(bits) => Codable(bits)
    case Cycle(_, nonRef, topBottom, offsets) =>
      |offsets| <= 255 && forall n | n in [nonRef, topBottom] + offsets :: n < 0xffff_ffff
    case OutputOrder => true
  }

  predicate ValidFields(f: Fields) {
    && Codable(f.id) && Codable(f.lumaDepth) && Codable(f.chromaDepth)
    && (HasChroma(f.profile) ==> f.chroma <= 3 && (f.scaling.Lists? ==> f.scaling.before < ListCount(f)))
    && Codable(f.frameNumBits) && ValidOrder(f.order) && Codable(f.refFrames)
    && Codable(f.widthMbs) && Codable(f.heightMap)
    && Codable(CropOf(f).left) && Codable(CropOf(f).right) && Codable(CropOf(f).top) && Codable(CropOf(f).bottom)
    && CodedWidth(f) < U32 && CodedHeight(f) < U32 && CroppedWidth(f) > 0 && CroppedHeight(f) > 0
  }

  lemma FlagBack(b: bool, rest: Bits)
    ensures ReadBits([b] + rest, 1) == Got(Bit(b), rest)
  {
    OneBit([b] + rest);
  }

  lemma OptionalBack(b: bool, present: bool, rest: Bits)
    ensures OneBitIf((if present then [b] else []) + rest, present) == Got(if present then Bit(b) else 0, rest)
  {
    FlagBack(b, rest);
    assert [] + rest == rest;
  }

  lemma {:induction false} AbsentBack(n: nat, rest: Bits)
    ensures FlagsOff(Absent(n) + rest, n) == Got(0, rest)
  {
    if n == 0 {
      assert [] + rest == rest;
    } else {
      assert Absent(n) + rest == [false] + (Absent(n - 1) + rest);
      FlagBack(false, Absent(n - 1) + rest);
      AbsentBack(n - 1, rest);
    }
  }

  lemma {:induction false} PresentRefused(before: nat, rest: Bits, n: nat)
    requires before < n
    ensures FlagsOff(Absent(before) + ([true] + rest), n) == Short
  {
    if before == 0 {
      assert [] + ([true] + rest) == [true] + rest;
      FlagBack(true, rest);
    } else {
      assert Absent(before) + ([true] + rest) == [false] + (Absent(before - 1) + ([true] + rest));
      FlagBack(false, Absent(before - 1) + ([true] + rest));
      PresentRefused(before - 1, rest, n - 1);
    }
  }

  /** The scaling flag and the flags of the lists, as read. */
  lemma ScalingBack(f: Fields, rest: Bits)
    requires f.scaling.Lists? ==> f.scaling.before < ListCount(f)
    ensures var flag := ReadBits(WriteScaling(f, rest), 1);
            && flag.Got? && flag.value == (if f.scaling.Unsent? then 0 else 1)
            && FlagsOff(flag.rest, if flag.value == 0 then 0 else ListCount(f)) ==
               if f.scaling.Lists? then Short else Got(0, rest)
  {
    hide ReadBits;
    match f.scaling {
      case Unsent => FlagBack(false, rest);
      case AllAbsent =>
        FlagBack(true, Absent(ListCount(f)) + rest);
        AbsentBack(ListCount(f), rest);
      case Lists(before) =>
        FlagBack(true, Absent(before) + ([true] + rest));
        PresentRefused(before, rest, ListCount(f));
    }
  }

  /** The fields of the high profiles read back, unless a scaling list is sent. */
  lemma HighBack(f: Fields, rest: Bits)
    requires f.chroma <= 3 && Codable(f.lumaDepth) && Codable(f.chromaDepth)
    requires f.scaling.Lists? ==> f.scaling.before < ListCount(f)
    ensures ParseHigh(WriteHigh(f, rest)) == if f.scaling.Lists? then Short else Got(f.chroma, rest)
  {
    hide UeCode, ReadUe, ReadBits, WriteScaling, FlagsOff;
    var b5 := WriteScaling(f, rest);
    var b4 := [f.bypass] + b5;
    var b3 := UeCode(f.chromaDepth) + b4;
    var b2 := UeCode(f.lumaDepth) + b3;
    var b1 := (if f.chroma == 3 then [f.separatePlanes] else []) + b2;
    UeBack(f.chroma, b1);
    OptionalBack(f.separatePlanes, f.chroma == 3, b2);
    UeBack(f.lumaDepth, b3);
    UeBack(f.chromaDepth, b4);
    FlagBack(f.bypass, b5);
    ScalingBack(f, rest);
  }

  /** The source reads past the flags of scaling lists, but not past the lists themselves. */
  predicate SendsLists(f: Fields) {
    HasChroma(f.profile) && f.scaling.Lists?
  }

  /** The chroma fields are looked for in exactly the profiles that send them. */
  lemma HeadBack(f: Fields, rest: Bits)
    requires ValidFields(f)
    ensures ParseHead(WriteHead(f, rest)) ==
            if SendsLists(f) then Short else Got(Head(f.profile, f.level, f.id, ChromaOf(f)), rest)
  {
    hide UeCode, Fixed, ReadUe, ReadBits, ParseHigh, WriteHigh;
    var b4 := if HasChroma(f.profile) then WriteHigh(f, rest) else rest;
    var b3 := UeCode(f.id) + b4;
    var b2 := Fixed(f.level, 8) + b3;
    var b1 := Fixed(f.constraints, 8) + b2;
    FixedBack(f.profile, 8, b1);
    FixedBack(f.constraints, 8, b2);
    FixedBack(f.level, 8, b3);
    UeBack(f.id, b4);
    if HasChroma(f.profile) {
      HighBack(f, rest);
    }
  }

  lemma SizeBack(f: Fields, rest: Bits)
    requires ValidFields(f) && f.order.Lsb?
    ensures ParseSize(WriteSize(f, rest)) == Got(Size(f.widthMbs, f.heightMap, Bit(f.frameMbs)), rest)
  {
    var b9 := [f.direct8x8] + rest;
    var b8 := (if f.frameMbs then [] else [f.adaptive]) + b9;
    var b7 := [f.frameMbs] + b8;
    var b6 := UeCode(f.heightMap) + b7;
    var b5 := UeCode(f.widthMbs) + b6;
    var b4 := [f.gaps] + b5;
    var b3 := UeCode(f.refFrames) + b4;
    var b2 := UeCode(f.order.bits) + b3;
    var b1 := UeCode(0) + b2;
    UeBack(f.frameNumBits, b1);
    UeBack(0, b2);
    UeBack(f.order.bits, b3);
    UeBack(f.refFrames, b4);
    FlagBack(f.gaps, b5);
    UeBack(f.widthMbs, b6);
    UeBack(f.heightMap, b7);
    FlagBack(f.frameMbs, b8);
    OptionalBack(f.adaptive, !f.frameMbs, b9);
    assert b8 == (if !f.frameMbs then [f.adaptive] else []) + b9;
    FlagBack(f.direct8x8, rest);
  }

  lemma CropBack(f: Fields, rest: Bits)
    requires ValidFields(f)
    ensures ParseCrop(WriteCrop(f, rest)) == Got(CropOf(f), rest)
  {
    match f.crop {
      case None => FlagBack(false, rest);
      case Some(c) =>
        var b4 := UeCode(c.bottom) + rest;
        var b3 := UeCode(c.top) + b4;
        var b2 := UeCode(c.right) + b3;
        var b1 := UeCode(c.left) + b2;
        FlagBack(true, b1);
        UeBack(c.left, b2);
        UeBack(c.right, b3);
        UeBack(c.top, b4);
        UeBack(c.bottom, rest);
    }
  }

  function Expected(f: Fields): Sps
    requires ValidFields(f)
  {
    Sps(f.id, f.profile, f.level, CodedWidth(f), CodedHeight(f), CroppedWidth(f), CroppedHeight(f))
  }

  lemma SmallIsExact(n: nat)
    requires n < U32
    ensures W32(n) == n
  {
  }

  /** The source crops a monochrome picture by two luma samples a unit where it should be one. */
  predicate CropsTwice(f: Fields) {
    ChromaOf(f) == 0 && CropOf(f).left + CropOf(f).right != 0
  }

  function PictureOf(f: Fields): Option<Sps> {
    Picture(Head(f.profile, f.level, f.id, ChromaOf(f)), Size(f.widthMbs, f.heightMap, Bit(f.frameMbs)), CropOf(f))
  }

  /** Nothing in the sizes before cropping wraps. */
  lemma CodedIsExact(f: Fields)
    requires ValidFields(f)
    ensures W32((f.widthMbs + 1) * 16) == CodedWidth(f)
    ensures W32(2 - Bit(f.frameMbs)) == FieldHeight(f)
    ensures W32(Times(FieldHeight(f), (f.heightMap + 1) * 16)) == CodedHeight(f)
  {
    SmallIsExact(CodedWidth(f));
    SmallIsExact(FieldHeight(f));
    SmallIsExact(CodedHeight(f));
  }

  /** Nor does the cropping, unless it is doubled. */
  lemma CropIsExact(f: Fields)
    requires ValidFields(f)
    ensures var c, chroma := CropOf(f), ChromaOf(f);
            var unitX, unitY := if chroma == 3 then 1 else 2, if chroma == 1 then 2 else 1;
            && (W32(Times(unitX, c.left + c.right)) == CodedWidth(f) - CroppedWidth(f) <==> !CropsTwice(f))
            && W32(Times(FieldHeight(f), Times(unitY, c.top + c.bottom))) == CodedHeight(f) - CroppedHeight(f)
  {
    var c := CropOf(f);
    SmallIsExact(Times(SubWidth(ChromaOf(f)), c.left + c.right));
    SmallIsExact(Times(FieldHeight(f), Times(SubHeight(ChromaOf(f)), c.top + c.bottom)));
    NotDoubled(c.left + c.right);
  }

  lemma NotDoubled(n: nat)
    requires n < U32
    ensures W32(Times(2, n)) == n <==> n == 0
  {
  }

  /** In range, the size comes out right exactly unless the cropping is doubled: nothing else in
      the 32-bit arithmetic wraps. */
  lemma PictureIsExact(f: Fields)
    requires ValidFields(f)
    ensures PictureOf(f) == Some(Expected(f)) <==> !CropsTwice(f)
  {
    hide W32, Times, CropsTwice, CropOf, ChromaOf, HIGH_PROFILES;
    CodedIsExact(f);
    CropIsExact(f);
  }

  /** The luma samples that the source crops off. */
  function CropX(f: Fields): nat {
    (if ChromaOf(f) == 3 then 1 else 2) * (CropOf(f).left + CropOf(f).right)
  }

  function CropY(f: Fields): nat {
    FieldHeight(f) * ((if ChromaOf(f) == 1 then 2 else 1) * (CropOf(f).top + CropOf(f).bottom))
  }

  /** The sizes and the cropping fit 32 bits. */
  predicate InRange(f: Fields) {
    CodedWidth(f) < U32 && CodedHeight(f) < U32 && CropX(f) < U32 && CropY(f) < U32
  }

  /** In range, a parameter set is refused for its picture exactly if the cropping leaves nothing. */
  lemma NothingLeftRefused(f: Fields)
    requires InRange(f)
    ensures PictureOf(f) == None <==> CropX(f) >= CodedWidth(f) || CropY(f) >= CodedHeight(f)
  {
    var c := CropOf(f);
    SmallIsExact(CodedWidth(f));
    SmallIsExact(FieldHeight(f));
    SmallIsExact(CodedHeight(f));
    SmallIsExact(CropX(f));
    SmallIsExact(CropY(f));
    assert Times(if ChromaOf(f) == 3 then 1 else 2, c.left + c.right) == CropX(f);
  }

  /** Out of range the cropping wraps: one of 2^32 samples is taken for none. */
  lemma CropCanWrap()
    ensures var f := Fields(66, 0, 30, 0, 1, false, 0, 0, false, Unsent, 0, Lsb(0), 1, false, 1, 1, true, false, true,
                            Some(Crop(0x4000_0000, 0x4000_0000, 0, 0)));
            CropX(f) == U32 && PictureOf(f) == Some(Sps(0, 66, 30, 32, 32, 32, 32))
  {
  }

  lemma SpsParses(header: u8, f: Fields, rbsp: Bytes, rest: Bits)
    requires rbsp != [] && BitsOf(rbsp) == WriteSps(f, rest)
    ensures ParseSps(Written(header, rbsp)) == ParseBits(WriteSps(f, rest))
  {
    var nal := Written(header, rbsp);
    assert nal[1..] == Escape(rbsp, 0);
    UnescapeEscape(rbsp, 0);
    EscapedEndsAlike(rbsp, 0);
  }

  /** A parameter set with picture order count type 0, written as a NAL unit, whatever its header
      and whatever follows its cropping fields, is read back (identifier, profile, level, coded
      size and cropped size) exactly unless it crops a monochrome picture's width or sends a
      scaling list. */
  lemma SpsComesBack(header: u8, f: Fields, rbsp: Bytes, rest: Bits)
    requires ValidFields(f) && f.order.Lsb? && rbsp != [] && BitsOf(rbsp) == WriteSps(f, rest)
    ensures ParseSps(Written(header, rbsp)) == Some(Expected(f)) <==> !CropsTwice(f) && !SendsLists(f)
  {
    hide ParseHead, ParseSize, ParseCrop, WriteHead, WriteSize, WriteCrop, Picture, BitsOf;
    SpsParses(header, f, rbsp, rest);
    HeadBack(f, WriteSize(f, WriteCrop(f, rest)));
    SizeBack(f, WriteCrop(f, rest));
    CropBack(f, rest);
    PictureIsExact(f);
  }
}
