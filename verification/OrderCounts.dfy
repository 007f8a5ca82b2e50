/** Which picture order count types of a sequence parameter set the source reads: it reads a field
    behind the type whatever the type is, which only type 0 sends in that form. */
module OrderCounts {
  import opened Words
  import opened Residues
  import opened StartCodes
  import opened EmulationPrevention
  import opened BitReader
  import opened SequenceParameters

  function OrderType(o: OrderCount): nat {
    match o
    case Lsb(_) => 0
    case Cycle(_, _, _, _) => 1
    case OutputOrder => 2
  }

  /** The bits of the parameter set, and what follows it, as bytes. */
  predicate Holds(rbsp: Bytes, f: Fields, rest: Bits) {
    rbsp != [] && BitsOf(rbsp) == WriteSps(f, rest)
  }

  /** Every valid parameter set of the type, without scaling lists or a monochrome picture cropped in
      width, comes back from its NAL unit. */
  ghost predicate AlwaysReadBack(orderType: nat) {
    forall header: u8, f, rbsp, rest {:trigger Written(header, rbsp), Holds(rbsp, f, rest)} ::
      ValidFields(f) && OrderType(f.order) == orderType && !CropsTwice(f) && !SendsLists(f) && Holds(rbsp, f, rest) ==>
        ParseSps(Written(header, rbsp)) == Some(Expected(f))
  }

  // Bytes and bits.

  lemma {:induction false} FixedDigit(v: nat, n: nat, k: nat)
    requires k < n
    ensures Fixed(v, n)[k] == (v / Pow2(n - 1 - k) % 2 == 1)
    decreases n
  {
    if k < n - 1 {
      FixedDigit(v / 2, n - 1, k);
      DivTwice(v, Pow2(n - 2 - k));
    } else {
      assert Pow2(0) == 1;
    }
  }

  lemma DivTwice(v: nat, p: nat)
    requires p > 0
    ensures v / 2 / p == v / (2 * p)
  {
    var q, r := v / (2 * p), v % (2 * p);
    Division(v, 2 * p);
    assert 2 * p * q == 2 * (p * q);
    DivModIs(v / 2, p, q, r / 2);
  }

  lemma ByteBits(b: u8, rest: Bytes)
    ensures BitsOf([b] + rest) == Fixed(b, 8) + BitsOf(rest)
  {
    hide Fixed, BitNumber;
    var all := [b] + rest;
    forall k | 0 <= k < |BitsOf(all)|
      ensures BitsOf(all)[k] == (Fixed(b, 8) + BitsOf(rest))[k]
    {
      if k < 8 {
        FirstByte(b, rest, k);
      } else {
        LaterByte(b, rest, k);
      }
    }
  }

  lemma FirstByte(b: u8, rest: Bytes, k: nat)
    requires k < 8
    ensures Fixed(b, 8)[k] == (BitNumber([b] + rest, k) == 1)
  {
    hide Pow2, Fixed;
    FixedDigit(b, 8, k);
  }

  lemma LaterByte(b: u8, rest: Bytes, k: nat)
    requires 8 <= k < 8 * |rest| + 8
    ensures BitNumber([b] + rest, k) == BitNumber(rest, k - 8)
  {
    hide Pow2;
    assert k / 8 == (k - 8) / 8 + 1 && k % 8 == (k - 8) % 8;
  }

  lemma LowPowers()
    ensures Pow2(0) == 1 && Pow2(1) == 2 && Pow2(2) == 4 && Pow2(3) == 8
    ensures Pow2(4) == 16 && Pow2(5) == 32 && Pow2(6) == 64 && Pow2(7) == 128
  {
    assert Pow2(1) == 2 * Pow2(0) && Pow2(2) == 2 * Pow2(1) && Pow2(3) == 2 * Pow2(2);
    assert Pow2(5) == 2 * Pow2(4) && Pow2(6) == 2 * Pow2(5);
  }

  /** The eight digits of a byte. */
  function Digits8(b: u8): Bits {
    [b / 128 % 2 == 1, b / 64 % 2 == 1, b / 32 % 2 == 1, b / 16 % 2 == 1,
     b / 8 % 2 == 1, b / 4 % 2 == 1, b / 2 % 2 == 1, b % 2 == 1]
  }

  lemma ByteDigits(b: u8)
    ensures Fixed(b, 8) == Digits8(b)
  {
    LowPowers();
    hide Fixed, Pow2;
    forall k | 0 <= k < 8
      ensures Fixed(b, 8)[k] == Digits8(b)[k]
    {
      FixedDigit(b, 8, k);
    }
  }

  // Baseline pictures, level 3.0, coded in frame macroblocks, whose parameter sets fit few bytes.

  function Plain(order: OrderCount, gaps: bool, mbs: nat): Fields {
    Fields(66, 0, 30, 0, 1, false, 0, 0, false, Unsent, 0, order, 1, gaps, mbs, mbs, true, false, true, None)
  }

  lemma PlainIsValid(order: OrderCount, gaps: bool, mbs: nat)
    requires ValidOrder(order) && mbs <= 1
    ensures var f := Plain(order, gaps, mbs); ValidFields(f) && !CropsTwice(f) && !SendsLists(f)
  {
  }

  /** What stands behind the level: the identifier, the sizes and the rest. */
  function AfterLevel(f: Fields, rest: Bits): Bits {
    UeCode(0) + WriteSize(f, WriteCrop(f, rest))
  }

  function PlainNal(tail: Bytes): Bytes {
    [0x67, 66, 0, 30] + tail
  }

  lemma PlainBits(f: Fields, tail: Bytes, rest: Bits)
    requires f == Plain(f.order, f.gaps, f.widthMbs) && BitsOf(tail) == AfterLevel(f, rest)
    ensures Holds([66, 0, 30] + tail, f, rest)
  {
    hide BitsOf, Fixed, WriteSize, WriteCrop, UeCode;
    ByteBits(66, [0, 30] + tail);
    ByteBits(0, [30] + tail);
    ByteBits(30, tail);
    assert [66] + ([0, 30] + tail) == [66, 0, 30] + tail && [0] + ([30] + tail) == [0, 30] + tail;
  }

  /** The parameter set as a NAL unit, without emulation prevention, is parsed as its bits are. */
  lemma PlainParses(f: Fields, tail: Bytes, rest: Bits)
    requires f == Plain(f.order, f.gaps, f.widthMbs) && BitsOf(tail) == AfterLevel(f, rest)
    requires forall i | 0 <= i < |tail| :: tail[i] != 0
    ensures Written(0x67, [66, 0, 30] + tail) == PlainNal(tail)
    ensures Holds([66, 0, 30] + tail, f, rest)
    ensures ParseSps(PlainNal(tail)) == ParseBits(WriteSps(f, rest))
  {
    hide BitsOf, WriteSps, AfterLevel, ParseBits, Plain, Unescape, Escape;
    PlainEscape([66, 0, 30] + tail, 0);
    assert [0x67] + ([66, 0, 30] + tail) == PlainNal(tail);
    PlainBits(f, tail, rest);
    SpsParses(0x67, f, [66, 0, 30] + tail, rest);
  }

  /** The source's reading from the sizes on decides. */
  lemma ParsesFrom(f: Fields, rest: Bits)
    requires ValidFields(f) && !SendsLists(f)
    ensures var head := Head(f.profile, f.level, f.id, ChromaOf(f));
            ParseBits(WriteSps(f, rest)) ==
            match ParseSize(WriteSize(f, WriteCrop(f, rest)))
            case Short => None
            case Got(size, b2) =>
              match ParseCrop(b2)
              case Short => None
              case Got(crop, _) => Picture(head, size, crop)
  {
    hide ParseHead, ParseSize, ParseCrop, WriteHead, WriteSize, WriteCrop, Picture;
    HeadBack(f, WriteSize(f, WriteCrop(f, rest)));
  }

  lemma SmallDigits()
    ensures Digits(1) == 0 && Digits(2) == 1 && Digits(3) == 1 && Digits(4) == 2 && Digits(9) == 3
  {
    assert Digits(2) == Digits(1) + 1 && Digits(4) == Digits(2) + 1 && Digits(9) == Digits(4) + 1;
  }

  lemma SmallFixed()
    ensures Fixed(0, 0) == [] && Fixed(0, 1) == [false] && Fixed(1, 1) == [true] && Fixed(0, 2) == [false, false]
    ensures Fixed(1, 3) == [false, false, true]
  {
    assert Fixed(0, 1) == Fixed(0, 0) + [false];
    assert Fixed(0, 2) == Fixed(0, 1) + [false];
    assert Fixed(1, 3) == Fixed(0, 2) + [true];
  }

  lemma SmallCodes()
    ensures UeCode(0) == [true] && UeCode(1) == [false, true, false] && UeCode(2) == [false, true, true]
    ensures UeCode(3) == [false, false, true, false, false]
    ensures UeCode(8) == [false, false, false, true, false, false, true]
  {
    SmallDigits();
    SmallFixed();
    LowPowers();
    hide Digits, Pow2, Fixed;
    assert seq(1, _ => false) == [false] && seq(2, _ => false) == [false, false];
    assert seq(3, _ => false) == [false, false, false];
  }

  lemma ThreeBytes(a: u8, b: u8, c: u8)
    ensures BitsOf([a, b, c]) == Digits8(a) + Digits8(b) + Digits8(c)
  {
    hide BitsOf, Digits8, Fixed;
    ByteBits(a, [b, c]);
    ByteBits(b, [c]);
    ByteBits(c, []);
    ByteDigits(a);
    ByteDigits(b);
    ByteDigits(c);
    NoBits();
    assert [a] + [b, c] == [a, b, c] && [b] + [c] == [b, c] && [c] + [] == [c];
    assert Digits8(c) + [] == Digits8(c);
  }

  lemma NoBits()
    ensures BitsOf([]) == []
  {
  }

  // Type 1, every offset zero, none in a cycle, 32 by 32 samples.

  const TYPE_ONE := Plain(Cycle(false, 0, 0, []), false, 1)
  /** No VUI, and the stop bit. */
  const STOP: Bits := [false, true]
  /** What is sent behind the type. */
  const ONE_TAIL: Bits := [false, true, true, true, false, true, false, false, false, true, false, false, true, false,
                           true, true, false] + STOP

  lemma TypeOneSize()
    ensures WriteSize(TYPE_ONE, WriteCrop(TYPE_ONE, STOP)) == UeCode(0) + (UeCode(1) + ONE_TAIL)
  {
    SmallCodes();
    hide UeCode;
    var crop: Bits := [false] + STOP;
    var behind := UeCode(1) + ([false] + (UeCode(1) + (UeCode(1) + ([true] + ([] + ([true] + crop))))));
    assert behind == ONE_TAIL[4..];
    assert [0, 0, 0] + [] == [0, 0, 0];
    NoneOffset(behind);
    assert [false] + (UeCode(0) + (UeCode(0) + (UeCode(0) + behind))) == ONE_TAIL;
  }

  lemma UesCons(value: nat, others: seq<nat>, rest: Bits)
    ensures WriteUes([value] + others, rest) == UeCode(value) + WriteUes(others, rest)
  {
    assert ([value] + others)[1..] == others;
  }

  lemma NoneOffset(rest: Bits)
    ensures WriteUes([0, 0, 0], rest) == UeCode(0) + (UeCode(0) + (UeCode(0) + rest))
  {
    hide UeCode;
    UesCons(0, [0, 0], rest);
    UesCons(0, [0], rest);
    UesCons(0, [], rest);
    assert [0] + [0, 0] == [0, 0, 0] && [0] + [0] == [0, 0] && [0] + [] == [0];
  }

  /** The four fields that the source takes for those before the size. */
  lemma FourRead(a: nat, b: nat, c: nat, d: nat, rest: Bits)
    requires Codable(a) && Codable(b) && Codable(c) && Codable(d)
    ensures ReadUe(UeCode(a) + (UeCode(b) + (UeCode(c) + (UeCode(d) + rest)))) ==
            Got(a, UeCode(b) + (UeCode(c) + (UeCode(d) + rest)))
    ensures ReadUe(UeCode(b) + (UeCode(c) + (UeCode(d) + rest))) == Got(b, UeCode(c) + (UeCode(d) + rest))
    ensures ReadUe(UeCode(c) + (UeCode(d) + rest)) == Got(c, UeCode(d) + rest)
    ensures ReadUe(UeCode(d) + rest) == Got(d, rest)
  {
    hide UeCode, ReadUe;
    UeBack(a, UeCode(b) + (UeCode(c) + (UeCode(d) + rest)));
    UeBack(b, UeCode(c) + (UeCode(d) + rest));
    UeBack(c, UeCode(d) + rest);
    UeBack(d, rest);
  }

  /** What `ParseSize` makes of four fields, a flag, two fields and what follows. */
  lemma SizeRead(a: nat, b: nat, c: nat, d: nat, gaps: bool, width: nat, height: nat, rest: Bits)
    requires Codable(a) && Codable(b) && Codable(c) && Codable(d) && Codable(width) && Codable(height)
    ensures ParseSize(UeCode(a) + (UeCode(b) + (UeCode(c) + (UeCode(d) +
                      ([gaps] + (UeCode(width) + (UeCode(height) + rest))))))) ==
            var (frameMbs, b8) :- ReadBits(rest, 1);
            var (_, b9) :- OneBitIf(b8, frameMbs == 0);
            var (_, b10) :- ReadBits(b9, 1);
            Got(Size(width, height, frameMbs), b10)
  {
    hide UeCode, ReadUe, ReadBits;
    FourRead(a, b, c, d, [gaps] + (UeCode(width) + (UeCode(height) + rest)));
    FlagBack(gaps, UeCode(width) + (UeCode(height) + rest));
    UeBack(width, UeCode(height) + rest);
    UeBack(height, rest);
  }

  /** Where the source sees fields in what follows type 1. */
  lemma OneTailFields()
    ensures ONE_TAIL == UeCode(2) + (UeCode(0) + ([false] + (UeCode(0) + (UeCode(8) +
                        ([false] + ([true] + ([true] + ([false] + STOP))))))))
  {
    SmallCodes();
    hide UeCode;
  }

  lemma TwoTailFields()
    ensures TWO_TAIL == UeCode(3) + ([true] + (UeCode(2) + (UeCode(3) + ([false] + ([false] + [])))))
  {
    SmallCodes();
    hide UeCode;
  }

  /** As the source reads it: one macroblock wide, nine map units of fields high. */
  lemma TypeOneMisread()
    ensures ParseSize(UeCode(0) + (UeCode(1) + ONE_TAIL)) == Got(Size(0, 8, 0), [false] + STOP)
  {
    hide UeCode, ReadBits, ParseSize, STOP, ONE_TAIL;
    OneTailFields();
    var b9 := [false] + STOP;
    var b8 := [true] + b9;
    var b7 := [true] + b8;
    var b6 := [false] + b7;
    SizeRead(0, 1, 2, 0, false, 0, 8, b6);
    FlagBack(false, b7);
    FlagBack(true, b8);
    FlagBack(true, b9);
  }

  /** The bits of D3, A2 and 59. */
  const ONE_BITS: Bits := [true, true, false, true, false, false, true, true] +
                          [true, false, true, false, false, false, true, false] +
                          [false, true, false, true, true, false, false, true]

  lemma TypeOneDigits()
    ensures Digits8(0xd3) + Digits8(0xa2) + Digits8(0x59) == ONE_BITS
  {
    assert Digits8(0xd3) == [true, true, false, true, false, false, true, true];
    assert Digits8(0xa2) == [true, false, true, false, false, false, true, false];
    assert Digits8(0x59) == [false, true, false, true, true, false, false, true];
  }

  lemma TypeOneBits()
    ensures AfterLevel(TYPE_ONE, STOP) == ONE_BITS
  {
    SmallCodes();
    TypeOneSize();
    hide UeCode, WriteSize, WriteCrop;
    assert UeCode(0) + (UeCode(0) + (UeCode(1) + ONE_TAIL)) == ONE_BITS;
  }

  lemma TypeOneBytes()
    ensures BitsOf([0xd3, 0xa2, 0x59]) == AfterLevel(TYPE_ONE, STOP)
  {
    hide BitsOf, AfterLevel, Digits8;
    ThreeBytes(0xd3, 0xa2, 0x59);
    TypeOneDigits();
    TypeOneBits();
  }

  /** A valid parameter set of type 1 for 32 by 32 samples that the source reads as 16 by 288. */
  lemma TypeOneMisreads()
    ensures ValidFields(TYPE_ONE) && Holds([66, 0, 30, 0xd3, 0xa2, 0x59], TYPE_ONE, STOP)
    ensures Written(0x67, [66, 0, 30, 0xd3, 0xa2, 0x59]) == [0x67, 66, 0, 30, 0xd3, 0xa2, 0x59]
    ensures ParseSps([0x67, 66, 0, 30, 0xd3, 0xa2, 0x59]) == Some(Sps(0, 66, 30, 16, 288, 16, 288))
  {
    hide BitsOf, WriteSps, ParseSps, AfterLevel, Written, ValidFields, Holds, ParseBits;
    PlainIsValid(TYPE_ONE.order, false, 1);
    TypeOneBytes();
    PlainParses(TYPE_ONE, [0xd3, 0xa2, 0x59], STOP);
    assert [66, 0, 30] + [0xd3, 0xa2, 0x59] == [66, 0, 30, 0xd3, 0xa2, 0x59];
    assert PlainNal([0xd3, 0xa2, 0x59]) == [0x67, 66, 0, 30, 0xd3, 0xa2, 0x59];
    TypeOneParsed();
  }

  lemma TypeOneParsed()
    ensures ParseBits(WriteSps(TYPE_ONE, STOP)) == Some(Sps(0, 66, 30, 16, 288, 16, 288))
  {
    hide WriteSps, ParseSize, WriteSize, WriteCrop, ParseBits, ValidFields, UeCode, ParseCrop, Picture;
    PlainIsValid(TYPE_ONE.order, false, 1);
    ParsesFrom(TYPE_ONE, STOP);
    TypeOneSize();
    TypeOneMisread();
    NoCrop(STOP);
    MisreadPicture();
  }

  lemma NoCrop(rest: Bits)
    ensures ParseCrop([false] + rest) == Got(Crop(0, 0, 0, 0), rest)
  {
    FlagBack(false, rest);
  }

  lemma MisreadPicture()
    ensures Picture(Head(66, 30, 0, 1), Size(0, 8, 0), Crop(0, 0, 0, 0)) == Some(Sps(0, 66, 30, 16, 288, 16, 288))
  {
  }

  // Type 2, 32 by 32 samples.

  const TYPE_TWO := Plain(OutputOrder, false, 1)
  /** No VUI, the stop bit, and zeros up to the end of the byte. */
  const PADDED: Bits := [false, true, false, false, false, false]
  /** What is sent behind the reference frames. */
  const TWO_TAIL: Bits := [false, false, true, false, false, true, false, true, true, false] + PADDED

  lemma TypeTwoSize()
    ensures WriteSize(TYPE_TWO, WriteCrop(TYPE_TWO, PADDED)) == UeCode(0) + (UeCode(2) + (UeCode(1) + TWO_TAIL))
  {
    SmallCodes();
    hide UeCode;
    var crop: Bits := [false] + PADDED;
    assert UeCode(1) + (UeCode(1) + ([true] + ([] + ([true] + crop)))) == TWO_TAIL[1..];
    assert [false] + TWO_TAIL[1..] == TWO_TAIL;
  }

  lemma TypeTwoMisread()
    ensures ParseSize(UeCode(0) + (UeCode(2) + (UeCode(1) + TWO_TAIL))) == Short
  {
    hide UeCode, ReadBits, ParseSize, TWO_TAIL;
    TwoTailFields();
    var b9: Bits := [];
    var b8 := [false] + b9;
    var b7 := [false] + b8;
    SizeRead(0, 2, 1, 3, true, 2, 3, b7);
    FlagBack(false, b8);
    FlagBack(false, b9);
    OneBit(b9);
  }

  /** The bits of DA, 25 and 90. */
  const TWO_BITS: Bits := [true, true, false, true, true, false, true, false] +
                          [false, false, true, false, false, true, false, true] +
                          [true, false, false, true, false, false, false, false]

  lemma TypeTwoDigits()
    ensures Digits8(0xda) + Digits8(0x25) + Digits8(0x90) == TWO_BITS
  {
    assert Digits8(0xda) == [true, true, false, true, true, false, true, false];
    assert Digits8(0x25) == [false, false, true, false, false, true, false, true];
    assert Digits8(0x90) == [true, false, false, true, false, false, false, false];
  }

  lemma TypeTwoBits()
    ensures AfterLevel(TYPE_TWO, PADDED) == TWO_BITS
  {
    SmallCodes();
    TypeTwoSize();
    hide UeCode, WriteSize, WriteCrop;
    assert UeCode(0) + (UeCode(0) + (UeCode(2) + (UeCode(1) + TWO_TAIL))) == TWO_BITS;
  }

  lemma TypeTwoBytes()
    ensures BitsOf([0xda, 0x25, 0x90]) == AfterLevel(TYPE_TWO, PADDED)
  {
    hide BitsOf, AfterLevel, Digits8;
    ThreeBytes(0xda, 0x25, 0x90);
    TypeTwoDigits();
    TypeTwoBits();
  }

  /** A valid parameter set of type 2 that the source refuses: it runs out of bits. */
  lemma TypeTwoRefused()
    ensures ValidFields(TYPE_TWO) && Holds([66, 0, 30, 0xda, 0x25, 0x90], TYPE_TWO, PADDED)
    ensures Written(0x67, [66, 0, 30, 0xda, 0x25, 0x90]) == [0x67, 66, 0, 30, 0xda, 0x25, 0x90]
    ensures ParseSps([0x67, 66, 0, 30, 0xda, 0x25, 0x90]) == None
  {
    hide BitsOf, WriteSps, ParseSps, AfterLevel, Written, ValidFields, Holds, ParseBits;
    PlainIsValid(OutputOrder, false, 1);
    TypeTwoBytes();
    PlainParses(TYPE_TWO, [0xda, 0x25, 0x90], PADDED);
    assert [66, 0, 30] + [0xda, 0x25, 0x90] == [66, 0, 30, 0xda, 0x25, 0x90];
    assert PlainNal([0xda, 0x25, 0x90]) == [0x67, 66, 0, 30, 0xda, 0x25, 0x90];
    TypeTwoParsed();
  }

  lemma TypeTwoParsed()
    ensures ParseBits(WriteSps(TYPE_TWO, PADDED)) == None
  {
    hide WriteSps, ParseSize, WriteSize, WriteCrop, ParseBits, ValidFields, UeCode;
    PlainIsValid(OutputOrder, false, 1);
    ParsesFrom(TYPE_TWO, PADDED);
    TypeTwoSize();
    TypeTwoMisread();
  }

  // Type 2 again, 16 by 16 samples, with gaps in the frame numbers allowed.

  const LUCKY := Plain(OutputOrder, true, 0)
  const LUCKY_TAIL: Bits := [true, true, true, true, true, false] + STOP

  lemma LuckySize()
    ensures WriteSize(LUCKY, WriteCrop(LUCKY, STOP)) == UeCode(0) + (UeCode(2) + (UeCode(1) + LUCKY_TAIL))
  {
    SmallCodes();
    hide UeCode;
    var crop: Bits := [false] + STOP;
    assert [true] + (UeCode(0) + (UeCode(0) + ([true] + ([] + ([true] + crop))))) == LUCKY_TAIL;
  }

  lemma LuckyRead()
    ensures ParseSize(UeCode(0) + (UeCode(2) + (UeCode(1) + LUCKY_TAIL))) == Got(Size(0, 0, 1), STOP)
  {
    SmallCodes();
    var b8 := [false] + STOP;
    var b7 := [true] + b8;
    assert LUCKY_TAIL == UeCode(0) + ([true] + (UeCode(0) + (UeCode(0) + b7)));
    hide UeCode, ReadBits, ParseSize;
    SizeRead(0, 2, 1, 0, true, 0, 0, b7);
    FlagBack(true, b8);
    FlagBack(false, STOP);
  }

  lemma LuckyParsed()
    ensures ParseBits(WriteSps(LUCKY, STOP)) == Some(Expected(LUCKY))
  {
    PlainIsValid(OutputOrder, true, 0);
    assert STOP == [false] + [true];
    hide WriteSps, ParseSize, WriteSize, WriteCrop, ParseBits, ValidFields, UeCode, ParseCrop, Picture;
    ParsesFrom(LUCKY, STOP);
    LuckySize();
    LuckyRead();
    NoCrop([true]);
    PictureIsExact(LUCKY);
  }

  /** The bits of DA and F9. */
  const LUCKY_BITS: Bits := [true, true, false, true, true, false, true, false] +
                            [true, true, true, true, true, false, false, true]

  lemma LuckyDigits()
    ensures Digits8(0xda) + Digits8(0xf9) == LUCKY_BITS
  {
    assert Digits8(0xda) == [true, true, false, true, true, false, true, false];
    assert Digits8(0xf9) == [true, true, true, true, true, false, false, true];
  }

  lemma LuckyBits()
    ensures AfterLevel(LUCKY, STOP) == LUCKY_BITS
  {
    SmallCodes();
    LuckySize();
    hide UeCode, WriteSize, WriteCrop;
    assert UeCode(0) + (UeCode(0) + (UeCode(2) + (UeCode(1) + LUCKY_TAIL))) == LUCKY_BITS;
  }

  lemma LuckyBytes()
    ensures BitsOf([0xda, 0xf9]) == AfterLevel(LUCKY, STOP)
  {
    hide BitsOf, AfterLevel, Digits8;
    TwoBytes(0xda, 0xf9);
    LuckyDigits();
    LuckyBits();
  }

  lemma TwoBytes(a: u8, b: u8)
    ensures BitsOf([a, b]) == Digits8(a) + Digits8(b)
  {
    hide BitsOf, Digits8, Fixed;
    ByteBits(a, [b]);
    ByteBits(b, []);
    ByteDigits(a);
    ByteDigits(b);
    NoBits();
    assert [a] + [b] == [a, b] && [b] + [] == [b];
    assert Digits8(b) + [] == Digits8(b);
  }

  /** What is read from the wrong places may come out right all the same: a valid parameter set of
      type 2 that is read back. */
  lemma TypeTwoCanComeBack()
    ensures ValidFields(LUCKY) && Holds([66, 0, 30, 0xda, 0xf9], LUCKY, STOP)
    ensures ParseSps([0x67, 66, 0, 30, 0xda, 0xf9]) == Some(Expected(LUCKY))
  {
    hide BitsOf, WriteSps, ParseSps, AfterLevel, Written, ValidFields, Holds, ParseBits;
    PlainIsValid(OutputOrder, true, 0);
    LuckyBytes();
    PlainParses(LUCKY, [0xda, 0xf9], STOP);
    assert [66, 0, 30] + [0xda, 0xf9] == [66, 0, 30, 0xda, 0xf9];
    assert PlainNal([0xda, 0xf9]) == [0x67, 66, 0, 30, 0xda, 0xf9];
    LuckyParsed();
  }

  /** Reading back can be relied on for type 0 alone. */
  lemma ReadBackExactly(orderType: nat)
    requires orderType <= 2
    ensures AlwaysReadBack(orderType) <==> orderType == 0
  {
    hide ParseSps, Written, Holds, ValidFields, Expected, CropsTwice;
    if orderType == 0 {
      forall header: u8, f, rbsp, rest |
        ValidFields(f) && OrderType(f.order) == 0 && !CropsTwice(f) && !SendsLists(f) && Holds(rbsp, f, rest)
        ensures ParseSps(Written(header, rbsp)) == Some(Expected(f))
      {
        ZeroComesBack(header, f, rbsp, rest);
      }
    } else if orderType == 1 {
      OneDoesNot();
    } else {
      TwoDoesNot();
    }
  }

  lemma ZeroComesBack(header: u8, f: Fields, rbsp: Bytes, rest: Bits)
    requires ValidFields(f) && OrderType(f.order) == 0 && !CropsTwice(f) && !SendsLists(f) && Holds(rbsp, f, rest)
    ensures ParseSps(Written(header, rbsp)) == Some(Expected(f))
  {
    hide ParseSps, Written, ValidFields, Expected, CropsTwice, WriteSps, BitsOf;
    SpsComesBack(header, f, rbsp, rest);
  }

  lemma OneDoesNot()
    ensures ValidFields(TYPE_ONE) && !CropsTwice(TYPE_ONE) && !SendsLists(TYPE_ONE)
    ensures Holds([66, 0, 30, 0xd3, 0xa2, 0x59], TYPE_ONE, STOP)
    ensures ParseSps(Written(0x67, [66, 0, 30, 0xd3, 0xa2, 0x59])) != Some(Expected(TYPE_ONE))
  {
    PlainIsValid(TYPE_ONE.order, false, 1);
    TypeOneMisreads();
    hide ParseSps, Written, Holds, ValidFields, CropsTwice;
    assert Expected(TYPE_ONE).codedWidth == 32;
  }

  lemma TwoDoesNot()
    ensures ValidFields(TYPE_TWO) && !CropsTwice(TYPE_TWO) && !SendsLists(TYPE_TWO)
    ensures Holds([66, 0, 30, 0xda, 0x25, 0x90], TYPE_TWO, PADDED)
    ensures ParseSps(Written(0x67, [66, 0, 30, 0xda, 0x25, 0x90])) != Some(Expected(TYPE_TWO))
  {
    PlainIsValid(OutputOrder, false, 1);
    TypeTwoRefused();
    hide ParseSps, Written, Holds, CropsTwice;
  }
}
