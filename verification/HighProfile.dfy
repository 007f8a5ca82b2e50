/** A High-profile parameter set, byte by byte: 1920 by 1080, level 4.0, as an encoder sends it. */
module HighProfile {
  import opened Words
  import opened StartCodes
  import opened EmulationPrevention
  import opened BitReader
  import opened SequenceParameters
  import opened OrderCounts

  /** 120 by 68 macroblocks, eight rows cropped at the bottom. */
  const FULL_HD := Fields(100, 0, 40, 0, 1, false, 0, 0, false, Unsent, 0, Lsb(4), 4, false, 119, 67, true, false, true,
                          Some(Crop(0, 0, 0, 4)))

  const FULL_HD_BYTES: Bytes := [100, 0, 40, 0xac, 0xca, 0x50, 0x1e, 0, 0x89, 0xf9, 0x50]

  /** No VUI, the stop bit, and zeros up to the end of the byte. */
  const PADDING: Bits := [false, true, false, false, false, false]

  lemma {:induction false} DigitsAre(m: nat, k: nat)
    requires m >= 1 && Pow2(k) <= m < 2 * Pow2(k)
    ensures Digits(m) == k
  {
    if m > 1 {
      assert k > 0;
      DigitsAre(m / 2, k - 1);
    }
  }

  lemma FullHdDigitCounts()
    ensures Digits(5) == 2 && Digits(120) == 6 && Digits(68) == 6
  {
    LowPowers();
    hide Pow2, Digits;
    DigitsAre(5, 2);
    DigitsAre(120, 6);
    DigitsAre(68, 6);
  }

  lemma FullHdCodes()
    ensures UeCode(4) == [false, false, true, false, true]
    ensures UeCode(119) == [false, false, false, false, false, false, true, true, true, true, false, false, false]
    ensures UeCode(67) == [false, false, false, false, false, false, true, false, false, false, true, false, false]
  {
    hide Digits, Pow2, Fixed;
    LowPowers();
    FullHdDigitCounts();
    FullHdFixed();
    assert seq(2, _ => false) == [false, false];
    assert seq(6, _ => false) == [false, false, false, false, false, false];
  }

  lemma FullHdFixed()
    ensures Fixed(1, 2) == [false, true]
    ensures Fixed(56, 6) == [true, true, true, false, false, false]
    ensures Fixed(4, 6) == [false, false, false, true, false, false]
  {
    assert Fixed(0, 0) == [];
    hide Fixed;
    FixedMore(0, 0, false);
    FixedMore(0, 0, true);
    FixedMore(0, 1, true);
    FixedMore(1, 1, true);
    FixedMore(3, 2, true);
    FixedMore(7, 3, false);
    FixedMore(14, 4, false);
    FixedMore(28, 5, false);
    FixedMore(0, 1, false);
    FixedMore(0, 2, false);
    FixedMore(0, 3, true);
    FixedMore(1, 4, false);
    FixedMore(2, 5, false);
  }

  lemma FixedMore(v: nat, n: nat, low: bool)
    ensures Fixed(if low then 2 * v + 1 else 2 * v, n + 1) == Fixed(v, n) + [low]
  {
  }

  /** Up to the order count, up to the width, up to the height, and the rest. */
  const HEAD_BITS: Bits := [true, false, true, false, true, true, false, false, true, true, false, false, true, false,
                            true, false, false, true, false, true, false]
  const WIDTH_BITS: Bits := [false, false, false, false, false, false, true, true, true, true, false, false, false]
  const HEIGHT_BITS: Bits := [false, false, false, false, false, false, true, false, false, false, true, false, false]
  const CROP_BITS: Bits := [true, true, true, true, true, true, false, false, true, false, true] + PADDING

  lemma HeadWritten(rest: Bits)
    ensures UeCode(0) + (UeCode(1) + ([] + (UeCode(0) + (UeCode(0) + ([false] + ([false] +
            (UeCode(0) + (UeCode(0) + (UeCode(4) + (UeCode(4) + ([false] + rest))))))))))) == HEAD_BITS + rest
  {
    SmallCodes();
    FullHdCodes();
    hide UeCode;
  }

  lemma CropWritten()
    ensures [true] + ([] + ([true] + WriteCrop(FULL_HD, PADDING))) == CROP_BITS
  {
    SmallCodes();
    FullHdCodes();
    hide UeCode;
    assert UeCode(0) + (UeCode(0) + (UeCode(0) + (UeCode(4) + PADDING))) == CROP_BITS[3..];
  }

  /** Everything behind the level. */
  lemma FullHdWritten()
    ensures WriteSps(FULL_HD, PADDING) ==
            Fixed(100, 8) + (Fixed(0, 8) + (Fixed(40, 8) + (HEAD_BITS + (WIDTH_BITS + (HEIGHT_BITS + CROP_BITS)))))
  {
    FullHdCodes();
    CropWritten();
    hide UeCode, Fixed, WriteCrop;
    HeadWritten(UeCode(119) + (UeCode(67) + CROP_BITS));
  }

  const PART_ONE: Bits := [false, true, false, true, false]
  const PART_TWO: Bits := [false, false]
  const PART_THREE: Bits := [true, false, false, false, true, false, false]

  lemma HeadDigits()
    ensures HEAD_BITS == Digits8(0xac) + (Digits8(0xca) + PART_ONE)
  {
    assert Digits8(0xac) == [true, false, true, false, true, true, false, false];
    assert Digits8(0xca) == [true, true, false, false, true, false, true, false];
  }

  lemma WidthDigits()
    ensures PART_ONE + WIDTH_BITS == Digits8(0x50) + (Digits8(0x1e) + PART_TWO)
  {
    assert Digits8(0x50) == [false, true, false, true, false, false, false, false];
    assert Digits8(0x1e) == [false, false, false, true, true, true, true, false];
  }

  lemma HeightDigits()
    ensures PART_TWO + HEIGHT_BITS == Digits8(0) + PART_THREE
  {
    assert Digits8(0) == [false, false, false, false, false, false, false, false];
  }

  lemma CropDigits()
    ensures PART_THREE + CROP_BITS == Digits8(0x89) + (Digits8(0xf9) + Digits8(0x50))
  {
    assert Digits8(0x50) == [false, true, false, true, false, false, false, false];
    assert Digits8(0x89) == [true, false, false, false, true, false, false, true];
    assert Digits8(0xf9) == [true, true, true, true, true, false, false, true];
  }

  lemma Regroup(a: Bits, b: Bits, part: Bits, next: Bits, after: Bits, c: Bits)
    requires part + next == c
    ensures a + (b + part) + (next + after) == a + (b + (c + after))
  {
    assert part + (next + after) == c + after;
  }

  /** The bytes behind the level. */
  lemma FullHdDigits()
    ensures HEAD_BITS + (WIDTH_BITS + (HEIGHT_BITS + CROP_BITS)) ==
            Digits8(0xac) + (Digits8(0xca) + (Digits8(0x50) + (Digits8(0x1e) +
            (Digits8(0) + (Digits8(0x89) + (Digits8(0xf9) + Digits8(0x50)))))))
  {
    hide Digits8, HEAD_BITS, WIDTH_BITS, HEIGHT_BITS, CROP_BITS, PART_ONE, PART_TWO, PART_THREE;
    HeadDigits();
    WidthDigits();
    HeightDigits();
    CropDigits();
    Regroup(Digits8(0xac), Digits8(0xca), PART_ONE, WIDTH_BITS, HEIGHT_BITS + CROP_BITS,
            Digits8(0x50) + (Digits8(0x1e) + PART_TWO));
    Regroup(Digits8(0x50), Digits8(0x1e), PART_TWO, HEIGHT_BITS, CROP_BITS, Digits8(0) + PART_THREE);
    assert Digits8(0) + PART_THREE + CROP_BITS == Digits8(0) + (PART_THREE + CROP_BITS);
  }

  lemma ByteThen(b: u8, rest: Bytes, bits: Bits)
    requires BitsOf(rest) == bits
    ensures BitsOf([b] + rest) == Digits8(b) + bits && Digits8(b) == Fixed(b, 8)
  {
    hide BitsOf, Digits8, Fixed;
    ByteBits(b, rest);
    ByteDigits(b);
  }

  lemma FullHdBits()
    ensures BitsOf(FULL_HD_BYTES) ==
            Fixed(100, 8) + (Fixed(0, 8) + (Fixed(40, 8) + (Digits8(0xac) + (Digits8(0xca) + (Digits8(0x50) +
            (Digits8(0x1e) + (Digits8(0) + (Digits8(0x89) + (Digits8(0xf9) + Digits8(0x50))))))))))
  {
    hide BitsOf, Digits8, Fixed;
    NoBits();
    var b := FULL_HD_BYTES;
    assert b[11..] == [] && b[10..] == [0x50] + b[11..] && b[9..] == [0xf9] + b[10..] && b[8..] == [0x89] + b[9..];
    assert b[7..] == [0] + b[8..] && b[6..] == [0x1e] + b[7..] && b[5..] == [0x50] + b[6..];
    assert b[4..] == [0xca] + b[5..] && b[3..] == [0xac] + b[4..] && b[2..] == [40] + b[3..];
    assert b[1..] == [0] + b[2..] && b[0..] == [100] + b[1..] && b[0..] == b;
    assert Digits8(0x50) + [] == Digits8(0x50);
    ByteThen(0x50, b[11..], []);
    ByteThen(0xf9, b[10..], BitsOf(b[10..]));
    ByteThen(0x89, b[9..], BitsOf(b[9..]));
    ByteThen(0, b[8..], BitsOf(b[8..]));
    ByteThen(0x1e, b[7..], BitsOf(b[7..]));
    ByteThen(0x50, b[6..], BitsOf(b[6..]));
    ByteThen(0xca, b[5..], BitsOf(b[5..]));
    ByteThen(0xac, b[4..], BitsOf(b[4..]));
    ByteThen(40, b[3..], BitsOf(b[3..]));
    ByteThen(0, b[2..], BitsOf(b[2..]));
    ByteThen(100, b[1..], BitsOf(b[1..]));
  }

  lemma FullHdIsValid()
    ensures ValidFields(FULL_HD) && !CropsTwice(FULL_HD) && !SendsLists(FULL_HD)
    ensures Expected(FULL_HD) == Sps(0, 100, 40, 1920, 1088, 1920, 1080)
  {
  }

  /** The NAL unit is read as what it says: 1920 by 1088 samples coded, 1920 by 1080 shown. */
  lemma FullHdComesBack()
    ensures ParseSps([0x67, 100, 0, 40, 0xac, 0xca, 0x50, 0x1e, 0, 0x89, 0xf9, 0x50]) ==
            Some(Sps(0, 100, 40, 1920, 1088, 1920, 1080))
  {
    FullHdIsValid();
    FullHdBits();
    FullHdDigits();
    FullHdWritten();
    hide BitsOf, WriteSps, ParseSps, Escape, Fixed, Digits8, ValidFields, Expected, CropsTwice, SendsLists;
    PlainEscape(FULL_HD_BYTES, 0);
    assert Written(0x67, FULL_HD_BYTES) == [0x67] + FULL_HD_BYTES ==
           [0x67, 100, 0, 40, 0xac, 0xca, 0x50, 0x1e, 0, 0x89, 0xf9, 0x50];
    SpsComesBack(0x67, FULL_HD, FULL_HD_BYTES, PADDING);
  }
}
