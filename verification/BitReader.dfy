/** Reading fixed-length and Exp-Golomb fields (section 9.1 of ITU-T H.264) from a byte string. */
module BitReader {
  import opened Words
  import opened StartCodes

  type Bits = seq<bool>

  /** A read either fails or gives a value and the bits after it. */
  datatype Reading<+T> = Short | Got(value: T, rest: Bits) {
    predicate IsFailure() {
      Short?
    }

    function PropagateFailure<U>(): Reading<U>
      requires Short?
    {
      Short
    }

    function Extract(): (T, Bits)
      requires Got?
    {
      (value, rest)
    }
  }

  function Pow2(n: nat): (p: nat)
    ensures p >= 1
  {
    if n == 0 then 1 else 2 * Pow2(n - 1)
  }

  function Bit(b: bool): nat {
    if b then 1 else 0
  }

  /** The number whose binary digits are `bits`, the first one highest. */
  function Value(bits: Bits): nat {
    if bits == [] then 0 else 2 * Value(bits[..|bits| - 1]) + Bit(bits[|bits| - 1])
  }

  lemma {:induction false} ValueBound(bits: Bits)
    ensures Value(bits) < Pow2(|bits|)
  {
    if bits != [] {
      ValueBound(bits[..|bits| - 1]);
    }
  }

  /** Bit number `k` of a byte string, counting from the high bit of the first byte. */
  function BitNumber(data: Bytes, k: nat): (b: nat)
    requires k < 8 * |data|
    ensures b < 2
  {
    data[k / 8] / Pow2(7 - k % 8) % 2
  }

  function BitsOf(data: Bytes): (bits: Bits)
    ensures |bits| == 8 * |data|
  {
    seq(8 * |data|, i requires 0 <= i < 8 * |data| => BitNumber(data, i) == 1)
  }

  function ReadBits(bits: Bits, n: nat): Reading<nat> {
    if n > 32 || n > |bits| then Short else Got(Value(bits[..n]), bits[n..])
  }

  /** After `zeros` zero bits of a prefix: thirty-one are too many. */
  function ReadUeFrom(bits: Bits, zeros: nat): Reading<nat>
    decreases |bits|
  {
    if zeros >= 31 || bits == [] then Short
    else if bits[0] then
      var (suffix, rest) :- ReadBits(bits[1..], zeros);
      Got(Pow2(zeros) - 1 + suffix, rest)
    else ReadUeFrom(bits[1..], zeros + 1)
  }

  function ReadUe(bits: Bits): Reading<nat> {
    ReadUeFrom(bits, 0)
  }

  /** `n` bits that hold the low `n` binary digits of `v`. */
  function Fixed(v: nat, n: nat): (bits: Bits)
    ensures |bits| == n
  {
    if n == 0 then [] else Fixed(v / 2, n - 1) + [v % 2 == 1]
  }

  lemma NoValue()
    ensures Value([]) == 0
  {
  }

  lemma HalfBelow(v: nat, n: nat)
    requires n > 0 && v < Pow2(n)
    ensures v / 2 < Pow2(n - 1)
  {
  }

  lemma ValueMore(bits: Bits, low: bool)
    ensures Value(bits + [low]) == 2 * Value(bits) + Bit(low)
  {
    assert (bits + [low])[..|bits|] == bits;
  }

  lemma {:induction false} ValueOfFixed(v: nat, n: nat)
    requires v < Pow2(n)
    ensures Value(Fixed(v, n)) == v
  {
    hide Value;
    if n == 0 {
      NoValue();
    } else {
      HalfBelow(v, n);
      hide Pow2;
      ValueOfFixed(v / 2, n - 1);
      ValueMore(Fixed(v / 2, n - 1), v % 2 == 1);
    }
  }

  /** How many binary digits `m` has after its leading one. */
  function Digits(m: nat): (k: nat)
    requires m >= 1
    ensures Pow2(k) <= m < 2 * Pow2(k)
  {
    if m == 1 then 0 else Digits(m / 2) + 1
  }

  /** The codeword of `v`: as many zeros as `v + 1` has digits after its leading one, then `v + 1`. */
  function UeCode(v: nat): Bits {
    var k := Digits(v + 1);
    seq(k, _ => false) + [true] + Fixed(v + 1 - Pow2(k), k)
  }

  lemma FixedBack(v: nat, n: nat, rest: Bits)
    requires v < Pow2(n) && n <= 32
    ensures ReadBits(Fixed(v, n) + rest, n) == Got(v, rest)
  {
    ValueOfFixed(v, n);
    var all := Fixed(v, n) + rest;
    assert all[..n] == Fixed(v, n) && all[n..] == rest;
  }

  lemma {:induction false} ZerosBack(k: nat, zeros: nat, rest: Bits)
    requires zeros + k <= 31
    ensures ReadUeFrom(seq(k, _ => false) + rest, zeros) == ReadUeFrom(rest, zeros + k)
    decreases k
  {
    var all := seq(k, _ => false) + rest;
    if k == 0 {
      assert all == rest;
    } else {
      assert all[1..] == seq(k - 1, _ => false) + rest;
      if zeros + k < 31 || k > 1 {
        ZerosBack(k - 1, zeros + 1, rest);
      }
    }
  }

  lemma {:induction false} Pow2Monotone(m: nat, n: nat)
    requires m <= n
    ensures Pow2(m) <= Pow2(n)
    decreases n
  {
    if m < n {
      Pow2Monotone(m, n - 1);
    }
  }

  /** Every value up to 2^31 - 2 is read back from its codeword, and exactly the codeword is used. */
  lemma UeBack(v: nat, rest: Bits)
    requires v <= 0x7fff_fffe
    ensures ReadUe(UeCode(v) + rest) == Got(v, rest)
  {
    hide Fixed, Digits, Pow2;
    var k := Digits(v + 1);
    DigitsBound(v);
    var digits := v + 1 - Pow2(k);
    var tail := [true] + (Fixed(digits, k) + rest);
    assert UeCode(v) + rest == seq(k, _ => false) + tail;
    ZerosBack(k, 0, tail);
    assert tail[1..] == Fixed(digits, k) + rest;
    FixedBack(digits, k, rest);
  }

  lemma DigitsBound(v: nat)
    ensures Digits(v + 1) <= 30 <==> v <= 0x7fff_fffe
  {
    Pow2Values();
    if Digits(v + 1) <= 30 {
      Pow2Monotone(Digits(v + 1), 30);
    } else {
      Pow2Monotone(31, Digits(v + 1));
    }
  }

  /** Larger values are refused whatever follows: the bound above is exact. */
  lemma UeTooLarge(v: nat, rest: Bits)
    requires v > 0x7fff_fffe
    ensures ReadUe(UeCode(v) + rest) == Short
  {
    var k := Digits(v + 1);
    DigitsBound(v);
    var tail := seq(k - 31, _ => false) + ([true] + (Fixed(v + 1 - Pow2(k), k) + rest));
    assert UeCode(v) + rest == seq(31, _ => false) + tail;
    ZerosBack(31, 0, tail);
  }

  /** The parser's cursor over a byte string. */
  class Reader {
    const data: Bytes
    var bit: nat

    ghost predicate Valid()
      reads this
    {
      bit <= 8 * |data|
    }

    ghost function Left(): Bits
      reads this
      requires Valid()
    {
      BitsOf(data)[bit..]
    }

    constructor (data: Bytes)
      ensures Valid() && this.data == data && Left() == BitsOf(data)
    {
      this.data := data;
      bit := 0;
    }

    method Read(n: nat) returns (r: Option<u32>)
      requires Valid()
      modifies this
      ensures Valid()
      ensures match ReadBits(old(Left()), n)
              case Short => r.None? && Left() == old(Left())
              case Got(v, rest) => r == Some(v) && Left() == rest
    {
      hide BitsOf, BitNumber;
      if n > 32 || n > 8 * |data| - bit {
        return None;
      }
      var v: u32 := 0;
      ghost var start := bit;
      for i := 0 to n
        invariant bit == start + i && bit <= 8 * |data|
        invariant v == Value(BitsOf(data)[start..start + i])
      {
        OneMoreBit(data, start, i);
        v := v * 2 + BitNumber(data, bit);
        bit := bit + 1;
      }
      assert old(Left())[..n] == BitsOf(data)[start..start + n];
      r := Some(v);
    }

    method ReadOne() returns (r: Option<bool>)
      requires Valid()
      modifies this
      ensures Valid()
      ensures if old(Left()) == [] then r.None? else r == Some(old(Left())[0]) && Left() == old(Left())[1..]
    {
      OneBit(Left());
      var one := Read(1);
      r := if one.None? then None else Some(one.value == 1);
    }

    /** An Exp-Golomb value; after a failure the cursor may have moved. */
    method ReadUeValue() returns (r: Option<u32>)
      requires Valid()
      modifies this
      ensures Valid()
      ensures match ReadUe(old(Left()))
              case Short => r.None?
              case Got(v, rest) => r == Some(v) && Left() == rest
    {
      hide ReadBits, BitsOf;
      ghost var all := Left();
      var zeros := 0;
      while zeros < 31
        invariant Valid() && zeros <= 31
        invariant ReadUeFrom(Left(), zeros) == ReadUeFrom(all, 0)
      {
        var one := ReadOne();
        if one.None? {
          return None;
        }
        if one.value {
          r := ReadSuffix(zeros);
          return;
        }
        zeros := zeros + 1;
      }
      return None;
    }

    method ReadSuffix(zeros: nat) returns (r: Option<u32>)
      requires Valid() && zeros < 31
      modifies this
      ensures Valid()
      ensures match ReadBits(old(Left()), zeros)
              case Short => r.None?
              case Got(v, rest) => r == Some(Pow2(zeros) - 1 + v) && Left() == rest
    {
      SuffixFits(zeros, Left());
      var suffix := Read(zeros);
      r := if suffix.None? then None else Some(Pow2(zeros) - 1 + suffix.value);
    }
  }

  lemma OneBit(bits: Bits)
    ensures ReadBits(bits, 1) == if bits == [] then Short else Got(Bit(bits[0]), bits[1..])
  {
    if bits != [] {
      assert bits[..1] == [bits[0]];
      assert Value([bits[0]]) == 2 * Value([bits[0]][..0]) + Bit(bits[0]);
    }
  }

  lemma Pow2Values()
    ensures Pow2(30) == 0x4000_0000 && Pow2(31) == 0x8000_0000 && Pow2(32) == U32
  {
    assert Pow2(8) == 0x100 && Pow2(16) == 0x1_0000 && Pow2(24) == 0x100_0000;
  }

  lemma BitAt(data: Bytes, k: nat)
    requires k < 8 * |data|
    ensures Bit(BitsOf(data)[k]) == BitNumber(data, k)
  {
    hide Pow2;
  }

  lemma OneMoreBit(data: Bytes, start: nat, i: nat)
    requires start + i < 8 * |data| && i < 32
    ensures Value(BitsOf(data)[start..start + i + 1]) ==
            Value(BitsOf(data)[start..start + i]) * 2 + BitNumber(data, start + i) < U32
  {
    hide BitsOf, BitNumber, Pow2;
    var bits := BitsOf(data)[start..start + i + 1];
    assert bits[..i] == BitsOf(data)[start..start + i];
    BitAt(data, start + i);
    ValueBound(bits);
    Pow2Monotone(i + 1, 32);
    Pow2Values();
  }

  lemma SuffixFits(zeros: nat, bits: Bits)
    requires zeros < 31
    ensures ReadBits(bits, zeros).Got? ==> Pow2(zeros) - 1 + ReadBits(bits, zeros).value < U32
  {
    if zeros <= |bits| {
      ValueBound(bits[..zeros]);
      Pow2Monotone(zeros, 30);
      Pow2Values();
    }
  }
}
