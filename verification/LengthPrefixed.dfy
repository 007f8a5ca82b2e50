/** NAL units with four-byte big-endian lengths in front, and the H.264 decoder's conversion of
    them to start codes. */
module LengthPrefixed {
  import opened Words
  import opened StartCodes
  import opened AnnexBStream
  import opened NalSplitter

  /** The low `k` bytes of `n`, the high one first. */
  function LowBytes(n: nat, k: nat): (p: Bytes)
    ensures |p| == k
  {
    if k == 0 then [] else LowBytes(n / 0x100, k - 1) + [n % 0x100]
  }

  function Prefix(n: nat): (p: Bytes)
    ensures |p| == 4
  {
    LowBytes(n, 4)
  }

  function Pow256(k: nat): nat {
    if k == 0 then 1 else 0x100 * Pow256(k - 1)
  }

  lemma {:induction false} BigEndianOfLow(n: nat, k: nat)
    requires n < Pow256(k)
    ensures BigEndian(LowBytes(n, k)) == n
  {
    if k > 0 {
      BigEndianOfLow(n / 0x100, k - 1);
      assert LowBytes(n, k)[..k - 1] == LowBytes(n / 0x100, k - 1);
    }
  }

  lemma {:induction false} LowOfBigEndian(p: Bytes)
    ensures LowBytes(BigEndian(p), |p|) == p
  {
    if p != [] {
      LowOfBigEndian(p[..|p| - 1]);
    }
  }

  lemma {:induction false} BigEndianBound(p: Bytes)
    ensures BigEndian(p) < Pow256(|p|)
  {
    if p != [] {
      BigEndianBound(p[..|p| - 1]);
    }
  }

  lemma LengthBound(p: Bytes)
    requires |p| == 4
    ensures BigEndian(p) < U32
  {
    assert Pow256(2) == 0x1_0000 && Pow256(4) == U32;
    BigEndianBound(p);
  }

  lemma LengthOfPrefix(n: u32)
    ensures BigEndian(Prefix(n)) == n
  {
    assert Pow256(2) == 0x1_0000 && Pow256(4) == U32;
    BigEndianOfLow(n, 4);
  }

  /** The four bytes as shifts show them. */
  lemma PrefixBytes(n: nat)
    ensures Prefix(n) == [n / 0x100_0000 % 0x100] + [n / 0x1_0000 % 0x100] + [n / 0x100 % 0x100] + [n % 0x100]
  {
    var n1 := n / 0x100;
    var n2 := n1 / 0x100;
    var n3 := n2 / 0x100;
    assert n2 == n / 0x1_0000 && n3 == n / 0x100_0000;
    assert LowBytes(n3, 1) == [n3 % 0x100];
    assert LowBytes(n2, 2) == LowBytes(n3, 1) + [n2 % 0x100];
    assert LowBytes(n1, 3) == LowBytes(n2, 2) + [n1 % 0x100];
  }

  predicate Sized(units: seq<Bytes>) {
    forall i | 0 <= i < |units| :: 0 < |units[i]| < U32
  }

  function Boxed(unit: Bytes): Bytes {
    Prefix(|unit|) + unit
  }

  function BoxedAll(units: seq<Bytes>): Bytes {
    if units == [] then [] else Boxed(units[0]) + BoxedAll(units[1..])
  }

  /** The units of a buffer that is nothing but nonempty length-prefixed units. */
  function Unboxed(data: Bytes): Option<seq<Bytes>> {
    if data == [] then Some([])
    else if |data| < 4 then None
    else
      var n := BigEndian(data[..4]);
      if n == 0 || n > |data| - 4 then None
      else
        var rest := Unboxed(data[4 + n..]);
        if rest.None? then None else Some([data[4..4 + n]] + rest.value)
  }

  lemma UnboxOne(unit: Bytes, rest: Bytes)
    requires 0 < |unit| < U32
    ensures var tail := Unboxed(rest);
            Unboxed(Boxed(unit) + rest) == if tail.None? then None else Some([unit] + tail.value)
  {
    var data, n: u32 := Boxed(unit) + rest, |unit|;
    LengthOfPrefix(n);
    assert data[..4] == Prefix(n);
    assert data[4..4 + n] == unit && data[4 + n..] == rest;
  }

  lemma {:induction false} UnboxBoxed(units: seq<Bytes>)
    requires Sized(units)
    ensures Unboxed(BoxedAll(units)) == Some(units)
  {
    if units != [] {
      UnboxBoxed(units[1..]);
      UnboxOne(units[0], BoxedAll(units[1..]));
      assert [units[0]] + units[1..] == units;
    }
  }

  lemma BoxOne(data: Bytes, unit: Bytes, rest: Bytes)
    requires |data| >= 4 && 0 < |unit| == BigEndian(data[..4]) <= |data| - 4
    requires unit == data[4..4 + |unit|] && rest == data[4 + |unit|..]
    ensures Boxed(unit) + rest == data
  {
    LowOfBigEndian(data[..4]);
  }

  /** A buffer is read as units exactly when it is those units with their lengths. */
  lemma {:induction false} BoxUnboxed(data: Bytes)
    ensures Unboxed(data).Some? ==> Sized(Unboxed(data).value) && BoxedAll(Unboxed(data).value) == data
  {
    if Unboxed(data).Some? && data != [] {
      var n := BigEndian(data[..4]);
      var unit, rest := data[4..4 + n], data[4 + n..];
      LengthBound(data[..4]);
      BoxUnboxed(rest);
      BoxOne(data, unit, rest);
      var units := [unit] + Unboxed(rest).value;
      assert units[1..] == Unboxed(rest).value;
    }
  }

  method LengthsValid(data: Bytes) returns (valid: bool)
    ensures valid <==> data != [] && Unboxed(data).Some?
  {
    var pos, nals := 0, 0;
    assert data[0..] == data;
    while pos + 4 <= |data|
      invariant pos <= |data| && (nals > 0 <==> pos > 0)
      invariant Unboxed(data[pos..]).Some? <==> Unboxed(data).Some?
      decreases |data| - pos
    {
      ghost var tail := data[pos..];
      var n := BigEndian(data[pos..pos + 4]);
      assert tail[..4] == data[pos..pos + 4];
      pos := pos + 4;
      if n == 0 || n > |data| - pos {
        return false;
      }
      assert tail[4 + n..] == data[pos + n..];
      pos := pos + n;
      nals := nals + 1;
    }
    valid := pos == |data| && nals > 0;
  }

  /** Both decoders' test for a buffer that already has start codes. */
  predicate IsAnnexB(data: Bytes) {
    |data| >= 4 && data[0] == 0 && data[1] == 0 && (data[2] == 1 || (data[2] == 0 && data[3] == 1))
  }

  lemma {:induction false} CodedSize(units: seq<Bytes>)
    requires Sized(units)
    ensures |Coded(units)| == |BoxedAll(units)|
  {
    if units != [] {
      CodedStep(units);
      CodedSize(units[1..]);
    }
  }

  /** What the decoder gets for a buffer; nothing for an empty one. */
  function Packet(data: Bytes): Option<Bytes> {
    if data == [] then None
    else if !IsAnnexB(data) && Unboxed(data).Some? then Some(Coded(Unboxed(data).value))
    else Some(data)
  }

  /** The units from `pos` on, if the bytes there are such units. */
  predicate UnitsFrom(data: Bytes, pos: nat) {
    pos <= |data| && Unboxed(data[pos..]).Some?
  }

  function CodedFrom(data: Bytes, pos: nat): Bytes
    requires UnitsFrom(data, pos)
  {
    Coded(Unboxed(data[pos..]).value)
  }

  lemma CodedFromStep(data: Bytes, pos: nat)
    requires pos + 4 <= |data| && UnitsFrom(data, pos)
    ensures var begin := pos + 4;
            var end := begin + BigEndian(data[pos..begin]);
            && begin < end && UnitsFrom(data, end)
            && CodedFrom(data, pos) == [0, 0, 0, 1] + data[begin..end] + CodedFrom(data, end)
  {
    var tail := data[pos..];
    var n := BigEndian(data[pos..pos + 4]);
    assert tail[..4] == data[pos..pos + 4];
    assert tail[4 + n..] == data[pos + 4 + n..] && tail[4..4 + n] == data[pos + 4..pos + 4 + n];
    CodedStep(Unboxed(tail).value);
  }

  /** `done` is what the units in front of `pos` have become on the way to `whole`. */
  predicate Reaches(data: Bytes, pos: nat, done: Bytes, whole: Bytes) {
    UnitsFrom(data, pos) && done + CodedFrom(data, pos) == whole
  }

  lemma CodedOneMore(data: Bytes, pos: nat, end: nat, done: Bytes, whole: Bytes)
    requires Reaches(data, pos, done, whole) && pos + 4 <= |data|
    requires end == pos + 4 + BigEndian(data[pos..pos + 4])
    ensures pos + 4 < end <= |data| && Reaches(data, end, done + ([0, 0, 0, 1] + data[pos + 4..end]), whole)
  {
    CodedFromStep(data, pos);
    var code: Bytes, unit, rest := [0, 0, 0, 1], data[pos + 4..end], CodedFrom(data, end);
    assert done + (code + unit + rest) == done + (code + unit) + rest;
  }

  lemma CodedEnds(data: Bytes, pos: nat, done: Bytes, whole: Bytes)
    requires Reaches(data, pos, done, whole) && pos + 4 > |data|
    ensures pos == |data| && done == whole
  {
    assert done + [] == done;
  }

  /** The conversion loop: the packet is exactly as long as the buffer. */
  method ConvertLengths(data: Bytes, out: array<u8>)
    requires UnitsFrom(data, 0) && out.Length == |data|
    modifies out
    ensures out[..] == CodedFrom(data, 0)
  {
    ghost var whole := CodedFrom(data, 0);
    var pos, at := 0, 0;
    assert out[..0] + whole == whole;
    hide Reaches, CodedFrom, UnitsFrom, BigEndian;
    while pos + 4 <= |data|
      invariant at == pos <= |data| && Reaches(data, pos, out[..at], whole)
      decreases |data| - pos
    {
      var n := BigEndian(data[pos..pos + 4]);
      ghost var done := out[..at];
      CodedOneMore(data, pos, pos + 4 + n, done, whole);
      hide Coded, Prefix;
      pos := pos + 4;
      at := PutCoded(out, at, data[pos..pos + n]);
      pos := pos + n;
    }
    CodedEnds(data, pos, out[..at], whole);
    assert out[..at] == out[..];
  }

  /** A start code and the unit after it. */
  method PutCoded(out: array<u8>, at: nat, unit: Bytes) returns (end: nat)
    requires at + 4 + |unit| <= out.Length
    modifies out
    ensures end == at + 4 + |unit| && out[..end] == old(out[..at]) + ([0, 0, 0, 1] + unit)
  {
    out[at], out[at + 1], out[at + 2], out[at + 3] := 0, 0, 0, 1;
    forall k | 0 <= k < |unit| {
      out[at + 4 + k] := unit[k];
    }
    end := at + 4 + |unit|;
  }

  method PacketFromBuffer(data: Bytes) returns (packet: Option<array<u8>>)
    ensures packet.Some? == Packet(data).Some?
    ensures packet.Some? ==> fresh(packet.value) && packet.value[..] == Packet(data).value
  {
    if data == [] {
      return None;
    }
    var valid := LengthsValid(data);
    var out := new u8[|data|](i requires 0 <= i < |data| => data[i]);
    if !IsAnnexB(data) && valid {
      assert data[0..] == data;
      ConvertLengths(data, out);
    }
    packet := Some(out);
  }

  lemma PacketKeepsSize(data: Bytes)
    requires data != []
    ensures Packet(data).Some? && |Packet(data).value| == |data|
  {
    if Unboxed(data).Some? {
      BoxUnboxed(data);
      CodedSize(Unboxed(data).value);
    }
  }

  /** A length field that reads like a start code. */
  predicate Misleading(length: int) {
    length == 1 || 0x100 <= length < 0x200
  }

  lemma FirstLengthShows(units: seq<Bytes>)
    requires Sized(units) && units != []
    ensures IsAnnexB(BoxedAll(units)) <==> Misleading(|units[0]|)
  {
    var data, n: u32 := BoxedAll(units), |units[0]|;
    assert data[..4] == Prefix(n);
    assert data[0] == data[..4][0] && data[1] == data[..4][1] && data[2] == data[..4][2] && data[3] == data[..4][3];
    PrefixBytes(n);
    hide Prefix, BoxedAll, Sized, Misleading;
    LengthReads(n);
  }

  /** The bytes of a length are those of a start code exactly when it is misleading. */
  lemma LengthReads(n: u32)
    ensures Misleading(n) <==>
            && n / 0x100_0000 % 0x100 == 0 && n / 0x1_0000 % 0x100 == 0
            && (n / 0x100 % 0x100 == 1 || (n / 0x100 % 0x100 == 0 && n % 0x100 == 1))
  {
  }

  predicate AllOnes(units: seq<Bytes>) {
    forall i | 0 <= i < |units| :: |units[i]| == 1
  }

  lemma SameFirst(unit: Bytes, boxed: Bytes, coded: Bytes)
    requires 0 < |unit| < U32
    ensures Boxed(unit) + boxed == [0, 0, 0, 1] + unit + coded <==> |unit| == 1 && boxed == coded
  {
    var a, b := Boxed(unit) + boxed, [0, 0, 0, 1] + unit + coded;
    LengthOfPrefix(|unit|);
    LengthOfPrefix(1);
    PrefixBytes(1);
    assert a[..4] == Prefix(|unit|) && b[..4] == Prefix(1);
    assert a[4 + |unit|..] == boxed && b[4 + |unit|..] == coded;
  }

  /** Lengths and start codes are the same bytes only for units of one byte. */
  lemma {:induction false} SameOnlyForOnes(units: seq<Bytes>)
    requires Sized(units)
    ensures BoxedAll(units) == Coded(units) <==> AllOnes(units)
  {
    if units != [] {
      CodedStep(units);
      SameOnlyForOnes(units[1..]);
      SameFirst(units[0], BoxedAll(units[1..]), Coded(units[1..]));
      assert AllOnes(units) <==> |units[0]| == 1 && AllOnes(units[1..]) by {
        assert units == [units[0]] + units[1..];
      }
    }
  }

  /** A buffer of length-prefixed units reaches the decoder with start codes exactly when its first
      length does not read like one, or nothing had to be changed. */
  lemma ConvertedExactly(units: seq<Bytes>)
    requires Sized(units) && units != []
    ensures Packet(BoxedAll(units)) == Some(Coded(units)) <==> !Misleading(|units[0]|) || AllOnes(units)
  {
    UnboxBoxed(units);
    FirstLengthShows(units);
    SameOnlyForOnes(units);
  }
}
