/** The HEVC decoder configuration record (section 8.3.3.1 of ISO/IEC 14496-15) as the H.265 decoder
    reads it: arrays of NAL units with two-byte lengths, turned into one packet with start codes. */
module HvccConfig {
  import opened Words
  import opened StartCodes
  import opened AnnexBStream
  import opened LengthPrefixed
  import opened NalSplitter

  datatype Array = Array(kind: u8, nals: seq<Bytes>)

  /** Something read, and the bytes after it. */
  datatype Taken<+T> = Malformed | Taken(value: T, rest: Bytes)

  function TakeNals(data: Bytes, count: nat): (t: Taken<seq<Bytes>>)
    ensures t.Taken? ==> |t.rest| <= |data|
  {
    if count == 0 then Taken([], data)
    else if |data| < 2 then Malformed
    else
      var n := BigEndian(data[..2]);
      if n > |data| - 2 then Malformed
      else
        match TakeNals(data[2 + n..], count - 1)
        case Malformed => Malformed
        case Taken(nals, rest) => Taken([data[2..2 + n]] + nals, rest)
  }

  function TakeArray(data: Bytes): (t: Taken<Array>) {
    if |data| < 3 then Malformed
    else
      match TakeNals(data[3..], BigEndian(data[1..3]))
      case Malformed => Malformed
      case Taken(nals, rest) => Taken(Array(data[0], nals), rest)
  }

  function TakeArrays(data: Bytes, count: nat): Taken<seq<Array>>
    decreases count
  {
    if count == 0 then Taken([], data)
    else
      match TakeArray(data)
      case Malformed => Malformed
      case Taken(group, rest) =>
        match TakeArrays(rest, count - 1)
        case Malformed => Malformed
        case Taken(arrays, after) => Taken([group] + arrays, after)
  }

  predicate IsRecord(data: Bytes) {
    |data| > 23 && data[0] == 1
  }

  /** The arrays of a record; bytes after the last are ignored. */
  function Arrays(data: Bytes): Option<seq<Array>>
    requires IsRecord(data)
  {
    match TakeArrays(data[23..], data[22])
    case Malformed => None
    case Taken(arrays, _) => Some(arrays)
  }

  function AllNals(arrays: seq<Array>): seq<Bytes> {
    if arrays == [] then [] else arrays[0].nals + AllNals(arrays[1..])
  }

  /** The packet for a record, unless there is nothing for it or too much. */
  function RecordPacket(data: Bytes): Option<Bytes>
    requires IsRecord(data)
  {
    var arrays := Arrays(data);
    if arrays.None? then None
    else
      var packet := Coded(AllNals(arrays.value));
      if packet == [] || |packet| > 0x7fff_ffff then None else Some(packet)
  }

  // Writing a record.

  function NalBytes(nal: Bytes): Bytes {
    LowBytes(|nal|, 2) + nal
  }

  function NalsBytes(nals: seq<Bytes>): Bytes {
    if nals == [] then [] else NalBytes(nals[0]) + NalsBytes(nals[1..])
  }

  function ArrayBytes(group: Array): Bytes {
    [group.kind] + LowBytes(|group.nals|, 2) + NalsBytes(group.nals)
  }

  function ArraysBytes(arrays: seq<Array>): Bytes {
    if arrays == [] then [] else ArrayBytes(arrays[0]) + ArraysBytes(arrays[1..])
  }

  predicate NalsFit(nals: seq<Bytes>) {
    |nals| < 0x1_0000 && forall i | 0 <= i < |nals| :: |nals[i]| < 0x1_0000
  }

  predicate ArraysFit(arrays: seq<Array>) {
    |arrays| < 0x100 && forall i | 0 <= i < |arrays| :: NalsFit(arrays[i].nals)
  }

  lemma TwoBytes(n: nat)
    requires n < 0x1_0000
    ensures BigEndian(LowBytes(n, 2)) == n
  {
    assert Pow256(2) == 0x1_0000;
    BigEndianOfLow(n, 2);
  }

  lemma TwoBytesBack(p: Bytes)
    requires |p| == 2
    ensures LowBytes(BigEndian(p), 2) == p && BigEndian(p) < 0x1_0000
  {
    LowOfBigEndian(p);
    BigEndianBound(p);
    assert Pow256(2) == 0x1_0000;
  }

  lemma TakeOneNal(nal: Bytes, rest: Bytes, count: nat)
    requires |nal| < 0x1_0000 && 0 < count
    ensures TakeNals(NalBytes(nal) + rest, count) ==
            match TakeNals(rest, count - 1)
            case Malformed => Malformed
            case Taken(nals, after) => Taken([nal] + nals, after)
  {
    var data := NalBytes(nal) + rest;
    TwoBytes(|nal|);
    assert data[..2] == LowBytes(|nal|, 2) && data[2..2 + |nal|] == nal && data[2 + |nal|..] == rest;
  }

  lemma NalsStep(nals: seq<Bytes>, rest: Bytes)
    requires nals != []
    ensures NalsBytes(nals) + rest == NalBytes(nals[0]) + (NalsBytes(nals[1..]) + rest)
  {
    hide NalBytes;
  }

  lemma {:induction false} TakeWrittenNals(nals: seq<Bytes>, rest: Bytes)
    requires forall i | 0 <= i < |nals| :: |nals[i]| < 0x1_0000
    ensures TakeNals(NalsBytes(nals) + rest, |nals|) == Taken(nals, rest)
  {
    if nals == [] {
      assert [] + rest == rest;
    } else {
      hide NalBytes, NalsBytes, TakeNals;
      TakeWrittenNals(nals[1..], rest);
      NalsStep(nals, rest);
      TakeOneNal(nals[0], NalsBytes(nals[1..]) + rest, |nals|);
      assert [nals[0]] + nals[1..] == nals;
    }
  }

  lemma TakeWrittenArray(group: Array, rest: Bytes)
    requires NalsFit(group.nals)
    ensures TakeArray(ArrayBytes(group) + rest) == Taken(group, rest)
  {
    hide TakeNals, NalsBytes, LowBytes, BigEndian;
    ArrayHeader(group, rest);
    TwoBytes(|group.nals|);
    TakeWrittenNals(group.nals, rest);
  }

  lemma ArrayHeader(group: Array, rest: Bytes)
    ensures var data := ArrayBytes(group) + rest;
            && |data| >= 3 && data[0] == group.kind && data[1..3] == LowBytes(|group.nals|, 2)
            && data[3..] == NalsBytes(group.nals) + rest
  {
    hide NalsBytes, LowBytes;
  }

  lemma {:induction false} TakeWrittenArrays(arrays: seq<Array>, rest: Bytes)
    requires forall i | 0 <= i < |arrays| :: NalsFit(arrays[i].nals)
    ensures TakeArrays(ArraysBytes(arrays) + rest, |arrays|) == Taken(arrays, rest)
  {
    if arrays == [] {
      assert [] + rest == rest;
    } else {
      hide ArrayBytes, TakeArray, NalsFit;
      var others := ArraysBytes(arrays[1..]);
      TakeWrittenArrays(arrays[1..], rest);
      assert ArraysBytes(arrays) + rest == ArrayBytes(arrays[0]) + (others + rest);
      hide ArraysBytes, TakeArrays;
      TakeOneArray(arrays[0], others + rest, |arrays|);
      assert [arrays[0]] + arrays[1..] == arrays;
    }
  }

  lemma TakeOneArray(group: Array, rest: Bytes, count: nat)
    requires NalsFit(group.nals) && 0 < count
    ensures TakeArrays(ArrayBytes(group) + rest, count) ==
            match TakeArrays(rest, count - 1)
            case Malformed => Malformed
            case Taken(arrays, after) => Taken([group] + arrays, after)
  {
    hide ArrayBytes, TakeArray, NalsFit;
    TakeWrittenArray(group, rest);
  }

  lemma NalIs(data: Bytes, n: nat, more: Bytes, rest: Bytes)
    requires |data| >= 2 && n == BigEndian(data[..2]) <= |data| - 2 && data[2 + n..] == more + rest
    ensures NalBytes(data[2..2 + n]) + more + rest == data && |data[2..2 + n]| < 0x1_0000
  {
    TwoBytesBack(data[..2]);
    assert data == data[..2] + data[2..2 + n] + data[2 + n..];
  }

  lemma {:induction false} TakenNalsAre(data: Bytes, count: nat)
    ensures match TakeNals(data, count)
            case Malformed => true
            case Taken(nals, rest) =>
              |nals| == count && (forall i | 0 <= i < |nals| :: |nals[i]| < 0x1_0000) && NalsBytes(nals) + rest == data
  {
    match TakeNals(data, count) {
      case Malformed =>
      case Taken(nals, rest) =>
        if count == 0 {
          assert [] + rest == rest;
        } else {
          var n := BigEndian(data[..2]);
          TakenNalsAre(data[2 + n..], count - 1);
          var others := TakeNals(data[2 + n..], count - 1).value;
          NalIs(data, n, NalsBytes(others), rest);
          assert nals[0] == data[2..2 + n] && nals[1..] == others;
        }
    }
  }

  lemma TakenArrayIs(data: Bytes)
    ensures match TakeArray(data)
            case Malformed => true
            case Taken(group, rest) => NalsFit(group.nals) && ArrayBytes(group) + rest == data
  {
    hide TakeNals, NalsBytes, LowBytes, BigEndian;
    match TakeArray(data) {
      case Malformed =>
      case Taken(group, rest) =>
        TakenNalsAre(data[3..], BigEndian(data[1..3]));
        TwoBytesBack(data[1..3]);
        assert data == [data[0]] + data[1..3] + data[3..];
    }
  }

  lemma {:induction false} TakenArraysAre(data: Bytes, count: nat)
    ensures match TakeArrays(data, count)
            case Malformed => true
            case Taken(arrays, rest) =>
              |arrays| == count && (forall i | 0 <= i < |arrays| :: NalsFit(arrays[i].nals))
              && ArraysBytes(arrays) + rest == data
    decreases count
  {
    hide TakeArray, ArrayBytes, NalsFit;
    match TakeArrays(data, count) {
      case Malformed =>
      case Taken(arrays, rest) =>
        if count == 0 {
          assert [] + rest == rest;
        } else {
          TakenArrayIs(data);
          var after := TakeArray(data).rest;
          TakenArraysAre(after, count - 1);
          var others := TakeArrays(after, count - 1).value;
          assert arrays[0] == TakeArray(data).value && arrays[1..] == others;
          assert ArrayBytes(arrays[0]) + (ArraysBytes(others) + rest) == ArraysBytes(arrays) + rest;
        }
    }
  }

  /** The bytes of a record. */
  predicate IsRecordOf(data: Bytes, arrays: seq<Array>, trailing: Bytes) {
    |arrays| < 0x100 && |data| > 23 && data[22] == |arrays| && data[23..] == ArraysBytes(arrays) + trailing
  }

  lemma RecordReads(data: Bytes, arrays: seq<Array>, trailing: Bytes)
    requires IsRecord(data) && ArraysFit(arrays) && IsRecordOf(data, arrays, trailing)
    ensures Arrays(data) == Some(arrays)
  {
    TakeWrittenArrays(arrays, trailing);
  }

  lemma RecordWasWritten(data: Bytes, arrays: seq<Array>)
    requires IsRecord(data) && Arrays(data) == Some(arrays)
    ensures ArraysFit(arrays) && IsRecordOf(data, arrays, TakeArrays(data[23..], data[22]).rest)
  {
    TakenArraysAre(data[23..], data[22]);
  }

  /** A record is accepted exactly when it was written from arrays that fit, and they are what is
      read: nothing is lost, and nothing else is taken for a record. */
  lemma RecordRoundTrip(data: Bytes, arrays: seq<Array>)
    requires IsRecord(data)
    ensures Arrays(data) == Some(arrays) <==>
            ArraysFit(arrays) && exists trailing :: IsRecordOf(data, arrays, trailing)
  {
    hide ArraysFit, IsRecordOf, TakeArrays;
    if Arrays(data) == Some(arrays) {
      RecordWasWritten(data, arrays);
      assert IsRecordOf(data, arrays, TakeArrays(data[23..], data[22]).rest);
    }
    if ArraysFit(arrays) && exists trailing :: IsRecordOf(data, arrays, trailing) {
      var trailing :| IsRecordOf(data, arrays, trailing);
      RecordReads(data, arrays, trailing);
    }
  }

  // The decoder's two passes.

  function Prepended(nal: Bytes, t: Taken<seq<Bytes>>): Taken<seq<Bytes>> {
    if t.Malformed? then Malformed else Taken([nal] + t.value, t.rest)
  }

  lemma NalStep(data: Bytes, q: nat, count: nat)
    requires q <= |data| && count > 0
    ensures var t := TakeNals(data[q..], count);
            if q + 2 > |data| || q + 2 + BigEndian(data[q..q + 2]) > |data| then t.Malformed?
            else
              var end := q + 2 + BigEndian(data[q..q + 2]);
              t == Prepended(data[q + 2..end], TakeNals(data[end..], count - 1))
  {
    var tail := data[q..];
    if |tail| >= 2 {
      assert tail[..2] == data[q..q + 2];
      var n := BigEndian(data[q..q + 2]);
      if q + 2 + n <= |data| {
        assert tail[2..2 + n] == data[q + 2..q + 2 + n] && tail[2 + n..] == data[q + 2 + n..];
      }
    }
  }

  /** Reading `count` units from `q` on leads to `goal`, with `size` bytes counted before them and
      `total` in all. */
  predicate Measures(data: Bytes, q: nat, count: nat, size: nat, goal: Taken<seq<Bytes>>, total: nat) {
    && q <= |data|
    && var t := TakeNals(data[q..], count);
       && t.Taken? == goal.Taken?
       && (t.Taken? ==> t.rest == goal.rest && size + |Coded(t.value)| == total)
  }

  lemma MeasureStep(data: Bytes, q: nat, count: nat, size: nat, goal: Taken<seq<Bytes>>, total: nat)
    requires Measures(data, q, count, size, goal, total) && count > 0
    ensures if q + 2 > |data| || q + 2 + BigEndian(data[q..q + 2]) > |data| then goal.Malformed?
            else
              var n := BigEndian(data[q..q + 2]);
              Measures(data, q + 2 + n, count - 1, size + 4 + n, goal, total)
  {
    hide TakeNals, BigEndian;
    NalStep(data, q, count);
    if q + 2 <= |data| && q + 2 + BigEndian(data[q..q + 2]) <= |data| {
      var end := q + 2 + BigEndian(data[q..q + 2]);
      var unit, t := data[q + 2..end], TakeNals(data[end..], count - 1);
      if t.Taken? {
        CodedStep([unit] + t.value);
        assert ([unit] + t.value)[1..] == t.value;
      }
    }
  }

  /** The validating pass over the units of one array. */
  method MeasureNals(data: Bytes, start: nat, count: nat) returns (ok: bool, q: nat, size: nat)
    requires start <= |data|
    ensures var t := TakeNals(data[start..], count);
            && ok == t.Taken?
            && (ok ==> q <= |data| && t.rest == data[q..] && size == |Coded(t.value)|)
  {
    hide TakeNals, BigEndian;
    q, size := start, 0;
    ghost var goal := TakeNals(data[start..], count);
    ghost var total := if goal.Taken? then |Coded(goal.value)| else 0;
    for i := 0 to count
      invariant Measures(data, q, count - i, size, goal, total)
    {
      MeasureStep(data, q, count - i, size, goal, total);
      if q + 2 > |data| {
        return false, q, size;
      }
      var n := BigEndian(data[q..q + 2]);
      q := q + 2;
      if q + n > |data| {
        return false, q, size;
      }
      size := size + 4 + n;
      q := q + n;
    }
    NoneTaken(data[q..]);
    ok := true;
  }

  lemma NoneTaken(data: Bytes)
    ensures TakeNals(data, 0) == Taken([], data) && Coded([]) == []
  {
  }

  function PrependedAll(group: Array, t: Taken<seq<Array>>): Taken<seq<Array>> {
    if t.Malformed? then Malformed else Taken([group] + t.value, t.rest)
  }

  /** One array from `q` on: its header, and its units. */
  lemma ArrayStep(data: Bytes, q: nat, count: nat)
    requires q <= |data| && count > 0
    ensures var t := TakeArrays(data[q..], count);
            if q + 3 > |data| then t.Malformed?
            else
              match TakeNals(data[q + 3..], BigEndian(data[q + 1..q + 3]))
              case Malformed => t.Malformed?
              case Taken(nals, rest) => t == PrependedAll(Array(data[q], nals), TakeArrays(rest, count - 1))
  {
    var tail := data[q..];
    if |tail| >= 3 {
      assert tail[1..3] == data[q + 1..q + 3] && tail[3..] == data[q + 3..] && tail[0] == data[q];
    }
  }

  lemma AllNalsCons(group: Array, rest: seq<Array>)
    ensures AllNals([group] + rest) == group.nals + AllNals(rest)
  {
    assert ([group] + rest)[1..] == rest;
  }

  predicate MeasuresAll(data: Bytes, q: nat, count: nat, size: nat, goal: Taken<seq<Array>>, total: nat) {
    && q <= |data|
    && var t := TakeArrays(data[q..], count);
       && t.Taken? == goal.Taken?
       && (t.Taken? ==> size + |Coded(AllNals(t.value))| == total)
  }

  lemma MeasureAllStep(data: Bytes, q: nat, count: nat, size: nat, goal: Taken<seq<Array>>, total: nat)
    requires MeasuresAll(data, q, count, size, goal, total) && count > 0
    ensures if q + 3 > |data| then goal.Malformed?
            else
              match TakeNals(data[q + 3..], BigEndian(data[q + 1..q + 3]))
              case Malformed => goal.Malformed?
              case Taken(nals, rest) =>
                forall end: nat | end <= |data| && rest == data[end..] ::
                  MeasuresAll(data, end, count - 1, size + |Coded(nals)|, goal, total)
  {
    hide TakeNals, TakeArrays, BigEndian, AllNals;
    ArrayStep(data, q, count);
    if q + 3 <= |data| && TakeNals(data[q + 3..], BigEndian(data[q + 1..q + 3])).Taken? {
      var one := TakeNals(data[q + 3..], BigEndian(data[q + 1..q + 3]));
      var t := TakeArrays(one.rest, count - 1);
      if t.Taken? {
        AllNalsCons(Array(data[q], one.value), t.value);
        CodedConcat(one.value, AllNals(t.value));
      }
    }
  }

  lemma NoArraysTaken(data: Bytes)
    ensures TakeArrays(data, 0) == Taken([], data) && Coded(AllNals([])) == []
  {
  }

  /** The validating pass: every length is checked before anything is read with it. */
  method MeasureArrays(data: Bytes) returns (ok: bool, outSize: nat)
    requires IsRecord(data)
    ensures ok == Arrays(data).Some? && (ok ==> outSize == |Coded(AllNals(Arrays(data).value))|)
  {
    hide TakeNals, TakeArrays, BigEndian, AllNals, MeasuresAll;
    var q: nat, numArrays := 23, data[22];
    outSize := 0;
    ghost var goal := TakeArrays(data[23..], data[22]);
    ghost var total := if goal.Taken? then |Coded(AllNals(goal.value))| else 0;
    MeasureAllStarts(data, goal, total);
    for ai := 0 to numArrays
      invariant q <= |data| && MeasuresAll(data, q, numArrays - ai, outSize, goal, total)
    {
      MeasureAllStep(data, q, numArrays - ai, outSize, goal, total);
      if q + 3 > |data| {
        return false, outSize;
      }
      q := q + 1;
      var numNalus := BigEndian(data[q..q + 2]);
      var fits, size;
      fits, q, size := MeasureNals(data, q + 2, numNalus);
      if !fits {
        return false, outSize;
      }
      outSize := outSize + size;
    }
    MeasureAllEnds(data, q, outSize, goal, total);
    ok := true;
  }

  lemma MeasureAllStarts(data: Bytes, goal: Taken<seq<Array>>, total: nat)
    requires IsRecord(data) && goal == TakeArrays(data[23..], data[22])
    requires goal.Taken? ==> total == |Coded(AllNals(goal.value))|
    ensures MeasuresAll(data, 23, data[22], 0, goal, total)
  {
  }

  lemma MeasureAllEnds(data: Bytes, q: nat, size: nat, goal: Taken<seq<Array>>, total: nat)
    requires MeasuresAll(data, q, 0, size, goal, total)
    ensures goal.Taken? && size == total
  {
    NoArraysTaken(data[q..]);
  }

  /** `done` is what the units before `q` have become on the way to `whole`. */
  predicate Fills(data: Bytes, q: nat, count: nat, done: Bytes, goal: Taken<seq<Bytes>>, whole: Bytes) {
    && q <= |data|
    && var t := TakeNals(data[q..], count);
       t.Taken? && goal.Taken? && t.rest == goal.rest && done + Coded(t.value) == whole
  }

  lemma FillStep(data: Bytes, q: nat, count: nat, done: Bytes, goal: Taken<seq<Bytes>>, whole: Bytes)
    requires Fills(data, q, count, done, goal, whole) && count > 0
    ensures q + 2 <= |data| && q + 2 + BigEndian(data[q..q + 2]) <= |data|
    ensures var begin, end := q + 2, q + 2 + BigEndian(data[q..q + 2]);
            && Fills(data, end, count - 1, done + ([0, 0, 0, 1] + data[begin..end]), goal, whole)
            && |done| + 4 + (end - begin) <= |whole|
  {
    hide TakeNals, BigEndian;
    NalStep(data, q, count);
    var end := q + 2 + BigEndian(data[q..q + 2]);
    var unit, t := data[q + 2..end], TakeNals(data[end..], count - 1);
    CodedStep([unit] + t.value);
    assert ([unit] + t.value)[1..] == t.value;
    var code: Bytes := [0, 0, 0, 1];
    assert done + (code + unit + Coded(t.value)) == done + (code + unit) + Coded(t.value);
  }

  lemma FillEnds(data: Bytes, q: nat, done: Bytes, goal: Taken<seq<Bytes>>, whole: Bytes)
    requires Fills(data, q, 0, done, goal, whole)
    ensures goal.Taken? && goal.rest == data[q..] && done == whole
  {
    NoneTaken(data[q..]);
    assert done + [] == done;
  }

  /** The writing pass over the units of one array: no check is left, and none is needed. */
  method FillNals(data: Bytes, start: nat, count: nat, out: array<u8>, from: nat) returns (q: nat, at: nat)
    requires start <= |data| && TakeNals(data[start..], count).Taken?
    requires from + |Coded(TakeNals(data[start..], count).value)| <= out.Length
    modifies out
    ensures q <= |data| && TakeNals(data[start..], count).rest == data[q..]
    ensures at == from + |Coded(TakeNals(data[start..], count).value)|
    ensures out[..at] == old(out[..from]) + Coded(TakeNals(data[start..], count).value)
  {
    hide TakeNals, BigEndian, Fills;
    q, at := start, from;
    ghost var goal := TakeNals(data[start..], count);
    ghost var whole := out[..from] + Coded(goal.value);
    FillStarts(data, start, count, out[..from], goal, whole);
    for i := 0 to count
      invariant q <= |data| && at <= out.Length && Fills(data, q, count - i, out[..at], goal, whole)
    {
      FillStep(data, q, count - i, out[..at], goal, whole);
      var n := BigEndian(data[q..q + 2]);
      q := q + 2;
      at := PutCoded(out, at, data[q..q + n]);
      q := q + n;
    }
    FillEnds(data, q, out[..at], goal, whole);
  }

  lemma FillStarts(data: Bytes, q: nat, count: nat, done: Bytes, goal: Taken<seq<Bytes>>, whole: Bytes)
    requires q <= |data| && goal == TakeNals(data[q..], count) && goal.Taken? && whole == done + Coded(goal.value)
    ensures Fills(data, q, count, done, goal, whole)
  {
  }

  predicate FillsAll(data: Bytes, q: nat, count: nat, done: Bytes, whole: Bytes) {
    && q <= |data|
    && var t := TakeArrays(data[q..], count);
       t.Taken? && done + Coded(AllNals(t.value)) == whole
  }

  lemma FillAllStep(data: Bytes, q: nat, count: nat, done: Bytes, whole: Bytes)
    requires FillsAll(data, q, count, done, whole) && count > 0
    ensures q + 3 <= |data|
    ensures var one := TakeNals(data[q + 3..], BigEndian(data[q + 1..q + 3]));
            && one.Taken? && |done| + |Coded(one.value)| <= |whole|
            && forall end: nat | end <= |data| && one.rest == data[end..] ::
                 FillsAll(data, end, count - 1, done + Coded(one.value), whole)
  {
    hide TakeNals, TakeArrays, BigEndian, AllNals;
    ArrayStep(data, q, count);
    var one := TakeNals(data[q + 3..], BigEndian(data[q + 1..q + 3]));
    var t := TakeArrays(one.rest, count - 1);
    AllNalsCons(Array(data[q], one.value), t.value);
    CodedConcat(one.value, AllNals(t.value));
    var first, others := Coded(one.value), Coded(AllNals(t.value));
    assert done + (first + others) == done + first + others;
  }

  lemma FillAllStarts(data: Bytes)
    requires IsRecord(data) && Arrays(data).Some?
    ensures FillsAll(data, 23, data[22], [], Coded(AllNals(Arrays(data).value)))
  {
    assert [] + Coded(AllNals(Arrays(data).value)) == Coded(AllNals(Arrays(data).value));
  }

  lemma FillAllEnds(data: Bytes, q: nat, done: Bytes, whole: Bytes)
    requires FillsAll(data, q, 0, done, whole)
    ensures done == whole
  {
    NoArraysTaken(data[q..]);
    assert done + [] == done;
  }

  /** The writing pass: it stays inside the record, and fills the packet to the last byte. */
  method FillArrays(data: Bytes, out: array<u8>)
    requires IsRecord(data) && Arrays(data).Some? && out.Length == |Coded(AllNals(Arrays(data).value))|
    modifies out
    ensures out[..] == Coded(AllNals(Arrays(data).value))
  {
    hide TakeNals, TakeArrays, BigEndian, AllNals, FillsAll, Arrays;
    var p: nat, numArrays, at: nat := 23, data[22], 0;
    ghost var whole := Coded(AllNals(Arrays(data).value));
    FillAllStarts(data);
    assert out[..0] == [];
    for ai := 0 to numArrays
      invariant p <= |data| && at <= out.Length && FillsAll(data, p, numArrays - ai, out[..at], whole)
    {
      FillAllStep(data, p, numArrays - ai, out[..at], whole);
      p := p + 1;
      var numNalus := BigEndian(data[p..p + 2]);
      p, at := FillNals(data, p + 2, numNalus, out, at);
    }
    FillAllEnds(data, p, out[..at], whole);
    assert |out[..at]| == at && out[..at] == out[..];
  }

  method PacketFromRecord(data: Bytes) returns (packet: Option<array<u8>>)
    requires IsRecord(data)
    ensures packet.Some? == RecordPacket(data).Some?
    ensures packet.Some? ==> fresh(packet.value) && packet.value[..] == RecordPacket(data).value
  {
    var ok, outSize := MeasureArrays(data);
    if !ok || outSize == 0 || outSize > 0x7fff_ffff {
      return None;
    }
    var out := new u8[outSize];
    FillArrays(data, out);
    packet := Some(out);
  }

  /** What the H.265 decoder gets for a buffer. */
  function Packet265(data: Bytes): Option<Bytes> {
    if IsRecord(data) then RecordPacket(data) else Packet(data)
  }

  method PacketFromBuffer265(data: Bytes) returns (packet: Option<array<u8>>)
    ensures packet.Some? == Packet265(data).Some?
    ensures packet.Some? ==> fresh(packet.value) && packet.value[..] == Packet265(data).value
  {
    if IsRecord(data) {
      packet := PacketFromRecord(data);
    } else {
      packet := PacketFromBuffer(data);
    }
  }

  /** The parameter sets of a record reach the decoder as the parser would split them, whatever
      follows them in the buffer. */
  lemma ParameterSetsArrive(cfg: Config, data: Bytes, arrays: seq<Array>, trailing: Bytes)
    requires ValidConfig(cfg) && IsRecord(data) && ArraysFit(arrays) && IsRecordOf(data, arrays, trailing)
    requires AllNals(arrays) != [] && Separable(AllNals(arrays), AllLong(|AllNals(arrays)|))
    requires |Coded(AllNals(arrays))| <= 0x7fff_ffff
    ensures Packet265(data).Some?
    ensures UnitsOf(SplitAll(cfg, AnnexB, Packet265(data).value, true).nals) == AllNals(arrays)
  {
    RecordReads(data, arrays, trailing);
    var units := AllNals(arrays);
    CodedStep(units);
    SplitStream(cfg, units, AllLong(|units|));
  }

  /** A length-prefixed buffer is taken for a record exactly when its first length has 1 in its
      high byte. */
  lemma TakenForRecord(units: seq<Bytes>)
    requires Sized(units) && units != []
    ensures IsRecord(BoxedAll(units)) <==> 0x100_0000 <= |units[0]| < 0x200_0000
  {
    var data, n: u32 := BoxedAll(units), |units[0]|;
    assert data[..4] == Prefix(n) && data[0] == data[..4][0];
    PrefixBytes(n);
  }
}
