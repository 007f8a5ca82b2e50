/** Reading a sequence parameter set with the parser's bit cursor, field after field, giving up at
    the first read that fails. Proved to compute SequenceParameters.ParseSps. */
module SpsReader {
  import opened Words
  import opened StartCodes
  import opened EmulationPrevention
  import opened BitReader
  import opened SequenceParameters

  /** A reading as the cursor shows it: the value if any, and where the cursor is then. */
  ghost predicate Shows<T>(reading: Reading<T>, value: Option<T>, left: Bits) {
    match reading
    case Short => value.None?
    case Got(v, rest) => value == Some(v) && left == rest
  }

  method ReadOptional(r: Reader, present: bool) returns (v: Option<nat>)
    requires r.Valid()
    modifies r
    ensures r.Valid() && Shows(OneBitIf(old(r.Left()), present), v, r.Left())
  {
    if present {
      v := r.Read(1);
    } else {
      v := Some(0);
    }
  }

  method ReadFlagsOff(r: Reader, count: nat) returns (v: Option<nat>)
    requires r.Valid()
    modifies r
    ensures r.Valid() && Shows(FlagsOff(old(r.Left()), count), v, r.Left())
  {
    for i := 0 to count
      invariant r.Valid() && FlagsOff(r.Left(), count - i) == FlagsOff(old(r.Left()), count)
    {
      var flag := r.Read(1);
      if flag.None? || flag.value != 0 {
        return None;
      }
    }
    return Some(0);
  }

  method ReadHigh(r: Reader) returns (chroma: Option<nat>)
    requires r.Valid()
    modifies r
    ensures r.Valid() && Shows(ParseHigh(old(r.Left())), chroma, r.Left())
  {
    var format := r.ReadUeValue();
    if format.None? { return None; }
    var t: Option<nat> := ReadOptional(r, format.value == 3);
    if t.None? { return None; }
    t := r.ReadUeValue();
    if t.None? { return None; }
    t := r.ReadUeValue();
    if t.None? { return None; }
    t := r.Read(1);
    if t.None? { return None; }
    var scaling := r.Read(1);
    if scaling.None? { return None; }
    if scaling.value != 0 {
      t := ReadFlagsOff(r, if format.value == 3 then 12 else 8);
      if t.None? { return None; }
    }
    return format;
  }

  method ReadHead(r: Reader) returns (head: Option<Head>)
    requires r.Valid()
    modifies r
    ensures r.Valid() && Shows(ParseHead(old(r.Left())), head, r.Left())
  {
    var profile := r.Read(8);
    if profile.None? { return None; }
    var t := r.Read(8);
    if t.None? { return None; }
    var level := r.Read(8);
    if level.None? { return None; }
    var id := r.ReadUeValue();
    if id.None? { return None; }
    var chroma: Option<nat> := Some(1);
    if profile.value as int in HIGH_PROFILES {
      chroma := ReadHigh(r);
      if chroma.None? { return None; }
    }
    return Some(Head(profile.value, level.value, id.value, chroma.value));
  }

  method ReadSize(r: Reader) returns (size: Option<Size>)
    requires r.Valid()
    modifies r
    ensures r.Valid() && Shows(ParseSize(old(r.Left())), size, r.Left())
  {
    var t: Option<nat> := r.ReadUeValue();
    if t.None? { return None; }
    t := r.ReadUeValue();
    if t.None? { return None; }
    t := r.ReadUeValue();
    if t.None? { return None; }
    t := r.ReadUeValue();
    if t.None? { return None; }
    t := r.Read(1);
    if t.None? { return None; }
    var width := r.ReadUeValue();
    if width.None? { return None; }
    var height := r.ReadUeValue();
    if height.None? { return None; }
    var frameMbs := r.Read(1);
    if frameMbs.None? { return None; }
    t := ReadOptional(r, frameMbs.value == 0);
    if t.None? { return None; }
    t := r.Read(1);
    if t.None? { return None; }
    return Some(Size(width.value, height.value, frameMbs.value));
  }

  method ReadCrop(r: Reader) returns (crop: Option<Crop>)
    requires r.Valid()
    modifies r
    ensures r.Valid() && Shows(ParseCrop(old(r.Left())), crop, r.Left())
  {
    var flag := r.Read(1);
    if flag.None? { return None; }
    if flag.value == 0 {
      return Some(Crop(0, 0, 0, 0));
    }
    var left := r.ReadUeValue();
    if left.None? { return None; }
    var right := r.ReadUeValue();
    if right.None? { return None; }
    var top := r.ReadUeValue();
    if top.None? { return None; }
    var bottom := r.ReadUeValue();
    if bottom.None? { return None; }
    return Some(Crop(left.value, right.value, top.value, bottom.value));
  }

  method ReadSps(nal: Bytes) returns (sps: Option<Sps>)
    ensures sps == ParseSps(nal)
  {
    var rbsp := RbspFromNal(nal, 1);
    if rbsp.None? {
      return None;
    }
    var r := new Reader(rbsp.value);
    var head := ReadHead(r);
    if head.None? { return None; }
    var size := ReadSize(r);
    if size.None? { return None; }
    var crop := ReadCrop(r);
    if crop.None? { return None; }
    return Picture(head.value, size.value, crop.value);
  }
}
