/** The parser's access-unit buffer: NAL units are appended behind start codes, and the buffer is
    handed over as a whole when the next unit begins or the stream ends. */
module AuAggregator {
  import opened Words
  import opened StartCodes
  import opened EmulationPrevention
  import opened BitReader
  import opened AccessUnits

  /** The slice header, read with the bit cursor. */
  method ReadFirstMb(nal: Bytes) returns (firstMb: Option<nat>)
    ensures firstMb == FirstMb(nal)
  {
    var rbsp := RbspFromNal(nal, 1);
    if rbsp.None? {
      return None;
    }
    var r := new Reader(rbsp.value);
    var first := r.ReadUeValue();
    if first.None? {
      return None;
    }
    var sliceType := r.ReadUeValue();
    if sliceType.None? {
      return None;
    }
    var pps := r.ReadUeValue();
    firstMb := if pps.Some? && pps.value < 256 then Some(first.value) else None;
  }

  class Aggregator {
    const cfg: Config
    var au: Bytes
    var hasVcl: bool
    var key: bool
    var eos: bool
    var parsedNals: nat
    var outputBuffers: nat
    ghost var out: seq<Unit>

    ghost predicate Valid()
      reads this
    {
      |au| <= cfg.maxAu && outputBuffers == |out|
    }

    ghost function View(ok: bool): State
      reads this
    {
      State(ok, au, hasVcl, key, eos, out)
    }

    constructor (cfg: Config)
      ensures Valid() && this.cfg == cfg && View(true) == Empty && parsedNals == 0
    {
      this.cfg := cfg;
      au, hasVcl, key, eos, out := [], false, false, false, [];
      parsedNals, outputBuffers := 0, 0;
    }

    /** The buffer goes downstream. */
    method PutOut(unit: Unit)
      modifies this`out, this`outputBuffers
      ensures out == old(out) + [unit] && outputBuffers == old(outputBuffers) + 1
    {
      out := out + [unit];
      outputBuffers := outputBuffers + 1;
    }

    method FlushAu()
      requires Valid()
      modifies this`au, this`hasVcl, this`key, this`eos, this`out, this`outputBuffers
      ensures Valid() && View(true) == Flushed(old(View(true)))
    {
      if au == [] {
        return;
      }
      var unit := Unit(au, key, eos);
      au, hasVcl, key, eos := [], false, false, false;
      PutOut(unit);
    }

    method FlushBefore(nal: Bytes, vcl: bool, first: bool)
      requires Valid() && nal != [] && vcl == Vcl(cfg.codec, nal) && (vcl && first <==> FirstSlice(cfg.codec, nal))
      modifies this`au, this`hasVcl, this`key, this`eos, this`out, this`outputBuffers
      ensures Valid() && View(true) == Parted(cfg, old(View(true)), nal)
    {
      var nalType := Type(cfg.codec, nal);
      if cfg.aggregate && hasVcl && cfg.codec == H264 && (6 <= nalType <= 9 || 14 <= nalType <= 18) {
        FlushAu();
      }
      if vcl && first && hasVcl {
        FlushAu();
      }
    }

    method Append(nal: Bytes, vcl: bool, keyNal: bool, eosNal: bool) returns (ok: bool)
      requires Valid() && nal != [] && vcl == Vcl(cfg.codec, nal) && keyNal == Key(cfg.codec, nal)
      modifies this`au, this`hasVcl, this`key, this`eos
      ensures Valid() && View(ok) == Taken(cfg, old(View(true)), NalSplitter.Nal(nal, eosNal))
    {
      if |nal| + 4 > cfg.maxAu - |au| {
        return false;
      }
      au := au + [0, 0, 0, 1];
      au := au + nal;
      assert au == old(au) + WithCode(nal);
      key, eos := key || keyNal, eos || eosNal;
      hasVcl := hasVcl || vcl;
      ok := true;
    }

    method HandleNal(nal: Bytes, eosNal: bool) returns (ok: bool)
      requires Valid()
      modifies this
      ensures Valid() && View(ok) == HandleStep(cfg, old(View(true)), NalSplitter.Nal(nal, eosNal))
      ensures parsedNals == old(parsedNals) + if nal == [] then 0 else 1
    {
      if nal == [] {
        return true;
      }
      var nalType := Type(cfg.codec, nal);
      var vcl, keyNal, first;
      if cfg.codec == H264 {
        vcl := 1 <= nalType <= 5;
        keyNal := nalType == 5;
        var firstMb := None;
        if vcl {
          firstMb := ReadFirstMb(nal);
        }
        first := firstMb == Some(0);
      } else {
        vcl := nalType <= 31;
        keyNal := 16 <= nalType <= 21;
        first := vcl && |nal| > 2 && nal[2] >= 0x80;
      }
      parsedNals := parsedNals + 1;
      FlushBefore(nal, vcl, first);
      if !cfg.aggregate {
        PutOut(Unit(WithCode(nal), keyNal, eosNal));
        return true;
      }
      ok := Append(nal, vcl, keyNal, eosNal);
    }

    method EndOfStream()
      requires Valid()
      modifies this
      ensures Valid() && View(true) == Ended(old(View(true)))
    {
      eos := true;
      FlushAu();
    }
  }
}
