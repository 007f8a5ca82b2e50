/** RTP header parsing (RFC 3550, section 5.1 and 5.3.1). */
module RtpHeader {
  import opened Words

  datatype Header = Header(sequence: u16, ssrc: u32)

  /** Version 2, payload type 96, complete header and extension, nonzero SSRC. */
  function ParseRtp(packet: seq<u8>): Option<Header> {
    if |packet| < 12 || packet[0] / 64 != 2 || packet[1] % 128 != 96 then None
    else
      var header := 12 + packet[0] % 16 * 4;
      if header > |packet| then None
      else if packet[0] / 16 % 2 == 1 && header + 4 > |packet| then None
      else
        var end := if packet[0] / 16 % 2 == 1
                   then header + 4 + Word16(packet[header + 2], packet[header + 3]) * 4
                   else header;
        var ssrc := Word32(packet[8], packet[9], packet[10], packet[11]);
        if end > |packet| || ssrc == 0 then None
        else Some(Header(Word16(packet[2], packet[3]), ssrc))
  }

  /** A packet of twelve bytes, with nothing behind its fixed header. */
  function Bare(sequence: u16, ssrc: u8): seq<u8> {
    [0x80, 96, sequence / 0x100, sequence % 0x100, 0, 0, 0, 0, 0, 0, 0, ssrc]
  }

  lemma BareParses(sequence: u16, ssrc: u8)
    requires ssrc != 0
    ensures ParseRtp(Bare(sequence, ssrc)) == Some(Header(sequence, ssrc))
  {
  }

  /** The parts of a packet in wire order: CSRC list, header extension with its 16-bit profile and
      its contents in 32-bit words, payload and padding. */
  datatype Parts = Parts(padded: bool, marker: bool, sequence: seq<u8>, timestamp: seq<u8>, ssrc: seq<u8>,
                         sources: seq<u8>, extended: bool, profile: seq<u8>, length: seq<u8>,
                         extension: seq<u8>, payload: seq<u8>)

  predicate WellFormed(p: Parts) {
    && |p.sequence| == 2 && |p.timestamp| == |p.ssrc| == 4
    && |p.sources| % 4 == 0 && |p.sources| <= 60
    && (if p.extended then
          |p.profile| == |p.length| == 2 && |p.extension| == 4 * Word16(p.length[0], p.length[1])
        else p.profile == p.length == p.extension == [])
  }

  function Flag(b: bool, weight: nat): nat {
    if b then weight else 0
  }

  function FirstByte(p: Parts): u8
    requires WellFormed(p)
  {
    128 + Flag(p.padded, 32) + Flag(p.extended, 16) + |p.sources| / 4
  }

  function Fixed(p: Parts): (bytes: seq<u8>)
    requires WellFormed(p)
    ensures |bytes| == 12
  {
    [FirstByte(p), Flag(p.marker, 128) + 96] + p.sequence + p.timestamp + p.ssrc
  }

  function Write(p: Parts): seq<u8>
    requires WellFormed(p)
  {
    Fixed(p) + p.sources + (p.profile + p.length + p.extension) + p.payload
  }

  lemma FixedAt(p: Parts)
    requires WellFormed(p)
    ensures var b := Fixed(p);
            && b[0] == FirstByte(p) && b[1] == Flag(p.marker, 128) + 96
            && b[2..4] == p.sequence && b[4..8] == p.timestamp && b[8..12] == p.ssrc
  {
  }

  lemma WriteAt(p: Parts)
    requires WellFormed(p)
    ensures var packet, header := Write(p), 12 + |p.sources|;
            && |packet| >= header && packet[..12] == Fixed(p)
            && (p.extended ==> header + 4 + |p.extension| <= |packet| &&
                               packet[header + 2] == p.length[0] && packet[header + 3] == p.length[1])
  {
    if p.extended {
      var packet, header := Write(p), 12 + |p.sources|;
      assert packet[header..] == p.profile + p.length + p.extension + p.payload;
      assert packet[header..][2] == p.length[0] && packet[header..][3] == p.length[1];
    }
  }

  lemma FlagsBack(p: Parts)
    requires WellFormed(p)
    ensures var b: int := FirstByte(p); b / 64 == 2 && b / 16 % 2 == Flag(p.extended, 1) && b % 16 * 4 == |p.sources|
    ensures (Flag(p.marker, 128) + 96) % 128 == 96
  {
    hide Word16;
    var high, low := 8 + 2 * Flag(p.padded, 1) + Flag(p.extended, 1), |p.sources| / 4;
    assert FirstByte(p) == 16 * high + low && 0 <= low < 16;
  }

  lemma WrittenBytes(p: Parts)
    requires WellFormed(p)
    ensures var b := Write(p);
            && |b| >= 12 + |p.sources| && b[0] == FirstByte(p) && b[1] == Flag(p.marker, 128) + 96
            && b[2] == p.sequence[0] && b[3] == p.sequence[1]
            && b[8] == p.ssrc[0] && b[9] == p.ssrc[1] && b[10] == p.ssrc[2] && b[11] == p.ssrc[3]
  {
    FixedAt(p);
    WriteAt(p);
    hide Write, Fixed, FirstByte;
    var packet, fixed := Write(p), Fixed(p);
    assert forall i | 0 <= i < 12 :: packet[i] == packet[..12][i];
    assert fixed[2] == fixed[2..4][0] && fixed[3] == fixed[2..4][1];
    assert fixed[8] == fixed[8..12][0] && fixed[9] == fixed[8..12][1];
    assert fixed[10] == fixed[8..12][2] && fixed[11] == fixed[8..12][3];
  }

  /** What a packet written from its parts is parsed to. */
  lemma ParseWritten(p: Parts)
    requires WellFormed(p)
    ensures var ssrc := Word32(p.ssrc[0], p.ssrc[1], p.ssrc[2], p.ssrc[3]);
            ParseRtp(Write(p)) ==
            if ssrc == 0 then None else Some(Header(Word16(p.sequence[0], p.sequence[1]), ssrc))
  {
    FlagsBack(p);
    WrittenBytes(p);
    WriteAt(p);
    hide Write, Fixed, FirstByte;
  }

  /** Bytes of the CSRC list that the first byte announces. */
  function SourceBytes(first: u8): (n: nat)
    ensures n == first % 16 * 4 && n % 4 == 0 && n <= 60
  {
    first % 16 * 4
  }

  /** Where the payload of a packet begins whose extension would start at `header`. */
  function PayloadAt(packet: seq<u8>, header: nat, extended: bool): (end: nat)
    requires extended ==> header + 4 <= |packet|
    ensures end == header + if extended then 4 + 4 * Word16(packet[header + 2], packet[header + 3]) else 0
  {
    if extended then header + 4 + Word16(packet[header + 2], packet[header + 3]) * 4 else header
  }

  lemma ParsedFits(packet: seq<u8>)
    requires ParseRtp(packet).Some?
    ensures |packet| >= 12
    ensures var header, extended := 12 + SourceBytes(packet[0]), packet[0] / 16 % 2 == 1;
            && header <= |packet| && (extended ==> header + 4 <= |packet|)
            && PayloadAt(packet, header, extended) <= |packet|
  {
  }

  function Extension(packet: seq<u8>, header: nat, end: nat): (p: (seq<u8>, seq<u8>, seq<u8>))
    requires header + 4 <= end <= |packet| && end == header + 4 + 4 * Word16(packet[header + 2], packet[header + 3])
    ensures |p.0| == 2 && |p.1| == 2 && |p.2| == 4 * Word16(p.1[0], p.1[1])
    ensures p.0 + p.1 + p.2 == packet[header..end]
  {
    (packet[header..header + 2], packet[header + 2..header + 4], packet[header + 4..end])
  }

  /** The parts of a packet that parses. */
  function PartsOf(packet: seq<u8>): (p: Parts)
    requires ParseRtp(packet).Some?
    ensures WellFormed(p)
  {
    ParsedFits(packet);
    var header, extended := 12 + SourceBytes(packet[0]), packet[0] / 16 % 2 == 1;
    var end := PayloadAt(packet, header, extended);
    var (profile, length, extension) := if extended then Extension(packet, header, end) else ([], [], []);
    Parts(packet[0] / 32 % 2 == 1, packet[1] / 128 == 1, packet[2..4], packet[4..8], packet[8..12],
          packet[12..header], extended, profile, length, extension, packet[end..])
  }

  lemma BytesBack(first: u8, second: u8)
    requires first / 64 == 2 && second % 128 == 96
    ensures first == 128 + first / 32 % 2 * 32 + first / 16 % 2 * 16 + first % 16
    ensures second == second / 128 * 128 + 96 && second / 128 <= 1
  {
  }

  lemma FixedBack(packet: seq<u8>)
    requires ParseRtp(packet).Some?
    ensures Fixed(PartsOf(packet)) == packet[..12]
  {
    BytesBack(packet[0], packet[1]);
    assert packet[..12] == [packet[0], packet[1]] + packet[2..4] + packet[4..8] + packet[8..12];
  }

  lemma Rejoined(packet: seq<u8>, i: nat, j: nat)
    requires 12 <= i <= j <= |packet|
    ensures packet[..12] + packet[12..i] + packet[i..j] + packet[j..] == packet
  {
  }

  lemma ExtensionBack(packet: seq<u8>)
    requires ParseRtp(packet).Some?
    ensures var p, header := PartsOf(packet), 12 + packet[0] % 16 * 4;
            var end := header + |p.profile + p.length + p.extension|;
            && end <= |packet| && p.sources == packet[12..header] && p.payload == packet[end..]
            && p.profile + p.length + p.extension == packet[header..end]
  {
    hide ParseRtp, WellFormed, Extension;
    ParsedFits(packet);
  }

  lemma PartsBack(packet: seq<u8>)
    requires ParseRtp(packet).Some?
    ensures Write(PartsOf(packet)) == packet
  {
    FixedBack(packet);
    ExtensionBack(packet);
    hide Fixed, ParseRtp, PartsOf;
    var p, header := PartsOf(packet), 12 + packet[0] % 16 * 4;
    Rejoined(packet, header, header + |p.profile + p.length + p.extension|);
  }

  predicate IsWriting(p: Parts, packet: seq<u8>) {
    WellFormed(p) && Word32(p.ssrc[0], p.ssrc[1], p.ssrc[2], p.ssrc[3]) != 0 && Write(p) == packet
  }

  /** Exactly the well-formed packets of a nonzero SSRC parse, each to its own number and SSRC. */
  lemma ParsesExactly(packet: seq<u8>)
    ensures ParseRtp(packet).Some? <==> exists p :: IsWriting(p, packet)
  {
    if ParseRtp(packet).Some? {
      PartsBack(packet);
      var p := PartsOf(packet);
      ParseWritten(p);
      assert IsWriting(p, packet);
    } else if exists p :: IsWriting(p, packet) {
      var p :| IsWriting(p, packet);
      ParseWritten(p);
    }
  }
}
