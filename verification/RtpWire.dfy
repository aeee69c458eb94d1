/**
 * RTP packets (RFC 3550 section 5.1) as they are laid out: what the view reads
 * from a packet with given fields, and that nothing else is a packet.
 */
module RtpWire {
  import opened Wrappers
  import opened Bytes
  import opened RtpPackets
  import opened RtpForwarding

  /** A profile and its words. */
  datatype ExtBlock = ExtBlock(profile: u16, data: seq<byte>)

  /** The fields of a packet; CSRC list and padding as octets. */
  datatype Fields = Fields(
    marker: bool,
    payloadType: nat,
    seqNo: u16,
    timestamp: u32,
    ssrc: u32,
    csrcs: seq<byte>,
    ext: Option<ExtBlock>,
    payload: seq<byte>,
    pad: seq<byte>)

  /** At most 15 CSRCs, a block its 16-bit length can count, and padding whose last octet counts it. */
  predicate Sayable(f: Fields) {
    && f.payloadType < 128
    && |f.csrcs| <= 60 && |f.csrcs| % 4 == 0
    && (f.ext.Some? ==> |f.ext.value.data| % 4 == 0 && |f.ext.value.data| / 4 <= 0xFFFF)
    && (f.pad != [] ==> f.pad[|f.pad| - 1] == |f.pad|)
  }

  function FirstTwo(f: Fields): (s: seq<byte>)
    requires Sayable(f)
    ensures |s| == 2
  {
    [0x80 + (if f.pad != [] then 0x20 else 0) + (if f.ext.Some? then 0x10 else 0) + |f.csrcs| / 4,
     (if f.marker then 0x80 else 0) + f.payloadType]
  }

  function Fixed(f: Fields): (s: seq<byte>)
    requires Sayable(f)
    ensures |s| == 12
  {
    FirstTwo(f) + Be16(f.seqNo) + Be32(f.timestamp) + Be32(f.ssrc)
  }

  function Block(f: Fields): seq<byte>
    requires Sayable(f)
  {
    match f.ext
    case None => []
    case Some(x) => Be16(x.profile) + Be16(|x.data| / 4) + x.data
  }

  function WireOf(f: Fields): seq<byte>
    requires Sayable(f)
  {
    Assemble(Fixed(f), f.csrcs, Block(f), f.payload + f.pad)
  }

  function ShapeOf(f: Fields): Shape
    requires Sayable(f)
  {
    Shape(|f.csrcs| / 4, f.pad != [], |f.pad|,
          if f.ext.None? then None else Some((f.ext.value.profile, |f.ext.value.data| / 4)))
  }

  lemma BlockReads(profile: u16, data: seq<byte>)
    requires |data| % 4 == 0 && |data| / 4 <= 0xFFFF
    ensures var b := Be16(profile) + Be16(|data| / 4) + data;
            && Read16(b[0], b[1]) == profile && Read16(b[2], b[3]) == |data| / 4 && b[4..] == data
  {
    Read16OfBe16(profile);
    Read16OfBe16(|data| / 4);
  }

  lemma FirstTwoRead(f: Fields)
    requires Sayable(f)
    ensures (FirstTwo(f)[1] >= 128) == f.marker && FirstTwo(f)[1] % 128 == f.payloadType
  {
    MarkerAndType(f.marker, f.payloadType);
  }

  lemma FixedReads(f: Fields)
    requires Sayable(f)
    ensures var h := Fixed(f);
            && Read16(h[2], h[3]) == f.seqNo
            && Read32(h[4], h[5], h[6], h[7]) == f.timestamp
            && Read32(h[8], h[9], h[10], h[11]) == f.ssrc
            && (h[1] >= 128) == f.marker && h[1] % 128 == f.payloadType
  {
    FourFields(FirstTwo(f), Be16(f.seqNo), Be32(f.timestamp), Be32(f.ssrc));
    Read16OfBe16(f.seqNo);
    Read32OfBe32(f.timestamp);
    Read32OfBe32(f.ssrc);
    FirstTwoRead(f);
  }

  lemma ShapeFits(f: Fields)
    requires Sayable(f)
    ensures Fits(ShapeOf(f), Fixed(f), f.csrcs, Block(f), f.payload + f.pad)
    ensures f.ext.Some? ==> |Block(f)| == 4 + |f.ext.value.data| && Block(f)[4..] == f.ext.value.data
  {
    if f.ext.Some? { BlockReads(f.ext.value.profile, f.ext.value.data); }
    var body := f.payload + f.pad;
    if f.pad != [] { assert body[|body| - 1] == f.pad[|f.pad| - 1]; }
  }

  /** What the view should read from a packet with these fields. */
  ghost predicate Shows(p: RtpPacket, f: Fields)
    requires ViewFits(p)
  {
    && p.Marker() == f.marker && p.PayloadType() == f.payloadType
    && p.SequenceNumber() == f.seqNo && p.Timestamp() == f.timestamp && p.Ssrc() == f.ssrc
    && p.CsrcCount() == |f.csrcs| / 4 && p.Csrcs() == f.csrcs
    && p.HasPadding() == (f.pad != []) && p.padding == |f.pad|
    && p.Payload() == f.payload && p.payloadOff + |f.payload| + |f.pad| == |p.buf|
    && (p.ext.Some? <==> f.ext.Some?)
    && (p.ext.Some? ==> p.ext.value.profile == f.ext.value.profile
                        && p.buf[p.ext.value.off..p.ext.value.off + p.ext.value.len] == f.ext.value.data)
  }

  lemma WireShows(f: Fields)
    requires Sayable(f)
    ensures var q := View(ShapeOf(f), WireOf(f)); ViewFits(q) && Shows(q, f)
  {
    var s, h, b, body := ShapeOf(f), Fixed(f), Block(f), f.payload + f.pad;
    ShapeFits(f);
    FixedReads(f);
    AssembledFields(s, h, f.csrcs, b, body);
    AssembledCsrcs(s, h, f.csrcs, b, body);
    AssembledPayload(s, h, f.csrcs, b, body);
    if f.ext.Some? { AssembledArea(s, h, f.csrcs, b, body); }
    assert body[..|body| - |f.pad|] == f.payload;
  }

  /** Every packet with sayable fields parses, and the view reads all of them. */
  lemma WireReads(f: Fields)
    requires Sayable(f)
    ensures Parse(WireOf(f)).Ok? && ViewFits(Parse(WireOf(f)).value) && Shows(Parse(WireOf(f)).value, f)
  {
    ShapeFits(f);
    AssembledParses(ShapeOf(f), Fixed(f), f.csrcs, Block(f), f.payload + f.pad);
    WireShows(f);
  }

  // ── Nothing else parses ───────────────────────────────────────────────

  lemma Be16OfRead16(a: byte, b: byte)
    ensures Be16(Read16(a, b)) == [a, b]
  {
  }

  lemma Be32OfRead32(a: byte, b: byte, c: byte, d: byte)
    ensures Be32(Read32(a, b, c, d)) == [a, b, c, d]
  {
    var x := Read32(a, b, c, d);
    var upper := 256 * (256 * a + b) + c;
    assert x == 256 * upper + d;
    assert x / 256 == upper && x % 256 == d;
    assert x / 0x1_0000 == upper / 256 == 256 * a + b;
    assert x / 0x100_0000 == x / 0x1_0000 / 256 == a;
  }

  /** The fields of a parsed packet, cut out of its octets. */
  function FieldsOf(p: RtpPacket): Fields
    requires ViewFits(p) && (p.ext.Some? ==> p.ext.value.off >= 4)
  {
    var body := p.buf[p.payloadOff..];
    Fields(p.buf[1] >= 128, p.buf[1] % 128, Read16(p.buf[2], p.buf[3]), Word(p.buf, 4), Word(p.buf, 8),
           p.buf[12..12 + 4 * (p.buf[0] % 16)],
           if p.ext.None? then None
           else Some(ExtBlock(p.ext.value.profile, p.buf[p.ext.value.off..p.ext.value.off + p.ext.value.len])),
           body[..|body| - p.padding], body[|body| - p.padding..])
  }

  lemma FixedIsFront(buf: seq<byte>, f: Fields)
    requires |buf| >= 12 && Sayable(f)
    requires FirstTwo(f) == buf[..2]
    requires f.seqNo == Read16(buf[2], buf[3]) && f.timestamp == Word(buf, 4) && f.ssrc == Word(buf, 8)
    ensures Fixed(f) == buf[..12]
  {
    Be16OfRead16(buf[2], buf[3]);
    Be32OfRead32(buf[4], buf[5], buf[6], buf[7]);
    Be32OfRead32(buf[8], buf[9], buf[10], buf[11]);
  }

  lemma FirstOctet(b: byte)
    requires b / 64 == 2
    ensures b == 0x80 + (if b / 32 % 2 == 1 then 0x20 else 0) + (if b / 16 % 2 == 1 then 0x10 else 0) + b % 16
  {
  }

  /** Where the parser finds the extension block. */
  lemma BlockPlace(buf: seq<byte>)
    requires Parse(buf).Ok?
    ensures var p, at := Parse(buf).value, 12 + 4 * (buf[0] % 16);
            && at <= p.payloadOff && (p.ext.Some? <==> buf[0] / 16 % 2 == 1)
            && (p.ext.None? ==> p.payloadOff == at)
            && (p.ext.Some? ==>
                  && at + 4 <= p.payloadOff && p.ext.value.off == at + 4
                  && p.ext.value.len == 4 * Read16(buf[at + 2], buf[at + 3]) == p.payloadOff - at - 4
                  && p.ext.value.profile == Read16(buf[at], buf[at + 1]))
  {
  }

  lemma PadIs(buf: seq<byte>)
    requires Parse(buf).Ok?
    ensures var p := Parse(buf).value;
            if buf[0] / 32 % 2 == 1 then 0 < p.padding == buf[|buf| - 1] <= |buf| - p.payloadOff else p.padding == 0
  {
  }

  lemma LastOf(buf: seq<byte>, at: nat, pad: nat)
    requires at <= |buf| && 0 < pad <= |buf| - at
    ensures var body := buf[at..];
            |body[|body| - pad..]| == pad && body[|body| - pad..][pad - 1] == buf[|buf| - 1]
  {
  }

  /** The sizes of the cuts, and the octet the padding ends in. */
  lemma CutSizes(p: RtpPacket, f: Fields)
    requires ViewFits(p) && (p.ext.Some? ==> p.ext.value.off >= 4) && f == FieldsOf(p)
    ensures f.payloadType < 128 && |f.csrcs| == 4 * (p.buf[0] % 16)
    ensures f.ext.Some? <==> p.ext.Some?
    ensures f.ext.Some? ==> |f.ext.value.data| == p.ext.value.len
    ensures |f.pad| == p.padding && (f.pad != [] ==> f.pad[|f.pad| - 1] == p.buf[|p.buf| - 1])
  {
    if p.padding > 0 { LastOf(p.buf, p.payloadOff, p.padding); }
  }

  lemma FieldsAreSayable(buf: seq<byte>)
    requires Parse(buf).Ok?
    ensures var p := Parse(buf).value; (p.ext.Some? ==> p.ext.value.off >= 4) && Sayable(FieldsOf(p))
  {
    BlockPlace(buf);
    PadIs(buf);
    var p := Parse(buf).value;
    var f := FieldsOf(p);
    CutSizes(p, f);
    QuarterOf(|f.csrcs|, buf[0] % 16);
    if p.ext.Some? {
      var at := 12 + 4 * (buf[0] % 16);
      QuarterOf(|f.ext.value.data|, Read16(buf[at + 2], buf[at + 3]));
    }
  }

  lemma FirstTwoIs(buf: seq<byte>, f: Fields)
    requires |buf| >= 12 && buf[0] / 64 == 2 && Sayable(f)
    requires f.marker == (buf[1] >= 128) && f.payloadType == buf[1] % 128 && |f.csrcs| == 4 * (buf[0] % 16)
    requires f.pad != [] <==> buf[0] / 32 % 2 == 1
    requires f.ext.Some? <==> buf[0] / 16 % 2 == 1
    ensures FirstTwo(f) == buf[..2]
  {
    FirstOctet(buf[0]);
    assert |f.csrcs| / 4 == buf[0] % 16;
  }

  lemma ThreeCut(buf: seq<byte>, at: nat, end: nat)
    requires at + 4 <= end <= |buf|
    ensures [buf[at], buf[at + 1]] + [buf[at + 2], buf[at + 3]] + buf[at + 4..end] == buf[at..end]
  {
  }

  lemma BlockOctets(buf: seq<byte>, f: Fields, at: nat, end: nat)
    requires Sayable(f) && at + 4 <= end <= |buf|
    requires f.ext == Some(ExtBlock(Read16(buf[at], buf[at + 1]), buf[at + 4..end]))
    requires end - at - 4 == 4 * Read16(buf[at + 2], buf[at + 3])
    ensures Block(f) == buf[at..end]
  {
    Be16OfRead16(buf[at], buf[at + 1]);
    Be16OfRead16(buf[at + 2], buf[at + 3]);
    ThreeCut(buf, at, end);
    QuarterOf(|f.ext.value.data|, Read16(buf[at + 2], buf[at + 3]));
  }

  lemma BlockIsCut(buf: seq<byte>, p: RtpPacket, f: Fields, at: nat)
    requires Parse(buf) == Ok(p) && at == 12 + 4 * (buf[0] % 16)
    requires (p.ext.Some? ==> p.ext.value.off >= 4) && f == FieldsOf(p) && Sayable(f)
    ensures at <= p.payloadOff && Block(f) == buf[at..p.payloadOff]
  {
    BlockPlace(buf);
    if p.ext.Some? { BlockOctets(buf, f, at, p.payloadOff); }
  }

  lemma CutTogether(buf: seq<byte>, i: nat, j: nat, k: nat)
    requires i <= j <= k <= |buf|
    ensures buf[..i] + (buf[i..j] + (buf[j..k] + buf[k..])) == buf
  {
  }

  lemma HeadIsCut(buf: seq<byte>, p: RtpPacket, f: Fields)
    requires Parse(buf) == Ok(p)
    requires (p.ext.Some? ==> p.ext.value.off >= 4) && f == FieldsOf(p) && Sayable(f)
    ensures Fixed(f) == buf[..12]
  {
    BlockPlace(buf);
    PadIs(buf);
    FirstTwoIs(buf, f);
    FixedIsFront(buf, f);
  }

  /** Every octet string that parses is a packet with sayable fields. */
  lemma ParsedIsWire(buf: seq<byte>) returns (f: Fields)
    requires Parse(buf).Ok?
    ensures Sayable(f) && WireOf(f) == buf
  {
    var p, at := Parse(buf).value, 12 + 4 * (buf[0] % 16);
    FieldsAreSayable(buf);
    f := FieldsOf(p);
    HeadIsCut(buf, p, f);
    BlockIsCut(buf, p, f, at);
    BodyIsCut(p, f);
    CutTogether(buf, 12, at, p.payloadOff);
  }

  lemma BodyIsCut(p: RtpPacket, f: Fields)
    requires ViewFits(p) && (p.ext.Some? ==> p.ext.value.off >= 4) && f == FieldsOf(p)
    ensures f.payload + f.pad == p.buf[p.payloadOff..]
  {
  }

  /** An octet string parses exactly when it is a packet with sayable fields. */
  lemma PacketIff(buf: seq<byte>)
    ensures Parse(buf).Ok? <==> exists f :: Sayable(f) && WireOf(f) == buf
  {
    if Parse(buf).Ok? {
      var f := ParsedIsWire(buf);
    }
    forall f | Sayable(f) && WireOf(f) == buf ensures Parse(buf).Ok? {
      WireReads(f);
    }
  }
}
