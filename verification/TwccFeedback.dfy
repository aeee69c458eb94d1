/**
 * Building a transport-wide feedback packet: what its bytes are, and that
 * parsing them gives back every status under its sequence number.
 */
module TwccFeedback {
  import opened Buffers
  import opened Bytes
  import opened RtcpBlocks
  import opened Seqs
  import opened TwccChunks
  import opened TwccChunkBuilder
  import opened Wrappers

  /** Everything a feedback packet is asked to say. */
  datatype Draft = Draft(
    senderSsrc: u32,
    mediaSsrc: u32,
    baseSeq: u16,
    refTime: u32,
    fbCount: byte,
    statuses: seq<Status>)

  /** At most 65535 statuses, a 24-bit reference time, and deltas that fit 16 bits. */
  predicate Expressible(r: Draft) {
    |r.statuses| <= 0xFFFF && r.refTime <= 0xFF_FFFF && AllEncodable(r.statuses)
  }

  /** What a feedback packet can say. */
  type Report = r: Draft | Expressible(r) witness Draft(0, 0, 0, 0, 0, [])

  function Be24(x: u32): (s: seq<byte>)
    requires x <= 0xFF_FFFF
    ensures |s| == 3
  {
    [x / 0x1_0000, x / 256 % 256, x % 256]
  }

  lemma Read24OfBe24(x: u32)
    requires x <= 0xFF_FFFF
    ensures Read24(Be24(x)[0], Be24(x)[1], Be24(x)[2]) == x
  {
    assert x / 256 / 256 == x / 0x1_0000;
  }

  /** The first eight bytes of the body. */
  function FciHead(r: Report): (s: seq<byte>)
    ensures |s| == 8
  {
    Be16(r.baseSeq) + Be16(|r.statuses|) + Be24(r.refTime) + [r.fbCount]
  }

  function ChunkBytes(r: Report): seq<byte> {
    Words(Chunks(r.statuses))
  }

  function Unpadded(r: Report): nat
  {
    20 + 2 * |Chunks(r.statuses)| + |DeltasOf(r.statuses)|
  }

  /** The length of the whole packet, zero-padded to a multiple of four. */
  function Total(r: Report): nat
  {
    Padded(Unpadded(r))
  }

  function Fci(r: Report): seq<byte>
  {
    FciHead(r) + (ChunkBytes(r) + (DeltasOf(r.statuses) + Zeros(Total(r) - Unpadded(r))))
  }

  function Header(count: nat, packetType: byte, total: nat): (s: seq<byte>)
    requires count < 32 && 4 <= total && total % 4 == 0 && total / 4 - 1 <= 0xFFFF
    ensures |s| == 4
  {
    var first: nat := 0x80 + count;
    [first, packetType] + Be16(total / 4 - 1)
  }

  // ── Sizes ─────────────────────────────────────────────────────────────

  /** Each chunk takes at least seven statuses, but for the last one. */
  lemma {:induction false} FewChunks(ss: seq<Status>)
    ensures |Chunks(ss)| <= (|ss| + 6) / 7
    decreases |ss|
  {
    if ss != [] {
      ChunksUnfold(ss);
      FewChunks(LaterOf(ss));
    }
  }

  lemma {:induction false} FewDeltas(ss: seq<Status>)
    requires AllEncodable(ss)
    ensures |DeltasOf(ss)| <= 2 * |ss|
    decreases |ss|
  {
    if ss != [] { FewDeltas(ss[1..]); }
  }

  /** A packet is never too long for its length field. */
  lemma TotalFits(r: Report)
    ensures Total(r) % 4 == 0 && 20 <= Total(r) && Total(r) / 4 - 1 <= 0xFFFF
  {
    FewChunks(r.statuses);
    FewDeltas(r.statuses);
  }

  /** The bytes of the packet. */
  function Packet(r: Report): (s: seq<byte>)
  {
    TotalFits(r);
    Header(FMT_TWCC, RTPFB, Total(r)) + (Be32(r.senderSsrc) + (Be32(r.mediaSsrc) + Fci(r)))
  }

  lemma PacketLength(r: Report)
    ensures |Packet(r)| == Total(r) && |Fci(r)| == Total(r) - 12
  {
  }

  // ── Reading it back ───────────────────────────────────────────────────

  lemma FciHeadReads(r: Report, tail: seq<byte>)
    ensures var f := FciHead(r) + tail;
            && Read16(f[0], f[1]) == r.baseSeq && Read16(f[2], f[3]) == |r.statuses|
            && Read24(f[4], f[5], f[6]) == r.refTime && f[7] == r.fbCount && f[8..] == tail
  {
    Read16OfBe16(r.baseSeq);
    Read16OfBe16(|r.statuses|);
    Read24OfBe24(r.refTime);
    var h := FciHead(r);
    assert h[0] == Be16(r.baseSeq)[0] && h[1] == Be16(r.baseSeq)[1];
    assert h[2] == Be16(|r.statuses|)[0] && h[3] == Be16(|r.statuses|)[1];
  }

  lemma BodySlices(r: Report)
    ensures var f, end := Fci(r), 8 + 2 * |Chunks(r.statuses)|;
            && end + |DeltasOf(r.statuses)| <= |f|
            && f[8..end] == ChunkBytes(r) && f[end..end + |DeltasOf(r.statuses)|] == DeltasOf(r.statuses)
  {
    MiddleSlices(FciHead(r), ChunkBytes(r), DeltasOf(r.statuses), Zeros(Total(r) - Unpadded(r)));
  }

  function ScanOf(r: Report): Scanned {
    Scanned(8 + 2 * |Chunks(r.statuses)|, SymbolsOf(r.statuses))
  }

  lemma ChunksScanAt(f: seq<byte>, off: nat, ss: seq<Status>, end: nat)
    requires end == off + 2 * |Chunks(ss)| && end <= |f| && f[off..end] == Words(Chunks(ss))
    ensures ScanFrom(f, off, |ss|) == Some(Scanned(end, SymbolsOf(ss)))
  {
    ChunksScan(f, off, ss);
  }

  lemma BodyScans(r: Report)
    ensures ScanFrom(Fci(r), 8, |r.statuses|) == Some(ScanOf(r))
  {
    BodySlices(r);
    ChunksScanAt(Fci(r), 8, r.statuses, ScanOf(r).end);
  }

  function Written(r: Report): Feedback
  {
    Feedback(r.baseSeq, |r.statuses|, r.refTime, r.fbCount, ChunkBytes(r), DeltasOf(r.statuses))
  }

  lemma HeadReads(r: Report)
    ensures var f := Fci(r);
            && |f| >= 8 && Read16(f[0], f[1]) == r.baseSeq && Read16(f[2], f[3]) == |r.statuses|
            && Read24(f[4], f[5], f[6]) == r.refTime && f[7] == r.fbCount
  {
    FciHeadReads(r, ChunkBytes(r) + (DeltasOf(r.statuses) + Zeros(Total(r) - Unpadded(r))));
  }

  lemma FieldsRead(r: Report)
    ensures |Fci(r)| - ScanOf(r).end >= Need(ScanOf(r).symbols)
    ensures BodyAt(Fci(r), ScanOf(r).end, Need(ScanOf(r).symbols)) == Written(r)
  {
    HeadReads(r);
    BodySlices(r);
    DeltasSuffice(r.statuses);
  }

  /** The body parses to what was reported, with the chunk and delta regions that were written. */
  lemma FciParses(r: Report)
    ensures ParseFci(Fci(r)) == Some(Written(r))
  {
    HeadReads(r);
    BodyScans(r);
    FieldsRead(r);
    ParsedWith(Fci(r), |r.statuses|, ScanOf(r));
  }

  lemma HeaderParses(count: nat, packetType: byte, total: nat, body: seq<byte>)
    requires count < 32 && 4 <= total && total % 4 == 0 && total / 4 - 1 <= 0xFFFF
    requires |body| == total - 4
    ensures ParseBlock(Header(count, packetType, total) + body) ==
            Ok(Block(count, packetType, body, Header(count, packetType, total) + body))
  {
    var buf := Header(count, packetType, total) + body;
    Read16OfBe16(total / 4 - 1);
    assert buf[2] == Be16(total / 4 - 1)[0] && buf[3] == Be16(total / 4 - 1)[1];
    assert buf[0] == 0x80 + count;
    assert buf[..total] == buf && buf[HEADER_LEN..] == body;
  }

  function Payload(r: Report): seq<byte>
  {
    Be32(r.senderSsrc) + (Be32(r.mediaSsrc) + Fci(r))
  }

  lemma PayloadSplits(r: Report)
    ensures |Payload(r)| == Total(r) - 4 && Payload(r)[8..] == Fci(r)
  {
    PacketLength(r);
    SplitAt(Be32(r.senderSsrc), Be32(r.mediaSsrc), Fci(r));
  }

  lemma SplitAt(a: seq<byte>, b: seq<byte>, c: seq<byte>)
    ensures (a + (b + c))[|a| + |b|..] == c
  {
  }

  lemma FeedbackFits(b: Block)
    requires b.packetType == RTPFB && b.count == FMT_TWCC && |b.payload| >= 8 && ParseFci(b.payload[8..]).Some?
    ensures FitsType(b)
  {
  }

  /** The packet is one acceptable block of its type. */
  lemma PacketParses(r: Report)
    ensures ParsePacket(Packet(r)) == Ok(Block(FMT_TWCC, RTPFB, Payload(r), Packet(r)))
    ensures |Payload(r)| >= 8 && Payload(r)[8..] == Fci(r)
  {
    TotalFits(r);
    PayloadSplits(r);
    HeaderParses(FMT_TWCC, RTPFB, Total(r), Payload(r));
    FciParses(r);
    FeedbackFits(Block(FMT_TWCC, RTPFB, Payload(r), Packet(r)));
  }

  /** What an accepted packet's statuses decode to, and the fields beside them. */
  datatype Reading = Reading(senderSsrc: u32, mediaSsrc: u32, refTime: nat, fbCount: byte, items: seq<Item>)

  function ReadingOf(b: seq<byte>): Reading
    requires |b| >= FEEDBACK_HEADER_LEN && ParseFci(b[8..]).Some?
  {
    var f := ParseFci(b[8..]).value;
    AcceptedIsExact(b[8..]);
    Reading(Word(b, 0), Word(b, 4), f.referenceTime, f.feedbackCount, Items(StatusSymbols(f), f.deltas, f.baseSeq))
  }

  function Read(packet: seq<byte>): Option<Reading> {
    var p := ParsePacket(packet);
    if p.Err? || p.value.packetType != RTPFB || p.value.count != FMT_TWCC then None
    else Some(ReadingOf(p.value.payload))
  }

  /**
   * Round trip: every report that can be expressed reads back, its statuses
   * numbered from the base sequence number modulo 2^16.
   */
  lemma PacketReadsBack(r: Report)
    ensures Read(Packet(r)) ==
            Some(Reading(r.senderSsrc, r.mediaSsrc, r.refTime, r.fbCount, Numbered(r.baseSeq, r.statuses)))
  {
    PacketParses(r);
    FciParses(r);
    DecodesToReport(r);
    SsrcBytes(r.senderSsrc, r.mediaSsrc, Fci(r));
  }

  lemma ChunkBytesDecode(r: Report)
    ensures |r.statuses| <= |AllSymbols(ChunkBytes(r))|
    ensures AllSymbols(ChunkBytes(r))[..|r.statuses|] == SymbolsOf(r.statuses)
  {
    var chunks := ChunkBytes(r);
    assert chunks[0..2 * |Chunks(r.statuses)|] == chunks;
    ChunksScan(chunks, 0, r.statuses);
    ScannedIsPrefix(chunks, 0, |r.statuses|);
  }

  lemma DecodesToReport(r: Report)
    ensures var f := Written(r);
            && f.statusCount <= |AllSymbols(f.chunks)| && Need(StatusSymbols(f)) <= |f.deltas|
            && Items(StatusSymbols(f), f.deltas, f.baseSeq) == Numbered(r.baseSeq, r.statuses)
  {
    ChunkBytesDecode(r);
    DeltasRead(r.statuses, r.baseSeq);
  }

  lemma SsrcBytes(a: u32, b: u32, rest: seq<byte>)
    ensures var s := Be32(a) + (Be32(b) + rest);
            Word(s, 0) == a && Word(s, 4) == b
  {
    WordWritten([], a, Be32(b) + rest);
    WordWritten(Be32(a), b, rest);
    var s := Be32(a) + (Be32(b) + rest);
    assert [] + s == s;
  }
}
