/**
 * What the packet builders write and what the views read: sender and receiver
 * reports, source descriptions, NACK, PLI, FIR and transport-wide feedback.
 */
module RtcpPackets {
  import Buffers
  import opened Bytes
  import opened RtcpBlocks
  import opened RtcpEntries
  import opened Seqs
  import opened SourceDescriptions
  import opened TwccChunkBuilder
  import opened TwccChunks
  import opened TwccFeedback
  import opened Wrappers

  /** What a builder is asked to write. */
  datatype Outgoing =
    | SenderReport(sender: u32, ntp: u64, rtpTimestamp: u32, packetCount: u32, octetCount: u32, reports: seq<ReportBlock>)
    | ReceiverReport(sender: u32, reports: seq<ReportBlock>)
    | Cname(ssrc: u32, cname: seq<byte>)
    | Nack(sender: u32, media: u32, nacks: seq<NackEntry>)
    | Pli(sender: u32, media: u32)
    | Fir(sender: u32, media: u32, requests: seq<FirEntry>)
    | Twcc(draft: Draft)

  /** What the views read from an accepted block. */
  datatype Incoming =
    | SenderReport(sender: u32, ntp: u64, rtpTimestamp: u32, packetCount: u32, octetCount: u32, reports: seq<ReportBlock>)
    | ReceiverReport(sender: u32, reports: seq<ReportBlock>)
    | Sdes(chunks: seq<SdesChunk>)
    | Nack(sender: u32, media: u32, nacks: seq<NackEntry>)
    | Pli(sender: u32, media: u32)
    | Fir(sender: u32, media: u32, requests: seq<FirEntry>)
    | Twcc(reading: Reading)
    | Unread

  // ── Whole packets ─────────────────────────────────────────────────────

  /** The five-bit field of the first octet: a count, or the feedback message. */
  function CountOf(p: Outgoing): nat {
    match p
    case SenderReport(_, _, _, _, _, reports) => |reports|
    case ReceiverReport(_, reports) => |reports|
    case Cname(_, _) => 1
    case Nack(_, _, _) => FMT_NACK
    case Pli(_, _) => FMT_PLI
    case Fir(_, _, _) => FMT_FIR
    case Twcc(_) => FMT_TWCC
  }

  function TypeOf(p: Outgoing): byte {
    match p
    case SenderReport(_, _, _, _, _, _) => SR
    case ReceiverReport(_, _) => RR
    case Cname(_, _) => SDES
    case Nack(_, _, _) => RTPFB
    case Pli(_, _) => PSFB
    case Fir(_, _, _) => PSFB
    case Twcc(_) => RTPFB
  }

  function FeedbackSize(d: Draft): (n: nat)
    requires TwccFeedback.Expressible(d)
    ensures n % 4 == 0 && n >= 20
  {
    TotalFits(d);
    Total(d)
  }

  /** The length of the packet. */
  function SizeOf(p: Outgoing): (n: nat)
    requires p.Twcc? ==> TwccFeedback.Expressible(p.draft)
    ensures n >= 8
  {
    match p
    case SenderReport(_, _, _, _, _, reports) => 28 + ReportsLen(|reports|)
    case ReceiverReport(_, reports) => 8 + ReportsLen(|reports|)
    case Cname(_, cname) => 4 + Buffers.Padded(7 + |cname|)
    case Nack(_, _, nacks) => 12 + 4 * |nacks|
    case Pli(_, _) => 12
    case Fir(_, _, requests) => 12 + 8 * |requests|
    case Twcc(draft) => FeedbackSize(draft)
  }

  /** Can the count, length and value fields say it? */
  predicate Sayable(p: Outgoing) {
    match p
    case SenderReport(_, _, _, _, _, reports) => |reports| <= 31
    case ReceiverReport(_, reports) => |reports| <= 31
    case Cname(_, cname) => |cname| <= 255
    case Nack(_, _, nacks) => 12 + 4 * |nacks| <= 0x4_0000
    case Pli(_, _) => true
    case Fir(_, _, requests) => 12 + 8 * |requests| <= 0x4_0000
    case Twcc(draft) => TwccFeedback.Expressible(draft)
  }

  /** A 64-bit number from its upper and lower half. */
  function Joined(hi: u32, lo: u32): u64 {
    0x1_0000_0000 * hi + lo
  }

  /** The sender's SSRC, wall clock, RTP timestamp and counters. */
  function SenderInfo(sender: u32, ntp: u64, rtpTimestamp: u32, packetCount: u32, octetCount: u32): (xs: seq<u32>)
    ensures |xs| == 6
  {
    [sender, ntp / 0x1_0000_0000, ntp % 0x1_0000_0000, rtpTimestamp, packetCount, octetCount]
  }

  /** The body of the packet; only a FIR depends on what lay in the buffer. */
  function BodyOf(p: Outgoing, under: seq<byte>): (s: seq<byte>)
    requires Sayable(p) && |under| == SizeOf(p)
    ensures |s| == SizeOf(p) - 4
  {
    match p
    case SenderReport(sender, ntp, rtpTimestamp, packetCount, octetCount, reports) =>
      ReportsReadBack(reports);
      BeWords(SenderInfo(sender, ntp, rtpTimestamp, packetCount, octetCount)) + Concat(ReportParts(reports))
    case ReceiverReport(sender, reports) =>
      ReportsReadBack(reports);
      Be32(sender) + Concat(ReportParts(reports))
    case Cname(ssrc, cname) => CnameSize(cname); SourceBytes(Source(ssrc, [Field(CNAME, cname)]))
    case Nack(sender, media, nacks) => NacksReadBack(nacks); BeWords([sender, media]) + Concat(NackParts(nacks))
    case Pli(sender, media) => BeWords([sender, media])
    case Fir(sender, media, requests) =>
      FirsReadBack(requests, under);
      BeWords([sender, media]) + Concat(FirParts(requests, under))
    case Twcc(draft) => PayloadSplits(draft); Payload(draft)
  }

  lemma CnameSize(cname: seq<byte>)
    requires |cname| <= 255
    ensures AllFit([Field(CNAME, cname)]) && |ItemsBytes([Field(CNAME, cname)])| == 2 + |cname|
    ensures ItemsBytes([Field(CNAME, cname)]) == ItemBytes(Field(CNAME, cname))
  {
    var items := [Field(CNAME, cname)];
    assert items[1..] == [];
    assert ItemsBytes(items) == ItemBytes(items[0]) + [];
  }

  lemma SizeFits(p: Outgoing)
    requires Sayable(p)
    ensures CountOf(p) < 32 && SizeOf(p) % 4 == 0 && SizeOf(p) / 4 - 1 <= 0xFFFF
  {
    match p
    case SenderReport(_, _, _, _, _, reports) => QuarterOf(SizeOf(p), 7 + 6 * |reports|);
    case ReceiverReport(_, reports) => QuarterOf(SizeOf(p), 2 + 6 * |reports|);
    case Cname(_, cname) => QuarterOf(SizeOf(p), 1 + Buffers.Padded(7 + |cname|) / 4);
    case Nack(_, _, nacks) => QuarterOf(SizeOf(p), 3 + |nacks|);
    case Pli(_, _) =>
    case Fir(_, _, requests) => QuarterOf(SizeOf(p), 3 + 2 * |requests|);
    case Twcc(draft) => TotalFits(draft);
  }

  function HeadOf(p: Outgoing): (s: seq<byte>)
    requires Sayable(p)
    ensures |s| == HEADER_LEN
  {
    SizeFits(p);
    Header(CountOf(p), TypeOf(p), SizeOf(p))
  }

  /** The packet, written where `under` lay. */
  function Wire(p: Outgoing, under: seq<byte>): (s: seq<byte>)
    requires Sayable(p) && |under| == SizeOf(p)
    ensures |s| == SizeOf(p)
  {
    HeadOf(p) + BodyOf(p, under)
  }

  // ── Views ─────────────────────────────────────────────────────────────

  function ReadSender(count: nat, b: seq<byte>): Incoming
    requires |b| >= SENDER_INFO_LEN + ReportsLen(count)
  {
    Incoming.SenderReport(Word(b, 0), Joined(Word(b, 4), Word(b, 8)), Word(b, 12), Word(b, 16), Word(b, 20),
                          Reports(b[24..24 + ReportsLen(count)]))
  }

  /** What the view of a block's type reads from it. */
  function Reads(b: Block): Incoming
    requires FitsType(b)
  {
    if b.packetType == SR then ReadSender(b.count, b.payload)
    else if b.packetType == RR then
      Incoming.ReceiverReport(Word(b.payload, 0), Reports(b.payload[4..4 + ReportsLen(b.count)]))
    else if b.packetType == SDES then Incoming.Sdes(ChunksFrom(b.payload, 0, b.count))
    else if b.packetType == RTPFB && b.count == FMT_NACK then
      Incoming.Nack(Word(b.payload, 0), Word(b.payload, 4), Nacks(b.payload[8..]))
    else if b.packetType == PSFB && b.count == FMT_PLI then Incoming.Pli(Word(b.payload, 0), Word(b.payload, 4))
    else if b.packetType == PSFB && b.count == FMT_FIR then
      Incoming.Fir(Word(b.payload, 0), Word(b.payload, 4), Firs(b.payload[8..]))
    else if b.packetType == RTPFB && b.count == FMT_TWCC then Incoming.Twcc(ReadingOf(b.payload))
    else Unread
  }

  /** What should be read back. */
  function Meaning(p: Outgoing): Incoming
    requires Sayable(p)
  {
    match p
    case SenderReport(sender, ntp, rtpTimestamp, packetCount, octetCount, reports) =>
      Incoming.SenderReport(sender, ntp, rtpTimestamp, packetCount, octetCount, AllCarried(reports))
    case ReceiverReport(sender, reports) => Incoming.ReceiverReport(sender, AllCarried(reports))
    case Cname(ssrc, cname) => Incoming.Sdes([SdesChunk(ssrc, ItemBytes(Field(CNAME, cname)))])
    case Nack(sender, media, nacks) => Incoming.Nack(sender, media, nacks)
    case Pli(sender, media) => Incoming.Pli(sender, media)
    case Fir(sender, media, requests) => Incoming.Fir(sender, media, requests)
    case Twcc(d) =>
      Incoming.Twcc(Reading(d.senderSsrc, d.mediaSsrc, d.refTime, d.fbCount, Numbered(d.baseSeq, d.statuses)))
  }

  // ── What is written is what is read ───────────────────────────────────

  lemma TwoWords(a: u32, b: u32, post: seq<byte>)
    ensures var s := BeWords([a, b]) + post;
            Word(s, 0) == a && Word(s, 4) == b && s[8..] == post
  {
    WordsRead([a, b], 0, post);
    WordsRead([a, b], 1, post);
  }

  lemma SixWords(xs: seq<u32>, post: seq<byte>)
    requires |xs| == 6
    ensures var s := BeWords(xs) + post;
            && Word(s, 0) == xs[0] && Word(s, 4) == xs[1] && Word(s, 8) == xs[2]
            && Word(s, 12) == xs[3] && Word(s, 16) == xs[4] && Word(s, 20) == xs[5]
            && s[24..] == post
  {
    WordsRead(xs, 0, post);
    WordsRead(xs, 1, post);
    WordsRead(xs, 2, post);
    WordsRead(xs, 3, post);
    WordsRead(xs, 4, post);
    WordsRead(xs, 5, post);
  }

  lemma HalvesJoin(x: u64)
    ensures Joined(x / 0x1_0000_0000, x % 0x1_0000_0000) == x
  {
  }

  lemma SenderWordsRead(xs: seq<u32>, rs: seq<ReportBlock>)
    requires |xs| == 6
    ensures var b := BeWords(xs) + Concat(ReportParts(rs));
            && |b| == SENDER_INFO_LEN + ReportsLen(|rs|)
            && ReadSender(|rs|, b) ==
               Incoming.SenderReport(xs[0], Joined(xs[1], xs[2]), xs[3], xs[4], xs[5], AllCarried(rs))
  {
    var data := Concat(ReportParts(rs));
    ReportsReadBack(rs);
    SixWords(xs, data);
    var b := BeWords(xs) + data;
    assert b[24..24 + ReportsLen(|rs|)] == b[24..];
  }

  lemma SenderReadsBack(sender: u32, ntp: u64, rtpTimestamp: u32, packetCount: u32, octetCount: u32, rs: seq<ReportBlock>)
    ensures var b := BeWords(SenderInfo(sender, ntp, rtpTimestamp, packetCount, octetCount)) + Concat(ReportParts(rs));
            && |b| == SENDER_INFO_LEN + ReportsLen(|rs|)
            && ReadSender(|rs|, b) ==
               Incoming.SenderReport(sender, ntp, rtpTimestamp, packetCount, octetCount, AllCarried(rs))
  {
    HalvesJoin(ntp);
    SenderWordsRead(SenderInfo(sender, ntp, rtpTimestamp, packetCount, octetCount), rs);
  }

  lemma OneWord(x: u32)
    ensures BeWords([x]) == Be32(x)
  {
    assert BeWords([x]) == BeWords([]) + Be32(x);
  }

  lemma BehindFour(head: seq<byte>, data: seq<byte>, n: nat)
    requires |head| == 4 && |data| == n
    ensures (head + data)[4..4 + n] == data
  {
  }

  lemma ReceiverReadsBack(sender: u32, rs: seq<ReportBlock>)
    ensures var b := Be32(sender) + Concat(ReportParts(rs));
            && |b| == 4 + ReportsLen(|rs|)
            && Word(b, 0) == sender && Reports(b[4..4 + ReportsLen(|rs|)]) == AllCarried(rs)
  {
    var data := Concat(ReportParts(rs));
    ReportsReadBack(rs);
    WordsRead([sender], 0, data);
    OneWord(sender);
    BehindFour(Be32(sender), data, ReportsLen(|rs|));
  }

  lemma CnameReadsBack(ssrc: u32, cname: seq<byte>)
    requires |cname| <= 255
    ensures var field := Field(CNAME, cname);
            && AllFit([field])
            && ChunksFrom(SourceBytes(Source(ssrc, [field])), 0, 1) == [SdesChunk(ssrc, ItemBytes(field))]
  {
    var sources := [Source(ssrc, [Field(CNAME, cname)])];
    CnameSize(cname);
    assert sources[1..] == [];
    assert SourcesBytes(sources) == SourceBytes(sources[0]) + [];
    var b := SourceBytes(sources[0]);
    assert [] + (SourcesBytes(sources) + []) == b;
    SourcesReadBack(b, [], sources, []);
    assert ChunksOf(sources) == [ChunkOf(sources[0])] + ChunksOf(sources[1..]);
  }

  /** The block that a packet is. */
  function BlockOf(p: Outgoing, under: seq<byte>): Block
    requires Sayable(p) && |under| == SizeOf(p)
  {
    Block(CountOf(p), TypeOf(p), BodyOf(p, under), Wire(p, under))
  }

  lemma WireIsBlock(p: Outgoing, under: seq<byte>)
    requires Sayable(p) && |under| == SizeOf(p)
    ensures ParseBlock(Wire(p, under)) == Ok(BlockOf(p, under))
  {
    SizeFits(p);
    HeaderParses(CountOf(p), TypeOf(p), SizeOf(p), BodyOf(p, under));
  }

  lemma SenderFits(p: Outgoing, under: seq<byte>)
    requires Sayable(p) && |under| == SizeOf(p) && p.SenderReport?
    ensures FitsType(BlockOf(p, under)) && Reads(BlockOf(p, under)) == Meaning(p)
  {
    SenderReadsBack(p.sender, p.ntp, p.rtpTimestamp, p.packetCount, p.octetCount, p.reports);
  }

  lemma ReceiverFits(p: Outgoing, under: seq<byte>)
    requires Sayable(p) && |under| == SizeOf(p) && p.ReceiverReport?
    ensures FitsType(BlockOf(p, under)) && Reads(BlockOf(p, under)) == Meaning(p)
  {
    ReceiverReadsBack(p.sender, p.reports);
  }

  lemma CnameFits(p: Outgoing, under: seq<byte>)
    requires Sayable(p) && |under| == SizeOf(p) && p.Cname?
    ensures FitsType(BlockOf(p, under)) && Reads(BlockOf(p, under)) == Meaning(p)
  {
    CnameReadsBack(p.ssrc, p.cname);
  }

  lemma NackFits(p: Outgoing, under: seq<byte>)
    requires Sayable(p) && |under| == SizeOf(p) && p.Nack?
    ensures FitsType(BlockOf(p, under)) && Reads(BlockOf(p, under)) == Meaning(p)
  {
    NacksReadBack(p.nacks);
    TwoWords(p.sender, p.media, Concat(NackParts(p.nacks)));
  }

  lemma PliFits(p: Outgoing, under: seq<byte>)
    requires Sayable(p) && |under| == SizeOf(p) && p.Pli?
    ensures FitsType(BlockOf(p, under)) && Reads(BlockOf(p, under)) == Meaning(p)
  {
    TwoWords(p.sender, p.media, []);
    assert BeWords([p.sender, p.media]) + [] == BeWords([p.sender, p.media]);
  }

  lemma FirFits(p: Outgoing, under: seq<byte>)
    requires Sayable(p) && |under| == SizeOf(p) && p.Fir?
    ensures FitsType(BlockOf(p, under)) && Reads(BlockOf(p, under)) == Meaning(p)
  {
    FirsReadBack(p.requests, under);
    TwoWords(p.sender, p.media, Concat(FirParts(p.requests, under)));
  }

  lemma TwccReadsBack(draft: Draft)
    requires TwccFeedback.Expressible(draft)
    ensures |Payload(draft)| >= 8 && ParseFci(Payload(draft)[8..]).Some?
    ensures ReadingOf(Payload(draft)) ==
            Reading(draft.senderSsrc, draft.mediaSsrc, draft.refTime, draft.fbCount, Numbered(draft.baseSeq, draft.statuses))
  {
    PacketParses(draft);
    FciParses(draft);
    PacketReadsBack(draft);
  }

  lemma TwccFits(p: Outgoing, under: seq<byte>)
    requires Sayable(p) && |under| == SizeOf(p) && p.Twcc?
    ensures FitsType(BlockOf(p, under)) && Reads(BlockOf(p, under)) == Meaning(p)
  {
    TwccReadsBack(p.draft);
  }

  lemma BlockFits(p: Outgoing, under: seq<byte>)
    requires Sayable(p) && |under| == SizeOf(p)
    ensures FitsType(BlockOf(p, under)) && Reads(BlockOf(p, under)) == Meaning(p)
  {
    match p
    case SenderReport(_, _, _, _, _, _) => SenderFits(p, under);
    case ReceiverReport(_, _) => ReceiverFits(p, under);
    case Cname(_, _) => CnameFits(p, under);
    case Nack(_, _, _) => NackFits(p, under);
    case Pli(_, _) => PliFits(p, under);
    case Fir(_, _, _) => FirFits(p, under);
    case Twcc(_) => TwccFits(p, under);
  }

  lemma Accepted(raw: seq<byte>, b: Block)
    requires ParseBlock(raw) == Ok(b) && b.raw == raw && FitsType(b)
    ensures IsPacket(raw) && ParsePacket(raw) == Ok(b)
  {
  }

  /** Every packet is one acceptable block that reads back as what was asked for. */
  lemma WrittenReadsBack(p: Outgoing, under: seq<byte>)
    requires Sayable(p) && |under| == SizeOf(p)
    ensures IsPacket(Wire(p, under)) && ParsePacket(Wire(p, under)) == Ok(BlockOf(p, under))
    ensures FitsType(BlockOf(p, under)) && Reads(BlockOf(p, under)) == Meaning(p)
  {
    WireIsBlock(p, under);
    BlockFits(p, under);
    Accepted(Wire(p, under), BlockOf(p, under));
  }

  /** The packets written one behind the other, each over its own stretch of buffer. */
  function Wires(ps: seq<Outgoing>, unders: seq<seq<byte>>): (ws: seq<seq<byte>>)
    requires |unders| == |ps|
    requires forall i :: 0 <= i < |ps| ==> Sayable(ps[i]) && |unders[i]| == SizeOf(ps[i])
    ensures |ws| == |ps| && forall i :: 0 <= i < |ws| ==> ws[i] == Wire(ps[i], unders[i])
  {
    seq(|ps|, i requires 0 <= i < |ps| => Wire(ps[i], unders[i]))
  }

  /**
   * Any packets the builders can write, sent as one compound datagram, are walked
   * back in order, none missing and none added, each reading as what was asked for.
   */
  lemma CompoundReadsBack(ps: seq<Outgoing>, unders: seq<seq<byte>>)
    requires |unders| == |ps|
    requires forall i :: 0 <= i < |ps| ==> Sayable(ps[i]) && |unders[i]| == SizeOf(ps[i])
    ensures var walked := Walk(Concat(Wires(ps, unders)));
            && |walked| == |ps|
            && forall i :: 0 <= i < |ps| ==>
                 walked[i].Ok? && FitsType(walked[i].value) && Reads(walked[i].value) == Meaning(ps[i])
  {
    var ws := Wires(ps, unders);
    forall i | 0 <= i < |ps|
      ensures IsPacket(ws[i]) && ParsePacket(ws[i]) == Ok(BlockOf(ps[i], unders[i]))
      ensures FitsType(BlockOf(ps[i], unders[i])) && Reads(BlockOf(ps[i], unders[i])) == Meaning(ps[i])
    {
      WrittenReadsBack(ps[i], unders[i]);
    }
    WalkOfCompound(ws);
  }
}
