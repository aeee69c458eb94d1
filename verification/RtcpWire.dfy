/**
 * RTCP packets (RFC 3550 section 6, RFC 4585 section 6) octet by octet: what the
 * builders' packets are, and which octets are a block.
 */
module RtcpWire {
  import Buffers
  import opened Bytes
  import opened Octets
  import opened RtcpBlocks
  import opened RtcpEntries
  import opened RtcpPackets
  import opened Seqs
  import opened SourceDescriptions
  import TwccBodies
  import opened TwccFeedback
  import opened Wrappers

  // ── Blocks ────────────────────────────────────────────────────────────

  /** The parts of a block: padding ends in its own length, and all fills whole words. */
  predicate Framable(count: nat, body: seq<byte>, pad: seq<byte>) {
    && count < 32 && (|body| + |pad|) % 4 == 0 && (|body| + |pad|) / 4 < 0x1_0000
    && (pad != [] ==> pad[|pad| - 1] == |pad|)
  }

  function Framed(count: nat, packetType: byte, body: seq<byte>, pad: seq<byte>): seq<byte>
    requires Framable(count, body, pad)
  {
    var words := (|body| + |pad|) / 4;
    [(if pad == [] then 0x80 else 0xA0) + count, packetType, words / 256, words % 256] + (body + pad)
  }

  lemma LengthReads(words: nat)
    requires words < 0x1_0000
    ensures Read16(words / 256, words % 256) == words
  {
  }

  lemma HeadReads(count: nat, padded: bool)
    requires count < 32
    ensures var b := (if padded then 0xA0 else 0x80) + count; b / 64 == 2 && b / 32 % 2 == (if padded then 1 else 0) && b % 32 == count
  {
  }

  lemma WholeWords(n: nat)
    requires n % 4 == 0
    ensures (n / 4 + 1) * 4 == n + 4
  {
  }

  /** A block stands at the front of these octets, its last `n` being padding. */
  predicate Stands(buf: seq<byte>, b: Block, n: nat) {
    && 4 <= |b.raw| <= |buf| && buf[..|b.raw|] == b.raw && BlockLen(buf[2], buf[3]) == |b.raw|
    && buf[0] / 64 == 2 && buf[0] % 32 == b.count && buf[1] == b.packetType
    && n <= |b.raw| - 4 && b.payload == b.raw[4..|b.raw| - n]
    && (if n == 0 then buf[0] / 32 % 2 == 0 else buf[0] / 32 % 2 == 1 && b.raw[|b.raw| - 1] == n)
  }

  lemma StandingParses(buf: seq<byte>, b: Block, n: nat)
    requires Stands(buf, b, n)
    ensures ParseBlock(buf) == Ok(b)
  {
    var body := b.raw[4..];
    assert body[..|body| - n] == b.payload;
    if n == 0 { assert body == b.payload; }
  }

  lemma ParsedStands(buf: seq<byte>, b: Block)
    requires ParseBlock(buf) == Ok(b)
    ensures Stands(buf, b, |b.raw| - 4 - |b.payload|)
  {
  }

  /** Every framed block parses to its parts, whatever follows it. */
  lemma FramedParses(count: nat, packetType: byte, body: seq<byte>, pad: seq<byte>, rest: seq<byte>)
    requires Framable(count, body, pad)
    ensures var raw := Framed(count, packetType, body, pad);
            ParseBlock(raw + rest) == Ok(Block(count, packetType, body, raw))
  {
    var words := (|body| + |pad|) / 4;
    var raw := Framed(count, packetType, body, pad);
    LengthReads(words);
    HeadReads(count, pad != []);
    WholeWords(|body| + |pad|);
    FramedCut(raw[..4], body, pad, rest, raw);
    StandingParses(raw + rest, Block(count, packetType, body, raw), |pad|);
  }

  lemma FramedCut(head: seq<byte>, body: seq<byte>, pad: seq<byte>, rest: seq<byte>, raw: seq<byte>)
    requires |head| == 4 && raw == head + (body + pad)
    ensures (raw + rest)[..|raw|] == raw && raw[4..|raw| - |pad|] == body
    ensures pad != [] ==> raw[|raw| - 1] == pad[|pad| - 1]
  {
  }

  lemma HeadIs(b: byte)
    requires b / 64 == 2
    ensures b == (if b / 32 % 2 == 1 then 0xA0 else 0x80) + b % 32
  {
  }

  lemma LengthOctets(hi: byte, lo: byte)
    ensures Read16(hi, lo) / 256 == hi && Read16(hi, lo) % 256 == lo
  {
  }

  lemma StandingIsFramed(buf: seq<byte>, b: Block, pad: seq<byte>)
    requires |pad| <= |b.raw| - 4 && Stands(buf, b, |pad|) && pad == b.raw[|b.raw| - |pad|..]
    ensures Framable(b.count, b.payload, pad) && Framed(b.count, b.packetType, b.payload, pad) == b.raw
  {
    HeadIs(buf[0]);
    var words := Read16(buf[2], buf[3]);
    LengthOctets(buf[2], buf[3]);
    CutHead(b.raw, |b.payload|);
    WholeWordsBack(|b.payload| + |pad|, words);
    assert forall i :: 0 <= i < 4 ==> b.raw[i] == buf[i];
    FramedIs(b.count, b.packetType, b.payload, pad, words, b.raw);
  }

  lemma FramedIs(count: nat, packetType: byte, body: seq<byte>, pad: seq<byte>, words: nat, raw: seq<byte>)
    requires Framable(count, body, pad) && words == (|body| + |pad|) / 4
    requires raw == [(if pad == [] then 0x80 else 0xA0) + count, packetType, words / 256, words % 256] + (body + pad)
    ensures Framed(count, packetType, body, pad) == raw
  {
  }

  lemma CutHead(raw: seq<byte>, k: nat)
    requires 4 <= |raw| && k <= |raw| - 4
    ensures [raw[0], raw[1], raw[2], raw[3]] + (raw[4..4 + k] + raw[4 + k..]) == raw
  {
  }

  /** Every block that parses is framed like that. */
  lemma ParsedIsFramed(buf: seq<byte>) returns (pad: seq<byte>)
    requires ParseBlock(buf).Ok?
    ensures var b := ParseBlock(buf).value;
            Framable(b.count, b.payload, pad) && Framed(b.count, b.packetType, b.payload, pad) == b.raw
  {
    var b := ParseBlock(buf).value;
    ParsedStands(buf, b);
    pad := b.raw[4 + |b.payload|..];
    StandingIsFramed(buf, b, pad);
  }

  lemma WholeWordsBack(n: nat, words: nat)
    requires n + 4 == (words + 1) * 4
    ensures n % 4 == 0 && n / 4 == words
  {
  }

  /** A datagram starts with a block exactly when it starts with one framed like that. */
  lemma BlockIff(buf: seq<byte>)
    ensures ParseBlock(buf).Ok? <==>
            exists count, packetType, body, pad ::
              Framable(count, body, pad) && Framed(count, packetType, body, pad) <= buf
  {
    if ParseBlock(buf).Ok? {
      var pad := ParsedIsFramed(buf);
      var b := ParseBlock(buf).value;
      assert Framed(b.count, b.packetType, b.payload, pad) <= buf;
    }
    forall count, packetType, body, pad | Framable(count, body, pad) && Framed(count, packetType, body, pad) <= buf
      ensures ParseBlock(buf).Ok?
    {
      var raw := Framed(count, packetType, body, pad);
      FramedParses(count, packetType, body, pad, buf[|raw|..]);
      assert raw + buf[|raw|..] == buf;
    }
  }

  // ── The builders' packets ─────────────────────────────────────────────

  function ReportOctets(r: ReportBlock): (s: seq<byte>)
    ensures |s| == 24
  {
    var lost := r.cumulativeLost % 0x100_0000;
    W(r.ssrc) + [r.fractionLost, lost / 0x1_0000, lost / 256 % 256, lost % 256]
    + W(r.highestSeq) + W(r.jitter) + W(r.lsr) + W(r.dlsr)
  }

  function NackOctets(e: NackEntry): (s: seq<byte>)
    ensures |s| == 4
  {
    [e.pid / 256, e.pid % 256, e.blp / 256, e.blp % 256]
  }

  function AllReports(rs: seq<ReportBlock>): (s: seq<byte>)
    ensures |s| == 24 * |rs|
  {
    if rs == [] then [] else ReportOctets(rs[0]) + AllReports(rs[1..])
  }

  function AllNacks(es: seq<NackEntry>): (s: seq<byte>)
    ensures |s| == 4 * |es|
  {
    if es == [] then [] else NackOctets(es[0]) + AllNacks(es[1..])
  }

  /** Each request over its own eight octets, of which the last three stay. */
  function AllFirs(es: seq<FirEntry>, under: seq<byte>): (s: seq<byte>)
    requires |under| == 8 * |es|
    ensures |s| == 8 * |es|
  {
    if es == [] then [] else W(es[0].ssrc) + [es[0].seqNo] + under[5..8] + AllFirs(es[1..], under[8..])
  }

  lemma WordIs(x: u32)
    ensures Be32(x) == W(x)
  {
  }

  lemma WordsAre(a: u32, b: u32)
    ensures BeWords([a, b]) == W(a) + W(b)
  {
    assert [a, b][..1] == [a] && [a][..0] == [];
  }

  lemma FourWordsAre(a: u32, b: u32, c: u32, d: u32)
    ensures BeWords([a, b, c, d]) == W(a) + W(b) + W(c) + W(d)
  {
    assert [a, b, c, d][..3] == [a, b, c] && [a, b, c][..2] == [a, b];
    WordsAre(a, b);
  }

  lemma SixWordsAre(xs: seq<u32>)
    requires |xs| == 6
    ensures BeWords(xs) == W(xs[0]) + W(xs[1]) + W(xs[2]) + W(xs[3]) + W(xs[4]) + W(xs[5])
  {
    FourWordsAre(xs[0], xs[1], xs[2], xs[3]);
    assert xs[..5][..4] == [xs[0], xs[1], xs[2], xs[3]];
    assert BeWords(xs) == BeWords(xs[..5]) + Be32(xs[5]);
    assert BeWords(xs[..5]) == BeWords(xs[..5][..4]) + Be32(xs[4]);
  }

  lemma ReportIs(r: ReportBlock)
    ensures ReportBytes(r) == ReportOctets(r)
  {
    FourWordsAre(r.highestSeq, r.jitter, r.lsr, r.dlsr);
    LossIs(r.fractionLost, Low24(r.cumulativeLost));
  }

  lemma LossIs(fraction: byte, lost: u32)
    requires lost < 0x100_0000
    ensures [fraction] + Be24(lost) == [fraction, lost / 0x1_0000, lost / 256 % 256, lost % 256]
  {
  }

  lemma {:induction false} ReportsAre(rs: seq<ReportBlock>)
    ensures Concat(ReportParts(rs)) == AllReports(rs)
  {
    if rs != [] {
      ReportIs(rs[0]);
      ReportsAre(rs[1..]);
      assert ReportParts(rs)[1..] == ReportParts(rs[1..]);
    }
  }

  lemma {:induction false} NacksAre(es: seq<NackEntry>)
    ensures Concat(NackParts(es)) == AllNacks(es)
  {
    if es != [] {
      NacksAre(es[1..]);
      assert NackParts(es)[1..] == NackParts(es[1..]);
    }
  }

  lemma FirIs(e: FirEntry, reserved: seq<byte>)
    requires |reserved| == 3
    ensures FirBytes(e, reserved) == W(e.ssrc) + [e.seqNo] + reserved
  {
  }

  lemma FirPartsTail(es: seq<FirEntry>, under: seq<byte>, tail: seq<byte>)
    requires es != [] && |under| == 12 + 8 * |es| && |tail| == 12 + 8 * |es[1..]| && under[20..] == tail[12..]
    ensures FirParts(es, under)[1..] == FirParts(es[1..], tail)
  {
    var a, b := FirParts(es, under)[1..], FirParts(es[1..], tail);
    forall i | 0 <= i < |b| ensures a[i] == b[i] {
      assert a[i] == FirParts(es, under)[i + 1];
      FirPartTail(es, under, tail, i);
    }
  }

  lemma FirPartTail(es: seq<FirEntry>, under: seq<byte>, tail: seq<byte>, i: nat)
    requires i + 1 < |es| && |under| == 12 + 8 * |es| && |tail| == |under| - 8 && under[20..] == tail[12..]
    ensures FirBytes(es[i + 1], under[8 * (i + 1) + 17..8 * (i + 1) + 20]) == FirBytes(es[1..][i], tail[8 * i + 17..8 * i + 20])
  {
    SameStretch(under, tail, 8 * i + 17);
  }

  lemma SameStretch(under: seq<byte>, tail: seq<byte>, at: nat)
    requires |under| == |tail| + 8 >= 20 && under[20..] == tail[12..] && 12 <= at <= |tail| - 3
    ensures under[at + 8..at + 11] == tail[at..at + 3]
  {
    assert under[at + 8] == under[20..][at - 12] == tail[at];
    assert under[at + 9] == under[20..][at - 11] == tail[at + 1];
    assert under[at + 10] == under[20..][at - 10] == tail[at + 2];
  }

  lemma {:induction false} FirsAre(es: seq<FirEntry>, under: seq<byte>)
    requires |under| == 12 + 8 * |es|
    ensures Concat(FirParts(es, under)) == AllFirs(es, under[12..])
    decreases |es|
  {
    if es != [] {
      var tail := under[..12] + under[20..];
      BehindTwelve(under, tail);
      FirsAre(es[1..], tail);
      FirPartsTail(es, under, tail);
      FirIs(es[0], under[17..20]);
    }
  }

  lemma BehindTwelve(under: seq<byte>, tail: seq<byte>)
    requires |under| >= 20 && tail == under[..12] + under[20..]
    ensures tail[12..] == under[20..] && under[12..][5..8] == under[17..20] && under[12..][8..] == tail[12..]
  {
  }

  function CountIn(p: Outgoing): nat {
    match p
    case SenderReport(_, _, _, _, _, reports) => |reports|
    case ReceiverReport(_, reports) => |reports|
    case Cname(_, _) => 1
    case Nack(_, _, _) => 1
    case Pli(_, _) => 1
    case Fir(_, _, _) => 4
    case Twcc(_) => 15
  }

  function TypeIn(p: Outgoing): byte {
    match p
    case SenderReport(_, _, _, _, _, _) => 200
    case ReceiverReport(_, _) => 201
    case Cname(_, _) => 202
    case Nack(_, _, _) => 205
    case Pli(_, _) => 206
    case Fir(_, _, _) => 206
    case Twcc(_) => 205
  }

  /** The octets behind the header; a name is ended by one to four nulls. */
  function BodyIn(p: Outgoing, under: seq<byte>): seq<byte>
    requires Sayable(p) && |under| == SizeOf(p)
  {
    match p
    case SenderReport(sender, ntp, rtpTimestamp, packetCount, octetCount, reports) =>
      W(sender) + W(ntp / 0x1_0000_0000) + W(ntp % 0x1_0000_0000) + W(rtpTimestamp) + W(packetCount) + W(octetCount)
      + AllReports(reports)
    case ReceiverReport(sender, reports) => W(sender) + AllReports(reports)
    case Cname(ssrc, cname) => W(ssrc) + ([1, |cname|] + cname + Nulls(4 - (2 + |cname|) % 4))
    case Nack(sender, media, nacks) => W(sender) + W(media) + AllNacks(nacks)
    case Pli(sender, media) => W(sender) + W(media)
    case Fir(sender, media, requests) => W(sender) + W(media) + AllFirs(requests, under[12..])
    case Twcc(draft) => W(draft.senderSsrc) + W(draft.mediaSsrc) + Fci(draft)
  }

  lemma CnameBodyIs(ssrc: u32, cname: seq<byte>)
    requires |cname| <= 255
    ensures AllFit([Field(CNAME, cname)])
    ensures SourceBytes(Source(ssrc, [Field(CNAME, cname)])) ==
            W(ssrc) + ([1, |cname|] + cname + Nulls(4 - (2 + |cname|) % 4))
  {
    CnameSize(cname);
    NullsAre(|cname|);
  }

  lemma NullsAre(n: nat)
    ensures Buffers.Padded(7 + n) - 6 - n == 4 - (2 + n) % 4
    ensures Buffers.Zeros(4 - (2 + n) % 4) == Nulls(4 - (2 + n) % 4)
  {
  }

  lemma TwccBodyIs(d: Draft)
    requires TwccFeedback.Expressible(d)
    ensures Payload(d) == W(d.senderSsrc) + W(d.mediaSsrc) + Fci(d)
  {
  }

  lemma SenderBodyIs(p: Outgoing, under: seq<byte>)
    requires p.SenderReport? && Sayable(p) && |under| == SizeOf(p)
    ensures BodyOf(p, under) == BodyIn(p, under)
  {
    SixWordsAre(SenderInfo(p.sender, p.ntp, p.rtpTimestamp, p.packetCount, p.octetCount));
    ReportsAre(p.reports);
  }

  lemma FirBodyIs(p: Outgoing, under: seq<byte>)
    requires p.Fir? && Sayable(p) && |under| == SizeOf(p)
    ensures BodyOf(p, under) == BodyIn(p, under)
  {
    WordsAre(p.sender, p.media);
    FirsAre(p.requests, under);
  }

  lemma BodyIs(p: Outgoing, under: seq<byte>)
    requires Sayable(p) && |under| == SizeOf(p)
    ensures BodyOf(p, under) == BodyIn(p, under)
  {
    match p
    case SenderReport(_, _, _, _, _, _) => SenderBodyIs(p, under);
    case ReceiverReport(sender, reports) => ReportsAre(reports);
    case Cname(ssrc, cname) => CnameBodyIs(ssrc, cname);
    case Nack(sender, media, nacks) => WordsAre(sender, media); NacksAre(nacks);
    case Pli(sender, media) => WordsAre(sender, media);
    case Fir(_, _, _) => FirBodyIs(p, under);
    case Twcc(draft) => TwccBodyIs(draft);
  }

  lemma HeadOfIs(p: Outgoing)
    requires Sayable(p)
    ensures var words := SizeOf(p) / 4 - 1;
            CountIn(p) < 32 && 0 <= words < 0x1_0000 && HeadOf(p) == [0x80 + CountIn(p), TypeIn(p), words / 256, words % 256]
  {
    SizeFits(p);
  }

  lemma FramedPlain(count: nat, packetType: byte, body: seq<byte>, n: nat)
    requires count < 32 && n % 4 == 0 && |body| + 4 == n && n / 4 - 1 < 0x1_0000
    ensures 0 <= n / 4 - 1 && Framable(count, body, [])
    ensures [0x80 + count, packetType, (n / 4 - 1) / 256, (n / 4 - 1) % 256] + body == Framed(count, packetType, body, [])
  {
    assert |body| / 4 == n / 4 - 1;
    assert body + [] == body;
  }

  /** Every packet the builders write, octet by octet. */
  lemma WireIs(p: Outgoing, under: seq<byte>)
    requires Sayable(p) && |under| == SizeOf(p)
    ensures Framable(CountIn(p), BodyIn(p, under), [])
    ensures Wire(p, under) == Framed(CountIn(p), TypeIn(p), BodyIn(p, under), [])
  {
    SizeFits(p);
    HeadOfIs(p);
    BodyIs(p, under);
    FramedPlain(CountIn(p), TypeIn(p), BodyIn(p, under), SizeOf(p));
  }

  // ── What is accepted, and what is read from it ────────────────────────

  /** What each packet type asks of its body. */
  ghost predicate BodyFits(count: nat, packetType: byte, body: seq<byte>) {
    && (packetType == 200 ==> |body| >= 24 + 24 * count)
    && (packetType == 201 ==> |body| >= 4 + 24 * count)
    && (packetType == 203 ==> |body| >= 4 * count)
    && (packetType == 205 && (count == 1 || count == 15) ==> |body| >= 8)
    && (packetType == 205 && count == 15 ==> exists t :: TwccBodies.Sayable(t) && TwccBodies.WireOf(t) == body[8..])
    && (packetType == 206 && (count == 1 || count == 4) ==> |body| >= 8)
    && (packetType == 206 && count == 15 && |body| >= 12 && body[8..12] == [0x52, 0x45, 0x4D, 0x42] ==>
          |body| >= 16 && (|body| - 16) / 4 >= body[12])
  }

  lemma FitsIff(b: Block)
    ensures FitsType(b) <==> BodyFits(b.count, b.packetType, b.payload)
  {
    if |b.payload| >= 8 { TwccBodies.AcceptedIff(b.payload[8..]); }
    if |b.payload| >= 16 { QuartersHold(|b.payload| - 16, b.payload[12]); }
  }

  lemma QuartersHold(n: nat, k: byte)
    ensures n >= RembBytes(k) <==> n / 4 >= k
  {
  }

  /** A datagram starts with an acceptable packet exactly when it starts with a framed block whose body fits its type. */
  lemma PacketIff(buf: seq<byte>)
    ensures ParsePacket(buf).Ok? <==>
            exists count, packetType, body, pad ::
              && Framable(count, body, pad) && Framed(count, packetType, body, pad) <= buf
              && BodyFits(count, packetType, body)
  {
    if ParsePacket(buf).Ok? {
      var pad := ParsedIsFramed(buf);
      var b := ParsePacket(buf).value;
      FitsIff(b);
      assert Framed(b.count, b.packetType, b.payload, pad) <= buf;
    }
    forall count, packetType, body, pad
      | Framable(count, body, pad) && Framed(count, packetType, body, pad) <= buf && BodyFits(count, packetType, body)
      ensures ParsePacket(buf).Ok?
    {
      var raw := Framed(count, packetType, body, pad);
      FramedParses(count, packetType, body, pad, buf[|raw|..]);
      assert raw + buf[|raw|..] == buf;
      FitsIff(Block(count, packetType, body, raw));
    }
  }

  /** Octets behind the reports a sender report counts are not read. */
  lemma SenderReads(sender: u32, ntp: u64, rtpTimestamp: u32, packetCount: u32, octetCount: u32, rs: seq<ReportBlock>,
                    more: seq<byte>, b: Block)
    requires b.packetType == 200 && b.count == |rs|
    requires b.payload ==
             W(sender) + W(ntp / 0x1_0000_0000) + W(ntp % 0x1_0000_0000) + W(rtpTimestamp) + W(packetCount) + W(octetCount)
             + AllReports(rs) + more
    ensures FitsType(b)
    ensures Reads(b) == Incoming.SenderReport(sender, ntp, rtpTimestamp, packetCount, octetCount, AllCarried(rs))
  {
    var xs, data := SenderInfo(sender, ntp, rtpTimestamp, packetCount, octetCount), AllReports(rs);
    SixWordsAre(xs);
    ReportsAre(rs);
    ReportsReadBack(rs);
    HalvesJoin(ntp);
    SixWords(xs, data + more);
    Behind(BeWords(xs), data, more);
    assert b.payload == BeWords(xs) + (data + more);
  }

  lemma Behind(head: seq<byte>, data: seq<byte>, more: seq<byte>)
    ensures head + data + more == head + (data + more)
    ensures (head + (data + more))[|head|..|head| + |data|] == data
  {
  }

  /** Nor behind those a receiver report counts. */
  lemma ReceiverReads(sender: u32, rs: seq<ReportBlock>, more: seq<byte>, b: Block)
    requires b.packetType == 201 && b.count == |rs| && b.payload == W(sender) + AllReports(rs) + more
    ensures FitsType(b) && Reads(b) == Incoming.ReceiverReport(sender, AllCarried(rs))
  {
    Behind(W(sender), AllReports(rs), more);
    ReceiverView(b, sender, AllReports(rs) + more);
    ReportsOf(rs, more);
  }

  lemma ReceiverView(b: Block, sender: u32, data: seq<byte>)
    requires b.packetType == 201 && |data| >= 24 * b.count && b.payload == W(sender) + data
    ensures FitsType(b) && Reads(b) == Incoming.ReceiverReport(sender, Reports(data[..24 * b.count]))
  {
    WordsRead([sender], 0, data);
    OneWord(sender);
    assert b.payload[4..4 + 24 * b.count] == data[..24 * b.count];
  }

  lemma ReportsOf(rs: seq<ReportBlock>, more: seq<byte>)
    ensures (AllReports(rs) + more)[..24 * |rs|] == AllReports(rs) && Reports(AllReports(rs)) == AllCarried(rs)
  {
    ReportsAre(rs);
    ReportsReadBack(rs);
  }

  lemma NacksOf(es: seq<NackEntry>, more: seq<byte>)
    requires |more| < 4
    ensures Nacks(AllNacks(es) + more) == es
  {
    NacksAre(es);
    var ps := NackParts(es);
    PiecesOfConcat(ps, 4, more);
    forall i | 0 <= i < |es| ensures ParseNack(ps[i]) == es[i] { NackReadsBack(es[i]); }
  }

  lemma NackView(b: Block, sender: u32, media: u32, fci: seq<byte>)
    requires b.packetType == 205 && b.count == 1 && b.payload == BeWords([sender, media]) + fci
    ensures FitsType(b) && Reads(b) == Incoming.Nack(sender, media, Nacks(fci))
  {
    TwoWords(sender, media, fci);
  }

  /** A NACK's entries are read as far as whole entries go. */
  lemma NacksRead(sender: u32, media: u32, es: seq<NackEntry>, more: seq<byte>, b: Block)
    requires b.packetType == 205 && b.count == 1 && |more| < 4 && b.payload == W(sender) + W(media) + AllNacks(es) + more
    ensures FitsType(b) && Reads(b) == Incoming.Nack(sender, media, es)
  {
    WordsAre(sender, media);
    Behind(BeWords([sender, media]), AllNacks(es), more);
    NacksOf(es, more);
    NackView(b, sender, media, AllNacks(es) + more);
  }

  lemma FirsOf(es: seq<FirEntry>, under: seq<byte>, more: seq<byte>)
    requires |under| == 8 * |es| && |more| < 8
    ensures Firs(AllFirs(es, under) + more) == es
  {
    var whole := Nulls(12) + under;
    assert whole[12..] == under;
    FirsAre(es, whole);
    var ps := FirParts(es, whole);
    PiecesOfConcat(ps, 8, more);
    forall i | 0 <= i < |es| ensures ParseFir(ps[i]) == es[i] { FirReadsBack(es[i], whole[8 * i + 17..8 * i + 20]); }
  }

  lemma FirView(b: Block, sender: u32, media: u32, fci: seq<byte>)
    requires b.packetType == 206 && b.count == 4 && b.payload == BeWords([sender, media]) + fci
    ensures FitsType(b) && Reads(b) == Incoming.Fir(sender, media, Firs(fci))
  {
    TwoWords(sender, media, fci);
  }

  /** So are a FIR's, whatever their reserved octets hold. */
  lemma FirsRead(sender: u32, media: u32, es: seq<FirEntry>, under: seq<byte>, more: seq<byte>, b: Block)
    requires |under| == 8 * |es| && |more| < 8 && b.packetType == 206 && b.count == 4
    requires b.payload == W(sender) + W(media) + AllFirs(es, under) + more
    ensures FitsType(b) && Reads(b) == Incoming.Fir(sender, media, es)
  {
    WordsAre(sender, media);
    Behind(BeWords([sender, media]), AllFirs(es, under), more);
    FirsOf(es, under, more);
    FirView(b, sender, media, AllFirs(es, under) + more);
  }
}
