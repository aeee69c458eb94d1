/** The report, description and feedback builders, writing into the caller's buffer. */
module RtcpWriter {
  import opened Buffers
  import opened Bytes
  import opened RtcpBlocks
  import opened RtcpEntries
  import opened RtcpPackets
  import opened Seqs
  import opened SourceDescriptions
  import opened TwccFeedback
  import opened Wrappers

  /** The longest block whose length field can count it. */
  const MAX_BLOCK := 0x4_0000

  // ── The packets, kind by kind ─────────────────────────────────────────

  /** The longest report packet is far below what the length field can count. */
  lemma FewReports(reports: seq<ReportBlock>)
    requires |reports| <= 31
    ensures |Concat(ReportParts(reports))| == ReportsLen(|reports|) && 28 + ReportsLen(|reports|) <= MAX_BLOCK
  {
    ReportsReadBack(reports);
  }

  function ReceiverPacket(sender: u32, reports: seq<ReportBlock>): (s: seq<byte>)
    requires |reports| <= 31
    ensures |s| == 8 + ReportsLen(|reports|)
  {
    FewReports(reports);
    Header(|reports|, RR, 8 + ReportsLen(|reports|)) + (Be32(sender) + Concat(ReportParts(reports)))
  }

  function SenderPacket(info: seq<u32>, reports: seq<ReportBlock>): (s: seq<byte>)
    requires |info| == 6 && |reports| <= 31
    ensures |s| == 28 + ReportsLen(|reports|)
  {
    FewReports(reports);
    Header(|reports|, SR, 28 + ReportsLen(|reports|)) + (BeWords(info) + Concat(ReportParts(reports)))
  }

  function CnameLen(cname: seq<byte>): (n: nat)
    ensures n % 4 == 0 && n >= 11 + |cname|
    ensures |cname| <= 255 ==> n <= MAX_BLOCK
  {
    4 + Padded(7 + |cname|)
  }

  function CnamePacket(ssrc: u32, cname: seq<byte>): (s: seq<byte>)
    requires |cname| <= 255
    ensures |s| == CnameLen(cname)
  {
    var n := CnameLen(cname);
    Header(1, SDES, n) + (Be32(ssrc) + (ItemBytes(Field(CNAME, cname)) + Zeros(n - 10 - |cname|)))
  }

  function FeedbackStart(count: nat, packetType: byte, n: nat, sender: u32, media: u32): (s: seq<byte>)
    requires count < 32 && 12 <= n <= MAX_BLOCK && n % 4 == 0
    ensures |s| == 12
  {
    Header(count, packetType, n) + BeWords([sender, media])
  }

  function NackPacket(sender: u32, media: u32, nacks: seq<NackEntry>): (s: seq<byte>)
    requires 12 + 4 * |nacks| <= MAX_BLOCK
  {
    QuarterOf(12 + 4 * |nacks|, 3 + |nacks|);
    FeedbackStart(FMT_NACK, RTPFB, 12 + 4 * |nacks|, sender, media) + Concat(NackParts(nacks))
  }

  function FirPacket(sender: u32, media: u32, requests: seq<FirEntry>, under: seq<byte>): (s: seq<byte>)
    requires 12 + 8 * |requests| <= MAX_BLOCK && |under| >= 12 + 8 * |requests|
  {
    QuarterOf(12 + 8 * |requests|, 3 + 2 * |requests|);
    FeedbackStart(FMT_FIR, PSFB, 12 + 8 * |requests|, sender, media) + Concat(FirParts(requests, under))
  }

  lemma ReceiverWire(p: Outgoing, under: seq<byte>)
    requires p.ReceiverReport? && Sayable(p) && |under| == SizeOf(p)
    ensures Wire(p, under) == ReceiverPacket(p.sender, p.reports)
  {
  }

  lemma SenderWire(p: Outgoing, under: seq<byte>)
    requires p.SenderReport? && Sayable(p) && |under| == SizeOf(p)
    ensures Wire(p, under) ==
            SenderPacket(SenderInfo(p.sender, p.ntp, p.rtpTimestamp, p.packetCount, p.octetCount), p.reports)
  {
  }

  lemma CnameWire(p: Outgoing, under: seq<byte>)
    requires p.Cname? && Sayable(p) && |under| == SizeOf(p)
    ensures Wire(p, under) == CnamePacket(p.ssrc, p.cname)
  {
    CnameSize(p.cname);
  }

  lemma NackWire(p: Outgoing, under: seq<byte>)
    requires p.Nack? && Sayable(p) && |under| == SizeOf(p)
    ensures Wire(p, under) == NackPacket(p.sender, p.media, p.nacks)
  {
    Assoc(HeadOf(p), BeWords([p.sender, p.media]), Concat(NackParts(p.nacks)));
  }

  lemma PliWire(p: Outgoing, under: seq<byte>)
    requires p.Pli? && Sayable(p) && |under| == SizeOf(p)
    ensures Wire(p, under) == FeedbackStart(FMT_PLI, PSFB, 12, p.sender, p.media)
  {
  }

  lemma FirWire(p: Outgoing, under: seq<byte>)
    requires p.Fir? && Sayable(p) && |under| == SizeOf(p)
    ensures Wire(p, under) == FirPacket(p.sender, p.media, p.requests, under)
  {
    Assoc(HeadOf(p), BeWords([p.sender, p.media]), Concat(FirParts(p.requests, under)));
  }

  // ── Pieces ────────────────────────────────────────────────────────────

  /** One part more is written behind `head` and the parts done. */
  lemma NextPart(parts: seq<seq<byte>>, i: nat, head: seq<byte>, done: seq<byte>)
    requires i < |parts| && Concat(parts) == done + Concat(parts[i..])
    ensures Concat(parts) == (done + parts[i]) + Concat(parts[i + 1..])
    ensures (head + done) + parts[i] == head + (done + parts[i])
  {
    assert parts[i..][1..] == parts[i + 1..];
    Assoc(done, parts[i], Concat(parts[i + 1..]));
    Assoc(head, done, parts[i]);
  }

  method WriteHeader(out: array<byte>, count: nat, packetType: byte, total: nat) returns (r: Option<RtcpError>)
    requires count < 32 && 8 <= total <= out.Length && total % 4 == 0
    modifies out
    ensures r == if total > MAX_BLOCK then Some(CountOverflow(total, MAX_BLOCK)) else None
    ensures r.Some? ==> out[..] == old(out[..])
    ensures r.None? ==> out[..4] == Header(count, packetType, total)
    ensures forall k :: 4 <= k < out.Length ==> out[k] == old(out[k])
  {
    var words := total / 4 - 1;
    if words > 0xFFFF {
      return Some(CountOverflow(total, MAX_BLOCK));
    }
    var _ := Append(out, 0, Header(count, packetType, total));
    r := None;
  }

  method WriteReports(out: array<byte>, start: nat, rs: seq<ReportBlock>) returns (w: nat)
    requires start + |Concat(ReportParts(rs))| <= out.Length
    modifies out
    ensures w == start + |Concat(ReportParts(rs))|
    ensures out[..w] == old(out[..start]) + Concat(ReportParts(rs))
    ensures forall k :: w <= k < out.Length ==> out[k] == old(out[k])
  {
    ghost var parts := ReportParts(rs);
    ghost var done: seq<byte> := [];
    w := start;
    assert parts[0..] == parts;
    for i := 0 to |rs|
      invariant w == start + |done|
      invariant Concat(parts) == done + Concat(parts[i..])
      invariant out[..w] == old(out[..start]) + done
      invariant forall k :: w <= k < out.Length ==> out[k] == old(out[k])
    {
      NextPart(parts, i, old(out[..start]), done);
      w := Append(out, w, ReportBytes(rs[i]));
      done := done + parts[i];
    }
  }

  method WriteNacks(out: array<byte>, start: nat, es: seq<NackEntry>) returns (w: nat)
    requires start + |Concat(NackParts(es))| <= out.Length
    modifies out
    ensures w == start + |Concat(NackParts(es))|
    ensures out[..w] == old(out[..start]) + Concat(NackParts(es))
    ensures forall k :: w <= k < out.Length ==> out[k] == old(out[k])
  {
    ghost var parts := NackParts(es);
    ghost var done: seq<byte> := [];
    w := start;
    assert parts[0..] == parts;
    for i := 0 to |es|
      invariant w == start + |done|
      invariant Concat(parts) == done + Concat(parts[i..])
      invariant out[..w] == old(out[..start]) + done
      invariant forall k :: w <= k < out.Length ==> out[k] == old(out[k])
    {
      NextPart(parts, i, old(out[..start]), done);
      w := Append(out, w, NackBytes(es[i]));
      done := done + parts[i];
    }
  }

  /** Writes five octets of an entry and steps over its reserved three. */
  method WriteFir(out: array<byte>, w: nat, e: FirEntry) returns (w': nat)
    requires w + 8 <= out.Length
    modifies out
    ensures w' == w + 8
    ensures out[..w'] == old(out[..w]) + FirBytes(e, old(out[w + 5..w + 8]))
    ensures forall k :: w' <= k < out.Length ==> out[k] == old(out[k])
  {
    var behind := Append(out, w, Be32(e.ssrc));
    behind := Append(out, behind, [e.seqNo]);
    w' := w + 8;
    assert out[..w'] == out[..behind] + out[behind..w'];
    assert out[behind..w'] == old(out[w + 5..w + 8]);
  }

  /** The buffer's first twelve octets and the first i entries over what it held. */
  ghost function FirsUpTo(was: seq<byte>, es: seq<FirEntry>, i: nat): seq<byte>
    requires 12 + 8 * |es| <= |was| && i <= |es|
  {
    was[..12] + Concat(FirParts(es, was)[..i])
  }

  /** The next entry keeps the reserved octets the buffer held, the ones before it having left them alone. */
  lemma NextFir(was: seq<byte>, now: seq<byte>, es: seq<FirEntry>, i: nat)
    requires |now| == |was| && 12 + 8 * |es| <= |was| && i < |es|
    requires now[..12 + 8 * i] == FirsUpTo(was, es, i)
    requires forall k :: 12 + 8 * i <= k < |was| ==> now[k] == was[k]
    ensures FirsUpTo(was, es, i + 1) == now[..12 + 8 * i] + FirBytes(es[i], now[8 * i + 17..8 * i + 20])
  {
    var parts := FirParts(es, was);
    assert now[8 * i + 17..8 * i + 20] == was[8 * i + 17..8 * i + 20];
    assert parts[..i + 1] == parts[..i] + [parts[i]];
    ConcatOneMore(parts[..i], parts[i]);
    Assoc(was[..12], Concat(parts[..i]), parts[i]);
  }

  method WriteFirs(out: array<byte>, es: seq<FirEntry>) returns (w: nat)
    requires 12 + 8 * |es| <= out.Length
    modifies out
    ensures w == 12 + 8 * |es|
    ensures out[..w] == old(out[..12]) + Concat(FirParts(es, old(out[..])))
    ensures forall k :: w <= k < out.Length ==> out[k] == old(out[k])
  {
    ghost var was := out[..];
    w := 12;
    for i := 0 to |es|
      invariant w == 12 + 8 * i
      invariant out[..w] == FirsUpTo(was, es, i)
      invariant forall k :: w <= k < out.Length ==> out[k] == was[k]
    {
      NextFir(was, out[..], es, i);
      w := WriteFir(out, w, es[i]);
    }
    assert FirParts(es, was)[..|es|] == FirParts(es, was);
  }

  /** Words one behind the other. */
  method AppendWords(out: array<byte>, start: nat, xs: seq<u32>) returns (w: nat)
    requires start + 4 * |xs| <= out.Length
    modifies out
    ensures w == start + 4 * |xs|
    ensures out[..w] == old(out[..start]) + BeWords(xs)
    ensures forall k :: w <= k < out.Length ==> out[k] == old(out[k])
  {
    w := start;
    for i := 0 to |xs|
      invariant w == start + 4 * i
      invariant out[..w] == old(out[..start]) + BeWords(xs[..i])
      invariant forall k :: w <= k < out.Length ==> out[k] == old(out[k])
    {
      assert xs[..i + 1][..i] == xs[..i];
      Assoc(old(out[..start]), BeWords(xs[..i]), Be32(xs[i]));
      w := Append(out, w, Be32(xs[i]));
    }
    assert xs[..|xs|] == xs;
  }

  lemma InFive(a: seq<byte>, b: seq<byte>, c: seq<byte>, d: seq<byte>, e: seq<byte>)
    ensures a + b + c + d + e == a + (b + ((c + d) + e))
  {
  }

  /** The common header and the two SSRCs in front of every feedback message. */
  method WriteFeedbackStart(out: array<byte>, count: nat, packetType: byte, total: nat, sender: u32, media: u32)
    returns (r: Option<RtcpError>)
    requires count < 32 && 12 <= total <= out.Length && total % 4 == 0
    modifies out
    ensures r == if total > MAX_BLOCK then Some(CountOverflow(total, MAX_BLOCK)) else None
    ensures r.Some? ==> out[..] == old(out[..])
    ensures r.None? ==> out[..12] == FeedbackStart(count, packetType, total, sender, media)
    ensures forall k :: 12 <= k < out.Length ==> out[k] == old(out[k])
  {
    r := WriteHeader(out, count, packetType, total);
    if r.None? {
      var _ := AppendWords(out, 4, [sender, media]);
    }
  }

  // ── The builders ──────────────────────────────────────────────────────
  // Each refuses without touching the buffer, or puts its packet at the
  // buffer's front and touches nothing behind it.

  /** A sayable packet is refused exactly for want of room, and otherwise lies where the buffer's front was. */
  ghost predicate Wrote(p: Outgoing, was: seq<byte>, now: seq<byte>, r: Result<nat, RtcpError>)
    requires Sayable(p) && |now| == |was|
  {
    var n := SizeOf(p);
    if |was| < n then r == Err(BufferTooSmall(n, |was|))
    else r == Ok(n) && now[..n] == Wire(p, was[..n])
  }

  /** So whatever a builder wrote is one acceptable packet that reads back as what was asked for. */
  lemma BuiltReadsBack(p: Outgoing, was: seq<byte>, now: seq<byte>, r: Result<nat, RtcpError>)
    requires Sayable(p) && |now| == |was| && Wrote(p, was, now, r) && r.Ok?
    ensures IsPacket(now[..r.value]) && ParsePacket(now[..r.value]).Ok?
    ensures var b := ParsePacket(now[..r.value]).value; FitsType(b) && Reads(b) == Meaning(p)
  {
    WrittenReadsBack(p, was[..r.value]);
  }

  method BuildSenderReport(out: array<byte>, sender: u32, ntp: u64, rtpTimestamp: u32, packetCount: u32, octetCount: u32,
                           reports: seq<ReportBlock>)
    returns (r: Result<nat, RtcpError>)
    modifies out
    ensures |reports| > 31 ==> r == Err(CountOverflow(|reports|, 31))
    ensures |reports| <= 31 ==>
              var p := Outgoing.SenderReport(sender, ntp, rtpTimestamp, packetCount, octetCount, reports);
              Wrote(p, old(out[..]), out[..], r)
    ensures r.Err? ==> out[..] == old(out[..])
    ensures r.Ok? ==> forall k :: r.value <= k < out.Length ==> out[k] == old(out[k])
  {
    if |reports| > 31 {
      return Err(CountOverflow(|reports|, 31));
    }
    var total := 28 + ReportsLen(|reports|);
    if out.Length < total {
      return Err(BufferTooSmall(total, out.Length));
    }
    FewReports(reports);
    var info := SenderInfo(sender, ntp, rtpTimestamp, packetCount, octetCount);
    var _ := WriteHeader(out, |reports|, SR, total);
    var w := AppendWords(out, 4, info);
    w := WriteReports(out, w, reports);
    Assoc(Header(|reports|, SR, total), BeWords(info), Concat(ReportParts(reports)));
    SenderWire(Outgoing.SenderReport(sender, ntp, rtpTimestamp, packetCount, octetCount, reports), old(out[..])[..total]);
    r := Ok(total);
  }

  method BuildReceiverReport(out: array<byte>, sender: u32, reports: seq<ReportBlock>) returns (r: Result<nat, RtcpError>)
    modifies out
    ensures |reports| > 31 ==> r == Err(CountOverflow(|reports|, 31))
    ensures |reports| <= 31 ==> Wrote(Outgoing.ReceiverReport(sender, reports), old(out[..]), out[..], r)
    ensures r.Err? ==> out[..] == old(out[..])
    ensures r.Ok? ==> forall k :: r.value <= k < out.Length ==> out[k] == old(out[k])
  {
    if |reports| > 31 {
      return Err(CountOverflow(|reports|, 31));
    }
    var total := 8 + ReportsLen(|reports|);
    if out.Length < total {
      return Err(BufferTooSmall(total, out.Length));
    }
    FewReports(reports);
    var _ := WriteHeader(out, |reports|, RR, total);
    var w := Append(out, 4, Be32(sender));
    w := WriteReports(out, w, reports);
    Assoc(Header(|reports|, RR, total), Be32(sender), Concat(ReportParts(reports)));
    ReceiverWire(Outgoing.ReceiverReport(sender, reports), old(out[..])[..total]);
    r := Ok(total);
  }

  method BuildCname(out: array<byte>, ssrc: u32, cname: seq<byte>) returns (r: Result<nat, RtcpError>)
    modifies out
    ensures |cname| > 255 ==> r == Err(Invalid)
    ensures |cname| <= 255 ==> Wrote(Outgoing.Cname(ssrc, cname), old(out[..]), out[..], r)
    ensures r.Err? ==> out[..] == old(out[..])
    ensures r.Ok? ==> forall k :: r.value <= k < out.Length ==> out[k] == old(out[k])
  {
    if |cname| > 255 {
      return Err(Invalid);
    }
    var total := CnameLen(cname);
    if out.Length < total {
      return Err(BufferTooSmall(total, out.Length));
    }
    WriteCname(out, ssrc, cname, total);
    CnameWire(Outgoing.Cname(ssrc, cname), old(out[..])[..total]);
    r := Ok(total);
  }

  /** Header, SSRC, the one item and the zeros behind it. */
  method WriteCname(out: array<byte>, ssrc: u32, cname: seq<byte>, total: nat)
    requires |cname| <= 255 && total == CnameLen(cname) <= out.Length
    modifies out
    ensures out[..total] == CnamePacket(ssrc, cname)
    ensures forall k :: total <= k < out.Length ==> out[k] == old(out[k])
  {
    var len := |cname|;
    var _ := WriteHeader(out, 1, SDES, total);
    var w := Append(out, 4, Be32(ssrc));
    w := Append(out, w, [CNAME, len]);
    w := Append(out, w, cname);
    w := Append(out, w, Zeros(total - w));
    InFive(Header(1, SDES, total), Be32(ssrc), [CNAME, len], cname, Zeros(total - 10 - len));
  }

  method BuildNack(out: array<byte>, sender: u32, media: u32, nacks: seq<NackEntry>) returns (r: Result<nat, RtcpError>)
    modifies out
    ensures var n := 12 + 4 * |nacks|;
            if n > MAX_BLOCK then
              r == Err(if out.Length < n then BufferTooSmall(n, out.Length) else CountOverflow(n, MAX_BLOCK))
            else Wrote(Outgoing.Nack(sender, media, nacks), old(out[..]), out[..], r)
    ensures r.Err? ==> out[..] == old(out[..])
    ensures r.Ok? ==> forall k :: r.value <= k < out.Length ==> out[k] == old(out[k])
  {
    var total := 12 + 4 * |nacks|;
    if out.Length < total {
      return Err(BufferTooSmall(total, out.Length));
    }
    var refused := WriteFeedbackStart(out, FMT_NACK, RTPFB, total, sender, media);
    if refused.Some? {
      return Err(refused.value);
    }
    ConcatSize(NackParts(nacks), 4);
    var _ := WriteNacks(out, 12, nacks);
    NackWire(Outgoing.Nack(sender, media, nacks), old(out[..])[..total]);
    r := Ok(total);
  }

  method BuildPli(out: array<byte>, sender: u32, media: u32) returns (r: Result<nat, RtcpError>)
    modifies out
    ensures Wrote(Outgoing.Pli(sender, media), old(out[..]), out[..], r)
    ensures r.Err? ==> out[..] == old(out[..])
    ensures r.Ok? ==> forall k :: r.value <= k < out.Length ==> out[k] == old(out[k])
  {
    if out.Length < 12 {
      return Err(BufferTooSmall(12, out.Length));
    }
    var _ := WriteFeedbackStart(out, FMT_PLI, PSFB, 12, sender, media);
    PliWire(Outgoing.Pli(sender, media), old(out[..])[..12]);
    r := Ok(12);
  }

  method BuildFir(out: array<byte>, sender: u32, media: u32, requests: seq<FirEntry>) returns (r: Result<nat, RtcpError>)
    modifies out
    ensures var n := 12 + 8 * |requests|;
            if n > MAX_BLOCK then
              r == Err(if out.Length < n then BufferTooSmall(n, out.Length) else CountOverflow(n, MAX_BLOCK))
            else Wrote(Outgoing.Fir(sender, media, requests), old(out[..]), out[..], r)
    ensures r.Err? ==> out[..] == old(out[..])
    ensures r.Ok? ==> forall k :: r.value <= k < out.Length ==> out[k] == old(out[k])
  {
    var total := 12 + 8 * |requests|;
    if out.Length < total {
      return Err(BufferTooSmall(total, out.Length));
    }
    ghost var was := out[..];
    var refused := WriteFeedbackStart(out, FMT_FIR, PSFB, total, sender, media);
    if refused.Some? {
      return Err(refused.value);
    }
    SameReserved(requests, out[..], was[..total]);
    var _ := WriteFirs(out, requests);
    FirWire(Outgoing.Fir(sender, media, requests), was[..total]);
    r := Ok(total);
  }

  lemma SameReserved(es: seq<FirEntry>, a: seq<byte>, b: seq<byte>)
    requires 12 + 8 * |es| <= |a| && 12 + 8 * |es| <= |b|
    requires forall k :: 12 <= k < 12 + 8 * |es| ==> a[k] == b[k]
    ensures FirParts(es, a) == FirParts(es, b)
  {
    forall i | 0 <= i < |es| ensures a[8 * i + 17..8 * i + 20] == b[8 * i + 17..8 * i + 20] {
    }
  }

  lemma {:induction false} EighthPart(parts: seq<seq<byte>>, i: nat)
    requires i < |parts| && forall k :: 0 <= k < |parts| ==> |parts[k]| == 8
    ensures |Concat(parts)| == 8 * |parts|
    ensures Concat(parts)[8 * i..8 * i + 8] == parts[i]
    decreases |parts|
  {
    ConcatSize(parts, 8);
    if i > 0 {
      EighthPart(parts[1..], i - 1);
      assert Concat(parts)[8 * i..8 * i + 8] == Concat(parts[1..])[8 * (i - 1)..8 * (i - 1) + 8];
    }
  }

  lemma LastThree(head: seq<byte>, data: seq<byte>, at: nat, x: seq<byte>, reserved: seq<byte>)
    requires |head| == 12 && at + 8 <= |data| && |x| == 5 && |reserved| == 3
    requires data[at..at + 8] == x + reserved
    ensures (head + data)[at + 17..at + 20] == reserved
  {
    assert (head + data)[at + 17..at + 20] == data[at..at + 8][5..];
  }

  lemma ReservedInPacket(sender: u32, media: u32, requests: seq<FirEntry>, under: seq<byte>, i: nat)
    requires 12 + 8 * |requests| <= MAX_BLOCK && |under| >= 12 + 8 * |requests| && i < |requests|
    ensures |FirPacket(sender, media, requests, under)| == 12 + 8 * |requests|
    ensures FirPacket(sender, media, requests, under)[8 * i + 17..8 * i + 20] == under[8 * i + 17..8 * i + 20]
  {
    var parts := FirParts(requests, under);
    QuarterOf(12 + 8 * |requests|, 3 + 2 * |requests|);
    EighthPart(parts, i);
    Assoc(Be32(requests[i].ssrc), [requests[i].seqNo], under[8 * i + 17..8 * i + 20]);
    LastThree(FeedbackStart(FMT_FIR, PSFB, 12 + 8 * |requests|, sender, media), Concat(parts), 8 * i,
              Be32(requests[i].ssrc) + [requests[i].seqNo], under[8 * i + 17..8 * i + 20]);
  }

  /**
   * The reserved octets of a FIR entry are whatever the buffer held: they are
   * zero exactly when they were zero before.
   */
  lemma ReservedAsFound(p: Outgoing, under: seq<byte>, i: nat)
    requires p.Fir? && Sayable(p) && |under| == SizeOf(p) && i < |p.requests|
    ensures Wire(p, under)[8 * i + 17..8 * i + 20] == under[8 * i + 17..8 * i + 20]
  {
    FirWire(p, under);
    ReservedInPacket(p.sender, p.media, p.requests, under, i);
  }
}
