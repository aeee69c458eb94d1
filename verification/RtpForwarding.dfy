/** The main result on rewriting: when parsing the forwarded packet gives what was asked for. */
module RtpForwarding {
  import opened Wrappers
  import opened Bytes
  import opened Buffers
  import opened RtpPackets
  import opened RtpRewrite
  import opened RtpRewriteTheorem

  // ------------------------------------------------------------------------
  // Parsing a packet assembled from its parts
  // ------------------------------------------------------------------------

  /** What is known of the parts of an assembled packet. */
  datatype Shape = Shape(cc: nat, padded: bool, padding: nat, ext: Option<(u16, u16)>)

  ghost predicate Fits(s: Shape, head: seq<byte>, csrcs: seq<byte>, block: seq<byte>, body: seq<byte>) {
    && |head| == 12 && s.cc < 16 && |csrcs| == 4 * s.cc
    && head[0] == 128 + s.cc + (if s.padded then 32 else 0) + (if s.ext.Some? then 16 else 0)
    && (s.ext.None? ==> block == [])
    && (s.ext.Some? ==> |block| >= 4 + 4 * s.ext.value.1
                        && Read16(block[0], block[1]) == s.ext.value.0
                        && Read16(block[2], block[3]) == s.ext.value.1)
    && (if s.padded then body != [] && 0 < s.padding == body[|body| - 1] <= |body| else s.padding == 0)
  }

  function Assemble(head: seq<byte>, csrcs: seq<byte>, block: seq<byte>, body: seq<byte>): seq<byte> {
    head + (csrcs + (block + body))
  }

  lemma AssembledAt(head: seq<byte>, csrcs: seq<byte>, block: seq<byte>, body: seq<byte>)
    ensures var w := Assemble(head, csrcs, block, body);
            && (forall i :: 0 <= i < |head| ==> w[i] == head[i])
            && (forall i :: 0 <= i < |block| ==> w[|head| + |csrcs| + i] == block[i])
            && (forall i :: 0 <= i < |body| ==> w[|head| + |csrcs| + |block| + i] == body[i])
            && w[|head|..|head| + |csrcs|] == csrcs
            && w[|head| + |csrcs| + |block|..] == body
            && |w| == |head| + |csrcs| + |block| + |body|
  {
  }

  /** The view that a shape announces. */
  function View(s: Shape, buf: seq<byte>): RtpPacket {
    match s.ext
    case None => RtpPacket(buf, 12 + 4 * s.cc, s.padding, None)
    case Some((profile, words)) =>
      RtpPacket(buf, 16 + 4 * s.cc + 4 * words, s.padding, Some(Ext(profile, 16 + 4 * s.cc, 4 * words)))
  }

  lemma FirstOctetDecodes(cc: nat, padded: bool, hasExt: bool)
    requires cc < 16
    ensures var o := 128 + cc + (if padded then 32 else 0) + (if hasExt then 16 else 0);
            o / 64 == 2 && o % 16 == cc && (o / 16 % 2 == 1 <==> hasExt) && (o / 32 % 2 == 1 <==> padded)
  {
  }

  /** The octets of a packet that parses to a shape. */
  ghost predicate Announces(s: Shape, w: seq<byte>) {
    var end := if s.ext.None? then 12 + 4 * s.cc else 16 + 4 * s.cc + 4 * s.ext.value.1;
    && s.cc < 16 && end <= |w|
    && w[0] == 128 + s.cc + (if s.padded then 32 else 0) + (if s.ext.Some? then 16 else 0)
    && (s.ext.Some? ==> Read16(w[12 + 4 * s.cc], w[13 + 4 * s.cc]) == s.ext.value.0
                        && Read16(w[14 + 4 * s.cc], w[15 + 4 * s.cc]) == s.ext.value.1)
    && (if s.padded then 0 < s.padding == w[|w| - 1] <= |w| - end else s.padding == 0)
  }

  lemma AnnouncedParses(s: Shape, w: seq<byte>)
    requires Announces(s, w)
    ensures Parse(w) == Ok(View(s, w)) && ViewFits(View(s, w))
    ensures View(s, w).CsrcCount() == s.cc && View(s, w).HasPadding() == s.padded
  {
    FirstOctetDecodes(s.cc, s.padded, s.ext.Some?);
    var q := View(s, w);
    assert ParseTail(w, q.payloadOff, q.ext) == Ok(q);
  }

  lemma AssembledParses(s: Shape, head: seq<byte>, csrcs: seq<byte>, block: seq<byte>, body: seq<byte>)
    requires Fits(s, head, csrcs, block, body)
    ensures var w := Assemble(head, csrcs, block, body);
            && Parse(w) == Ok(View(s, w))
            && ViewFits(View(s, w))
            && View(s, w).CsrcCount() == s.cc && View(s, w).HasPadding() == s.padded
  {
    var w := Assemble(head, csrcs, block, body);
    AssembledAt(head, csrcs, block, body);
    var at := 12 + 4 * s.cc;
    if s.ext.Some? {
      assert w[at] == block[0] && w[at + 1] == block[1] && w[at + 2] == block[2] && w[at + 3] == block[3];
    }
    if s.padded { assert w[|w| - 1] == body[|body| - 1]; }
    AnnouncedParses(s, w);
  }

  /** Header fields of an assembled packet. */
  lemma AssembledFields(s: Shape, head: seq<byte>, csrcs: seq<byte>, block: seq<byte>, body: seq<byte>)
    requires Fits(s, head, csrcs, block, body)
    ensures var q := View(s, Assemble(head, csrcs, block, body));
            && |q.buf| >= 12
            && q.SequenceNumber() == Read16(head[2], head[3])
            && q.Timestamp() == Read32(head[4], head[5], head[6], head[7])
            && q.Ssrc() == Read32(head[8], head[9], head[10], head[11])
            && q.Marker() == (head[1] >= 128)
            && q.PayloadType() == head[1] % 128
  {
    AssembledAt(head, csrcs, block, body);
  }

  lemma AssembledCsrcs(s: Shape, head: seq<byte>, csrcs: seq<byte>, block: seq<byte>, body: seq<byte>)
    requires Fits(s, head, csrcs, block, body)
    ensures var q := View(s, Assemble(head, csrcs, block, body));
            ViewFits(q) && q.CsrcCount() == s.cc && q.Csrcs() == csrcs && q.HasPadding() == s.padded
  {
    AssembledParses(s, head, csrcs, block, body);
    AssembledAt(head, csrcs, block, body);
  }

  /** The payload of an assembled packet whose length field is true. */
  lemma AssembledPayload(s: Shape, head: seq<byte>, csrcs: seq<byte>, block: seq<byte>, body: seq<byte>)
    requires Fits(s, head, csrcs, block, body)
    requires s.ext.Some? ==> |block| == 4 + 4 * s.ext.value.1
    ensures var q := View(s, Assemble(head, csrcs, block, body));
            ViewFits(q) && s.padding <= |body| && q.Payload() == body[..|body| - s.padding]
  {
    AssembledParses(s, head, csrcs, block, body);
    AssembledAt(head, csrcs, block, body);
    var w := Assemble(head, csrcs, block, body);
    assert View(s, w).payloadOff == |head| + |csrcs| + |block|;
  }

  /** The same for its element area. */
  lemma AssembledArea(s: Shape, head: seq<byte>, csrcs: seq<byte>, block: seq<byte>, body: seq<byte>)
    requires Fits(s, head, csrcs, block, body)
    requires s.ext.Some? && |block| == 4 + 4 * s.ext.value.1
    ensures var q := View(s, Assemble(head, csrcs, block, body));
            ViewFits(q) && q.buf[q.ext.value.off..q.ext.value.off + q.ext.value.len] == block[4..]
  {
    AssembledParses(s, head, csrcs, block, body);
    AssembledAt(head, csrcs, block, body);
  }

  /** A length field that is too small makes the payload longer. */
  lemma AssembledOverflow(s: Shape, head: seq<byte>, csrcs: seq<byte>, block: seq<byte>, body: seq<byte>)
    requires Fits(s, head, csrcs, block, body)
    requires s.ext.Some? && |block| > 4 + 4 * s.ext.value.1
    ensures var q := View(s, Assemble(head, csrcs, block, body));
            ViewFits(q) && s.padding <= |body| && |q.Payload()| > |body| - s.padding
  {
    AssembledParses(s, head, csrcs, block, body);
    AssembledAt(head, csrcs, block, body);
  }

  // ------------------------------------------------------------------------
  // The outgoing packet as an assembled one
  // ------------------------------------------------------------------------

  function OutShape(rw: Rewrite, p: RtpPacket): Shape
    requires ViewFits(p)
  {
    var plan := Planned(rw, p.Extensions());
    Shape(p.CsrcCount(), p.HasPadding(), p.padding,
          if plan == [] then None
          else Some((OutProfile(p, GoesTwoByte(p, plan)), ExtDataLen(p, plan) / 4 % 0x1_0000)))
  }

  lemma PaddingOf(p: RtpPacket)
    requires p.Valid()
    ensures ViewFits(p)
    ensures if p.HasPadding() then p.Body() != [] && 0 < p.padding == p.Body()[|p.Body()| - 1] <= |p.Body()|
            else p.padding == 0
  {
  }

  lemma BlockReads(rw: Rewrite, p: RtpPacket)
    requires ViewFits(p) && Planned(rw, p.Extensions()) != []
    ensures var es := p.Extensions();
            var plan, block := Planned(rw, es), ExtBlock(rw, p, es);
            && |block| == 4 + ExtDataLen(p, plan)
            && Read16(block[0], block[1]) == OutProfile(p, GoesTwoByte(p, plan))
            && Read16(block[2], block[3]) == ExtDataLen(p, plan) / 4 % 0x1_0000
            && block[4..] == ExtArea(rw, p, es)
  {
  }

  lemma OutputFits(rw: Rewrite, p: RtpPacket)
    requires p.Valid() && ViewFits(p)
    ensures var es := p.Extensions();
            Fits(OutShape(rw, p), FixedHeader(rw, p, Planned(rw, es) != []), p.Csrcs(), ExtBlock(rw, p, es), p.Body())
  {
    PaddingOf(p);
    if Planned(rw, p.Extensions()) != [] {
      BlockReads(rw, p);
      WordsBelow(ExtDataLen(p, Planned(rw, p.Extensions())));
    }
  }

  lemma WordsBelow(n: nat)
    ensures 4 * (n / 4 % 0x1_0000) <= n
    ensures n / 4 >= 0x1_0000 ==> 4 * (n / 4 % 0x1_0000) < n
    ensures n / 4 < 0x1_0000 && n % 4 == 0 ==> 4 * (n / 4 % 0x1_0000) == n
  {
  }

  lemma OutputIsAssembled(rw: Rewrite, p: RtpPacket)
    requires ViewFits(p)
    ensures var es := p.Extensions();
            Output(rw, p) ==
            Assemble(FixedHeader(rw, p, Planned(rw, es) != []), p.Csrcs(), ExtBlock(rw, p, es), p.Body())
  {
    var es := p.Extensions();
    Regroup(FixedHeader(rw, p, Planned(rw, es) != []), p.Csrcs(), ExtBlock(rw, p, es), p.Body());
  }

  lemma Regroup(a: seq<byte>, b: seq<byte>, c: seq<byte>, d: seq<byte>)
    ensures a + b + c + d == a + (b + (c + d))
  {
  }

  lemma HeaderReads(rw: Rewrite, p: RtpPacket, hasExt: bool)
    requires ViewFits(p)
    ensures var h := FixedHeader(rw, p, hasExt);
            && Read16(h[2], h[3]) == rw.sequenceNumber
            && Read32(h[4], h[5], h[6], h[7]) == rw.timestamp
            && Read32(h[8], h[9], h[10], h[11]) == rw.ssrc
            && (h[1] >= 128) == p.Marker()
            && h[1] % 128 == OutPayloadType(rw, p)
  {
    var marked := (if p.Marker() then 128 else 0) + OutPayloadType(rw, p);
    FourFields([FirstOctet(p, hasExt), marked], Be16(rw.sequenceNumber), Be32(rw.timestamp), Be32(rw.ssrc));
    FieldsRead(rw);
    MarkerAndType(p.Marker(), OutPayloadType(rw, p));
  }

  lemma FieldsRead(rw: Rewrite)
    ensures var s, t, u := Be16(rw.sequenceNumber), Be32(rw.timestamp), Be32(rw.ssrc);
            && Read16(s[0], s[1]) == rw.sequenceNumber
            && Read32(t[0], t[1], t[2], t[3]) == rw.timestamp
            && Read32(u[0], u[1], u[2], u[3]) == rw.ssrc
  {
    Read16OfBe16(rw.sequenceNumber);
    Read32OfBe32(rw.timestamp);
    Read32OfBe32(rw.ssrc);
  }

  lemma MarkerAndType(marker: bool, payloadType: byte)
    requires payloadType < 128
    ensures var o := (if marker then 128 else 0) + payloadType;
            (o >= 128) == marker && o % 128 == payloadType
  {
  }

  lemma FourFields(a: seq<byte>, b: seq<byte>, c: seq<byte>, d: seq<byte>)
    requires |a| == |b| == 2 && |c| == |d| == 4
    ensures var h := a + b + c + d;
            && h[1] == a[1] && h[2] == b[0] && h[3] == b[1]
            && h[4] == c[0] && h[5] == c[1] && h[6] == c[2] && h[7] == c[3]
            && h[8] == d[0] && h[9] == d[1] && h[10] == d[2] && h[11] == d[3]
  {
  }

  /** Everything but the element area and the payload is right whatever the rewriting. */
  lemma OutputFields(rw: Rewrite, p: RtpPacket)
    requires p.Valid() && ViewFits(p)
    ensures var q := View(OutShape(rw, p), Output(rw, p));
            && Parse(Output(rw, p)) == Ok(q)
            && ViewFits(q)
            && q.SequenceNumber() == rw.sequenceNumber
            && q.Timestamp() == rw.timestamp
            && q.Ssrc() == rw.ssrc
            && q.PayloadType() == OutPayloadType(rw, p)
            && q.Marker() == p.Marker()
            && q.CsrcCount() == p.CsrcCount()
            && q.Csrcs() == p.Csrcs()
            && q.HasPadding() == p.HasPadding()
            && q.padding == p.padding
  {
    var es := p.Extensions();
    var hasExt := Planned(rw, es) != [];
    var h, c, x, b := FixedHeader(rw, p, hasExt), p.Csrcs(), ExtBlock(rw, p, es), p.Body();
    OutputIsAssembled(rw, p);
    OutputFits(rw, p);
    AssembledParses(OutShape(rw, p), h, c, x, b);
    AssembledFields(OutShape(rw, p), h, c, x, b);
    AssembledCsrcs(OutShape(rw, p), h, c, x, b);
    HeaderReads(rw, p, hasExt);
  }

  lemma PayloadIsBody(p: RtpPacket)
    requires ViewFits(p)
    ensures p.Payload() == p.Body()[..|p.Body()| - p.padding]
  {
  }

  lemma BlockIsCounted(rw: Rewrite, p: RtpPacket)
    requires ViewFits(p) && ExtDataLen(p, Planned(rw, p.Extensions())) / 4 < 0x1_0000
    ensures var plan, ext, block := Planned(rw, p.Extensions()), OutShape(rw, p).ext, ExtBlock(rw, p, p.Extensions());
            && (ext.Some? <==> plan != [])
            && (ext.Some? ==> |block| == 4 + 4 * ext.value.1 && block[4..] == ExtArea(rw, p, p.Extensions()))
  {
    if Planned(rw, p.Extensions()) != [] {
      BlockReads(rw, p);
      WordsBelow(ExtDataLen(p, Planned(rw, p.Extensions())));
    }
  }

  lemma OutputPayload(rw: Rewrite, p: RtpPacket)
    requires p.Valid() && ViewFits(p)
    requires ExtDataLen(p, Planned(rw, p.Extensions())) / 4 < 0x1_0000
    ensures var q := View(OutShape(rw, p), Output(rw, p));
            ViewFits(q) && q.Payload() == p.Payload()
  {
    var es := p.Extensions();
    BlockIsCounted(rw, p);
    OutputIsAssembled(rw, p);
    OutputFits(rw, p);
    AssembledPayload(OutShape(rw, p), FixedHeader(rw, p, Planned(rw, es) != []), p.Csrcs(), ExtBlock(rw, p, es), p.Body());
    PayloadIsBody(p);
  }

  lemma OutputArea(rw: Rewrite, p: RtpPacket)
    requires p.Valid() && ViewFits(p) && Planned(rw, p.Extensions()) != []
    requires ExtDataLen(p, Planned(rw, p.Extensions())) / 4 < 0x1_0000
    ensures var q := View(OutShape(rw, p), Output(rw, p));
            ViewFits(q) && q.buf[q.ext.value.off..q.ext.value.off + q.ext.value.len] == ExtArea(rw, p, p.Extensions())
  {
    var es := p.Extensions();
    BlockIsCounted(rw, p);
    OutputIsAssembled(rw, p);
    OutputFits(rw, p);
    AssembledArea(OutShape(rw, p), FixedHeader(rw, p, true), p.Csrcs(), ExtBlock(rw, p, es), p.Body());
  }

  lemma OutputElements(rw: Rewrite, p: RtpPacket)
    requires p.Valid() && ViewFits(p)
    requires ExtDataLen(p, Planned(rw, p.Extensions())) / 4 < 0x1_0000
    ensures var q, plan := View(OutShape(rw, p), Output(rw, p)), Planned(rw, p.Extensions());
            && ViewFits(q)
            && q.Extensions() == (if plan == [] then [] else Area(rw, p))
  {
    var plan := Planned(rw, p.Extensions());
    OutputFields(rw, p);
    if plan != [] {
      OutputArea(rw, p);
      var q := View(OutShape(rw, p), Output(rw, p));
      OutProfileForm(p, GoesTwoByte(p, plan));
      ExtensionsOf(q, ExtArea(rw, p, p.Extensions()), GoesTwoByte(p, plan));
    }
  }

  lemma OutProfileForm(p: RtpPacket, two: bool)
    ensures if two then IsTwoByteProfile(OutProfile(p, two)) else OutProfile(p, two) == PROFILE_ONE_BYTE
  {
  }

  lemma ExtensionsOf(q: RtpPacket, area: seq<byte>, two: bool)
    requires ViewFits(q) && q.ext.Some?
    requires q.buf[q.ext.value.off..q.ext.value.off + q.ext.value.len] == area
    requires if two then IsTwoByteProfile(q.ext.value.profile) else q.ext.value.profile == PROFILE_ONE_BYTE
    ensures q.Extensions() == Elements(area, two)
  {
    assert !IsTwoByteProfile(PROFILE_ONE_BYTE);
  }

  lemma BlockOverflows(rw: Rewrite, p: RtpPacket)
    requires ViewFits(p)
    requires ExtDataLen(p, Planned(rw, p.Extensions())) / 4 >= 0x1_0000
    ensures Planned(rw, p.Extensions()) != [] && OutShape(rw, p).ext.Some?
    ensures |ExtBlock(rw, p, p.Extensions())| > 4 + 4 * OutShape(rw, p).ext.value.1
  {
    assert ExtDataLen(p, []) == 0;
    WordsBelow(ExtDataLen(p, Planned(rw, p.Extensions())));
  }

  /** An overflowing length field moves elements into the payload. */
  lemma OverflowIsSeen(rw: Rewrite, p: RtpPacket)
    requires p.Valid() && ViewFits(p)
    requires ExtDataLen(p, Planned(rw, p.Extensions())) / 4 >= 0x1_0000
    ensures var q := View(OutShape(rw, p), Output(rw, p));
            ViewFits(q) && q.Payload() != p.Payload()
  {
    BlockOverflows(rw, p);
    OutputIsAssembled(rw, p);
    OutputFits(rw, p);
    AssembledOverflow(OutShape(rw, p), FixedHeader(rw, p, true), p.Csrcs(), ExtBlock(rw, p, p.Extensions()), p.Body());
    PayloadIsBody(p);
  }

  /**
   * For every parsed packet and every rewriting, the forwarded packet parses
   * to the requested header, the source's CSRCs, padding and payload, and
   * exactly the planned elements, if and only if the rewriting is expressible.
   */
  lemma ForwardingIsFaithfulIffExpressible(rw: Rewrite, p: RtpPacket)
    requires p.Valid() && ViewFits(p)
    ensures Parse(Output(rw, p)).Ok?
    ensures Faithful(rw, p, Parse(Output(rw, p)).value) <==> Expressible(rw, p)
  {
    var plan := Planned(rw, p.Extensions());
    OutputFields(rw, p);
    if ExtDataLen(p, plan) / 4 >= 0x1_0000 {
      OverflowIsSeen(rw, p);
    } else {
      OutputPayload(rw, p);
      OutputElements(rw, p);
      if Expressible(rw, p) {
        AreaDecodes(rw, p);
      } else {
        Inexpressible(rw, p);
      }
    }
  }

  lemma Inexpressible(rw: Rewrite, p: RtpPacket)
    requires ViewFits(p) && !Expressible(rw, p)
    requires ExtDataLen(p, Planned(rw, p.Extensions())) / 4 < 0x1_0000
    ensures Planned(rw, p.Extensions()) != [] && Area(rw, p) != Planned(rw, p.Extensions())
  {
    var es := p.Extensions();
    if rw.mid.Some? && rw.outMap.Id(Mid).Some? { MidIsPlanned(rw, es); }
    if rw.mid.Some? && rw.outMap.Id(Mid).Some? && !LengthFits(MidElement(rw), GoesTwoByte(p, Planned(rw, es))) {
      InexpressibleLengthIsLost(rw, p);
    } else {
      BothSynthesisedIsLost(rw, p);
    }
  }

  // ------------------------------------------------------------------------
  // Both synthesised, as one concrete packet
  // ------------------------------------------------------------------------

  /** A bare header, and a leg that wants TWCC 0x0102 under id 3 and MID "a" under id 1. */
  const BARE_HEADER: seq<byte> := [128, 0, 0, 0, 0, 0, 0, 0, 0, 0, 0, 0]
  const BARE := RtpPacket(BARE_HEADER, 12, 0, None)
  const BOTH := Rewrite(ExtMap(map[], map[]), ExtMap(map[], map[Twcc := 3, Mid := 1]), 7, 8, 9, Some(0x0102), None, Some([0x61]))

  lemma BareParses()
    ensures BARE.Valid() && ViewFits(BARE) && BARE.Extensions() == []
  {
  }

  lemma BothPlanned()
    ensures TwccInserted(BOTH, []) && MidInserted(BOTH, []) && MapAll(BOTH, []) == []
    ensures Planned(BOTH, []) == [Element(3, [1, 2]), Element(1, [0x61])]
    ensures !GoesTwoByte(BARE, Planned(BOTH, [])) && ExtDataLen(BARE, Planned(BOTH, [])) == 8
  {
    var twcc, mid := Element(3, [1, 2]), Element(1, [0x61]);
    assert Be16(0x0102) == [1, 2];
    assert TwccElement(BOTH) == twcc && MidElement(BOTH) == mid;
    assert Planned(BOTH, []) == ([] + [twcc]) + [mid];
    SizeOfOneMore([], twcc);
    SizeOfOneMore([] + [twcc], mid);
  }

  lemma BothArea()
    ensures ExtArea(BOTH, BARE, []) == EncodeAll([], false) + ElementHeader(Element(3, [1, 2]), false) + [0x10, 0x61] + Zeros(5)
  {
    BothPlanned();
    assert Be16(0x0102) == [1, 2];
    assert Encode(MidElement(BOTH), false) == [0x10, 0x61];
  }

  lemma BothDecodes()
    ensures ViewFits(BARE) && Area(BOTH, BARE) == [Element(3, [0x10, 0x61])]
  {
    BareParses();
    BothPlanned();
    BothArea();
    OverlaidArea([], Element(3, [1, 2]), [0x10, 0x61], false, Zeros(5));
    ZerosHoldNoElements(5, false);
    assert [0x10, 0x61][2..] + Zeros(5) == Zeros(5);
    assert [0x10, 0x61][..2] == [0x10, 0x61];
    assert [] + ([Element(3, [0x10, 0x61])] + []) == [Element(3, [0x10, 0x61])];
  }

  /**
   * The subscriber reads a TWCC element whose value is the MID element's two
   * octets, 0x1061 where 0x0102 was meant, and no MID.
   */
  lemma MidLandsOnTwcc()
    ensures Planned(BOTH, BARE.Extensions()) == [Element(3, [1, 2]), Element(1, [0x61])]
    ensures Parse(Output(BOTH, BARE)).Ok? && ViewFits(Parse(Output(BOTH, BARE)).value)
    ensures Parse(Output(BOTH, BARE)).value.Extensions() == [Element(3, [0x10, 0x61])]
  {
    BareParses();
    BothPlanned();
    BothDecodes();
    OutputFields(BOTH, BARE);
    OutputElements(BOTH, BARE);
  }
}
