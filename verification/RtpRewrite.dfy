/**
 * Rewriting a packet for a subscriber leg: header fields replaced, extension
 * ids remapped, TWCC and MID values replaced or synthesised, and the element
 * form upgraded to two bytes where needed.
 */
module RtpRewrite {
  import opened Wrappers
  import opened Bytes
  import opened Buffers
  import opened RtpPackets

  datatype KnownExt = Mid | Rid | RepairedRid | Twcc | AbsSendTime | AudioLevel

  /** Extension ids negotiated on one leg; id 0 means "not negotiated". */
  datatype ExtMap = ExtMap(byId: map<byte, KnownExt>, idByKind: map<KnownExt, byte>) {
    function Kind(id: byte): Option<KnownExt> {
      if id in byId then Some(byId[id]) else None
    }

    function Id(kind: KnownExt): (r: Option<byte>)
      ensures r.Some? ==> r.value != 0
    {
      if kind in idByKind && idByKind[kind] != 0 then Some(idByKind[kind]) else None
    }
  }

  datatype Rewrite = Rewrite(
    inMap: ExtMap,
    outMap: ExtMap,
    sequenceNumber: u16,
    timestamp: u32,
    ssrc: u32,
    twccSeq: Option<u16>,
    payloadType: Option<byte>,
    mid: Option<seq<byte>>)

  // ------------------------------------------------------------------------
  // The intended extension list
  // ------------------------------------------------------------------------

  /** The kind under which a source element goes out, if it survives the remapping. */
  function Survives(rw: Rewrite, e: Element): Option<KnownExt> {
    match rw.inMap.Kind(e.id)
    case None => None
    case Some(kind) => if rw.outMap.Id(kind).Some? then Some(kind) else None
  }

  /** The value that goes out for a source value of a given kind. */
  function ValueFor(rw: Rewrite, kind: KnownExt, value: seq<byte>): seq<byte> {
    if kind == Twcc && rw.twccSeq.Some? then Be16(rw.twccSeq.value)
    else if kind == Mid && rw.mid.Some? then rw.mid.value
    else value
  }

  function Mapped(rw: Rewrite, e: Element): seq<Element> {
    match Survives(rw, e)
    case None => []
    case Some(kind) => [Element(rw.outMap.Id(kind).value, ValueFor(rw, kind, e.value))]
  }

  function MapAll(rw: Rewrite, es: seq<Element>): seq<Element> {
    if es == [] then [] else MapAll(rw, es[..|es| - 1]) + Mapped(rw, es[|es| - 1])
  }

  /** Does an element of this kind survive? */
  function Carries(rw: Rewrite, es: seq<Element>, kind: KnownExt): bool {
    es != [] && (Carries(rw, es[..|es| - 1], kind) || Survives(rw, es[|es| - 1]) == Some(kind))
  }

  predicate TwccInserted(rw: Rewrite, es: seq<Element>) {
    !Carries(rw, es, Twcc) && rw.twccSeq.Some? && rw.outMap.Id(Twcc).Some?
  }

  predicate MidInserted(rw: Rewrite, es: seq<Element>) {
    !Carries(rw, es, Mid) && rw.mid.Some? && rw.outMap.Id(Mid).Some?
  }

  function TwccElement(rw: Rewrite): Element
    requires rw.twccSeq.Some? && rw.outMap.Id(Twcc).Some?
  {
    Element(rw.outMap.Id(Twcc).value, Be16(rw.twccSeq.value))
  }

  function MidElement(rw: Rewrite): Element
    requires rw.mid.Some? && rw.outMap.Id(Mid).Some?
  {
    Element(rw.outMap.Id(Mid).value, rw.mid.value)
  }

  /** The promised outgoing elements: the mapped ones, then the synthesised ones. */
  function Planned(rw: Rewrite, es: seq<Element>): seq<Element> {
    MapAll(rw, es)
    + (if TwccInserted(rw, es) then [TwccElement(rw)] else [])
    + (if MidInserted(rw, es) then [MidElement(rw)] else [])
  }

  // ------------------------------------------------------------------------
  // Encoding
  // ------------------------------------------------------------------------

  function MaxId(es: seq<Element>): nat {
    if es == [] then 0
    else
      var m := MaxId(es[..|es| - 1]);
      if es[|es| - 1].id > m then es[|es| - 1].id else m
  }

  function MaxLen(es: seq<Element>): nat {
    if es == [] then 0
    else
      var m := MaxLen(es[..|es| - 1]);
      if |es[|es| - 1].value| > m then |es[|es| - 1].value| else m
  }

  function DataBytes(es: seq<Element>): nat {
    if es == [] then 0 else DataBytes(es[..|es| - 1]) + |es[|es| - 1].value|
  }

  /** Upgrade to the two-byte form when an id or a length needs it; never downgrade. */
  predicate GoesTwoByte(p: RtpPacket, es: seq<Element>) {
    es != [] && (p.UsesTwoByteForm() || MaxId(es) > 14 || MaxLen(es) > 16)
  }

  /** The header octets of an element, with the truncations of the 8-bit fields. */
  function ElementHeader(e: Element, twoByte: bool): (s: seq<byte>)
    ensures |s| == if twoByte then 2 else 1
  {
    var len := |e.value| % 256;
    if twoByte then [e.id, len]
    else [(e.id % 16 * 16 + (if len == 0 then 0 else len - 1) % 16) % 256]
  }

  function Encode(e: Element, twoByte: bool): seq<byte> {
    ElementHeader(e, twoByte) + e.value
  }

  function EncodeAll(es: seq<Element>, twoByte: bool): seq<byte> {
    if es == [] then [] else EncodeAll(es[..|es| - 1], twoByte) + Encode(es[|es| - 1], twoByte)
  }

  /** `a` written over the front of `b`. */
  function Overlay(a: seq<byte>, b: seq<byte>): seq<byte> {
    a + (if |a| < |b| then b[|a|..] else [])
  }

  /**
   * The element octets as written. A synthesised TWCC value is not skipped
   * over, so a MID element synthesised after it starts on top of that value.
   */
  function Written(rw: Rewrite, es: seq<Element>, twoByte: bool): seq<byte> {
    var mapped := EncodeAll(MapAll(rw, es), twoByte);
    if TwccInserted(rw, es) then
      var e := TwccElement(rw);
      mapped + ElementHeader(e, twoByte)
      + (if MidInserted(rw, es) then Overlay(Encode(MidElement(rw), twoByte), e.value) else e.value)
    else if MidInserted(rw, es) then mapped + Encode(MidElement(rw), twoByte)
    else mapped
  }

  /** Size of the element area: the planned elements, padded to a 32-bit boundary. */
  function ExtDataLen(p: RtpPacket, plan: seq<Element>): nat {
    Padded(DataBytes(plan) + |plan| * (if GoesTwoByte(p, plan) then 2 else 1))
  }

  lemma {:induction false} EncodedSize(es: seq<Element>, twoByte: bool)
    ensures |EncodeAll(es, twoByte)| == DataBytes(es) + |es| * (if twoByte then 2 else 1)
  {
    if es != [] { EncodedSize(es[..|es| - 1], twoByte); }
  }

  /** The planned size of one element more. */
  lemma SizeOfOneMore(es: seq<Element>, e: Element)
    ensures DataBytes(es + [e]) == DataBytes(es) + |e.value|
    ensures MaxId(es + [e]) == (if e.id > MaxId(es) then e.id else MaxId(es))
    ensures MaxLen(es + [e]) == (if |e.value| > MaxLen(es) then |e.value| else MaxLen(es))
  {
    assert (es + [e])[..|es|] == es;
  }

  lemma EncodeOneMore(es: seq<Element>, e: Element, twoByte: bool)
    ensures EncodeAll(es + [e], twoByte) == EncodeAll(es, twoByte) + Encode(e, twoByte)
  {
    assert (es + [e])[..|es|] == es;
  }

  /** The octets written fit the area planned for them. */
  lemma WrittenFits(rw: Rewrite, p: RtpPacket, es: seq<Element>)
    ensures |Written(rw, es, GoesTwoByte(p, Planned(rw, es)))| <= ExtDataLen(p, Planned(rw, es))
  {
    var plan := Planned(rw, es);
    var two := GoesTwoByte(p, plan);
    var mapped := MapAll(rw, es);
    EncodedSize(mapped, two);
    if TwccInserted(rw, es) {
      SizeOfOneMore(mapped, TwccElement(rw));
      assert mapped + [TwccElement(rw)] + [] == mapped + [TwccElement(rw)];
      if MidInserted(rw, es) {
        SizeOfOneMore(mapped + [TwccElement(rw)], MidElement(rw));
      }
    } else if MidInserted(rw, es) {
      SizeOfOneMore(mapped, MidElement(rw));
      assert plan == mapped + [MidElement(rw)];
    } else {
      assert plan == mapped;
    }
  }

  /** The element area as it leaves: the octets written, then zeros. */
  function ExtArea(rw: Rewrite, p: RtpPacket, es: seq<Element>): (s: seq<byte>)
    ensures |s| == ExtDataLen(p, Planned(rw, es))
  {
    WrittenFits(rw, p, es);
    var w := Written(rw, es, GoesTwoByte(p, Planned(rw, es)));
    w + Zeros(ExtDataLen(p, Planned(rw, es)) - |w|)
  }

  /** The profile of the outgoing block: two-byte application bits are kept. */
  function OutProfile(p: RtpPacket, twoByte: bool): u16 {
    if !twoByte then PROFILE_ONE_BYTE
    else if p.UsesTwoByteForm() then p.ext.value.profile
    else PROFILE_TWO_BYTE
  }

  function ExtBlock(rw: Rewrite, p: RtpPacket, es: seq<Element>): (s: seq<byte>)
    ensures |s| == if Planned(rw, es) == [] then 0 else 4 + ExtDataLen(p, Planned(rw, es))
  {
    var plan := Planned(rw, es);
    if plan == [] then []
    else
      Be16(OutProfile(p, GoesTwoByte(p, plan)))
      + Be16(ExtDataLen(p, plan) / 4 % 0x1_0000)
      + ExtArea(rw, p, es)
  }

  function OutPayloadType(rw: Rewrite, p: RtpPacket): byte
    requires ViewFits(p)
  {
    if rw.payloadType.Some? then rw.payloadType.value % 128 else p.PayloadType()
  }

  function FirstOctet(p: RtpPacket, hasExt: bool): byte
    requires ViewFits(p)
  {
    128 + p.CsrcCount() + (if p.HasPadding() then 32 else 0) + (if hasExt then 16 else 0)
  }

  function FixedHeader(rw: Rewrite, p: RtpPacket, hasExt: bool): (s: seq<byte>)
    requires ViewFits(p)
    ensures |s| == 12
  {
    [FirstOctet(p, hasExt), (if p.Marker() then 128 else 0) + OutPayloadType(rw, p)]
    + Be16(rw.sequenceNumber) + Be32(rw.timestamp) + Be32(rw.ssrc)
  }

  /** The whole outgoing packet. */
  function Output(rw: Rewrite, p: RtpPacket): (s: seq<byte>)
    requires ViewFits(p)
  {
    var es := p.Extensions();
    FixedHeader(rw, p, Planned(rw, es) != []) + p.Csrcs() + ExtBlock(rw, p, es) + p.Body()
  }
}
