/** RTP packets (RFC 3550) and their header-extension elements (RFC 8285) as a parsed view. */
module RtpPackets {
  import opened Wrappers
  import opened Bytes

  const FIXED_HEADER_LEN := 12
  const PROFILE_ONE_BYTE := 0xBEDE

  /** Two-byte profiles carry application bits in the low nibble. */
  const PROFILE_TWO_BYTE := 0x1000

  predicate IsTwoByteProfile(profile: u16) {
    profile / 16 == PROFILE_TWO_BYTE / 16
  }

  datatype RtpError =
    | TooShort
    | BadVersion
    | TruncatedHeader
    | BadPadding
    | BufferTooSmall(needed: nat, have: nat)

  /** One extension element. */
  datatype Element = Element(id: byte, value: seq<byte>)

  /** Where the extension elements lie. */
  datatype Ext = Ext(profile: u16, off: nat, len: nat)

  datatype RtpPacket = RtpPacket(buf: seq<byte>, payloadOff: nat, padding: nat, ext: Option<Ext>) {
    ghost predicate Valid() {
      Parse(buf) == Ok(this)
    }

    predicate Marker()
      requires |buf| >= 12
    {
      buf[1] >= 128
    }

    function PayloadType(): byte
      requires |buf| >= 12
    {
      buf[1] % 128
    }

    function SequenceNumber(): u16
      requires |buf| >= 12
    {
      Read16(buf[2], buf[3])
    }

    function Timestamp(): u32
      requires |buf| >= 12
    {
      Read32(buf[4], buf[5], buf[6], buf[7])
    }

    function Ssrc(): u32
      requires |buf| >= 12
    {
      Read32(buf[8], buf[9], buf[10], buf[11])
    }

    function CsrcCount(): nat
      requires |buf| >= 12
    {
      buf[0] % 16
    }

    predicate HasPadding()
      requires |buf| >= 12
    {
      buf[0] / 32 % 2 == 1
    }

    /** The CSRC list, four octets per entry. */
    function Csrcs(): seq<byte>
      requires |buf| >= 12 && |buf| >= 12 + 4 * CsrcCount()
    {
      buf[12..12 + 4 * CsrcCount()]
    }

    /** Everything behind the header: payload and padding. */
    function Body(): seq<byte>
      requires payloadOff <= |buf|
    {
      buf[payloadOff..]
    }

    function Payload(): seq<byte>
      requires payloadOff + padding <= |buf|
    {
      buf[payloadOff..|buf| - padding]
    }

    predicate UsesTwoByteForm() {
      ext.Some? && IsTwoByteProfile(ext.value.profile)
    }

    /** The extension elements in wire order; none for unrecognized profiles. */
    function Extensions(): seq<Element>
      requires ext.Some? ==> ext.value.off + ext.value.len <= |buf|
    {
      if ext.None? then []
      else
        var data := buf[ext.value.off..ext.value.off + ext.value.len];
        if ext.value.profile == PROFILE_ONE_BYTE then Elements(data, false)
        else if IsTwoByteProfile(ext.value.profile) then Elements(data, true)
        else []
    }
  }

  function Parse(buf: seq<byte>): (r: Result<RtpPacket, RtpError>)
    ensures r.Ok? ==> ViewFits(r.value) && r.value.buf == buf
  {
    if |buf| < FIXED_HEADER_LEN then Err(TooShort)
    else if buf[0] / 64 != 2 then Err(BadVersion)
    else
      var csrcEnd := FIXED_HEADER_LEN + 4 * (buf[0] % 16);
      if csrcEnd > |buf| then Err(TruncatedHeader)
      else if buf[0] / 16 % 2 == 1 then
        if csrcEnd + 4 > |buf| then Err(TruncatedHeader)
        else
          var profile := Read16(buf[csrcEnd], buf[csrcEnd + 1]);
          var len := 4 * Read16(buf[csrcEnd + 2], buf[csrcEnd + 3]);
          if csrcEnd + 4 + len > |buf| then Err(TruncatedHeader)
          else ParseTail(buf, csrcEnd + 4 + len, Some(Ext(profile, csrcEnd + 4, len)))
      else ParseTail(buf, csrcEnd, None)
  }

  /** The padding count, once the end of the header is known. */
  function ParseTail(buf: seq<byte>, off: nat, ext: Option<Ext>): Result<RtpPacket, RtpError>
    requires 12 <= off <= |buf|
  {
    if buf[0] / 32 % 2 == 1 then
      if off >= |buf| || buf[|buf| - 1] == 0 || buf[|buf| - 1] > |buf| - off then Err(BadPadding)
      else Ok(RtpPacket(buf, off, buf[|buf| - 1], ext))
    else Ok(RtpPacket(buf, off, 0, ext))
  }

  predicate ViewFits(p: RtpPacket) {
    && |p.buf| >= 12
    && 12 + 4 * p.CsrcCount() <= p.payloadOff
    && p.payloadOff + p.padding <= |p.buf|
    && (p.ext.Some? ==> p.ext.value.off + p.ext.value.len == p.payloadOff)
  }

  // ------------------------------------------------------------------------
  // Extension elements
  // ------------------------------------------------------------------------

  /**
   * The elements of an extension block. Zero ids are padding; an element that
   * overruns the block, or the reserved one-byte id 15, ends the list.
   */
  function Elements(data: seq<byte>, twoByte: bool): seq<Element>
    decreases |data|
  {
    if data == [] then []
    else
      match FirstElement(data, twoByte)
      case Skip => Elements(data[1..], twoByte)
      case Stop => []
      case Found(e, size) => [e] + Elements(data[size..], twoByte)
  }

  datatype Scan = Skip | Stop | Found(e: Element, size: nat)

  /** What stands at the front of an element area. */
  function FirstElement(data: seq<byte>, twoByte: bool): (r: Scan)
    requires data != []
    ensures r.Found? ==> 0 < r.size <= |data| && r.e.id == (if twoByte then data[0] else data[0] / 16)
    ensures r.Found? ==> r.size == |r.e.value| + (if twoByte then 2 else 1)
    ensures r.Found? ==> r.e.id != 0 && r.e.value == data[r.size - |r.e.value|..r.size]
    ensures r.Found? ==> |r.e.value| <= 255 && (!twoByte ==> 1 <= |r.e.value| <= 16)
    ensures r.Skip? ==> (if twoByte then data[0] == 0 else data[0] < 16)
  {
    if twoByte then
      if data[0] == 0 then Skip
      else if |data| < 2 then Stop
      else
        var len: nat := data[1];
        if 2 + len > |data| then Stop else Found(Element(data[0], data[2..2 + len]), 2 + len)
    else
      var id := data[0] / 16;
      var len: nat := data[0] % 16 + 1;
      if id == 15 then Stop
      else if id == 0 then Skip
      else if 1 + len > |data| then Stop
      else Found(Element(id, data[1..1 + len]), 1 + len)
  }

  /** Iterator over the extension elements of a packet. */
  class ExtIter {
    const data: seq<byte>
    const twoByte: bool
    var pos: nat

    constructor (data: seq<byte>, twoByte: bool)
      ensures Valid() && Rest() == Elements(data, twoByte)
    {
      this.data, this.twoByte, pos := data, twoByte, 0;
      new;
      assert data[0..] == data;
    }

    predicate Valid()
      reads this
    {
      pos <= |data|
    }

    /** The elements still to come. */
    function Rest(): seq<Element>
      requires Valid()
      reads this
    {
      Elements(data[pos..], twoByte)
    }

    method Next() returns (r: Option<Element>)
      requires Valid()
      modifies this
      ensures Valid()
      ensures r.None? ==> old(Rest()) == [] && Rest() == []
      ensures r.Some? ==> old(Rest()) == [r.value] + Rest()
    {
      while pos < |data|
        invariant pos <= |data|
        invariant Rest() == old(Rest())
      {
        var tail := data[pos..];
        match FirstElement(tail, twoByte)
        case Found(e, size) =>
          assert tail[size..] == data[pos + size..];
          pos := pos + size;
          return Some(e);
        case Skip =>
          assert tail[1..] == data[pos + 1..];
          pos := pos + 1;
        case Stop =>
          break;
      }
      pos := |data|;
      r := None;
    }
  }

  /** Every element decoded has a nonzero id and a length its form can express. */
  lemma {:induction false} ElementsAreExpressible(data: seq<byte>, twoByte: bool)
    ensures forall i :: 0 <= i < |Elements(data, twoByte)| ==>
              var e := Elements(data, twoByte)[i];
              e.id != 0 && |e.value| <= 255 && (!twoByte ==> 1 <= |e.value| <= 16 && e.id <= 14)
    decreases |data|
  {
    if data != [] {
      match FirstElement(data, twoByte)
      case Skip => ElementsAreExpressible(data[1..], twoByte);
      case Stop =>
      case Found(e, size) => ElementsAreExpressible(data[size..], twoByte);
    }
  }
}
