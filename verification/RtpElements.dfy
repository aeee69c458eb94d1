/**
 * Header extension areas (RFC 8285 sections 4.2 and 4.3) as they are laid out:
 * elements, padding between them, and what ends the list.
 */
module RtpElements {
  import opened Bytes
  import opened RtpPackets
  import opened RtpWire
  import opened Wrappers

  datatype Piece = Padding(octet: byte) | One(e: Element)

  /** Padding has id 0; an element's id and length are such as its form can say. */
  predicate PieceFits(p: Piece, twoByte: bool) {
    match p
    case Padding(b) => if twoByte then b == 0 else b < 16
    case One(e) =>
      if twoByte then 1 <= e.id <= 255 && |e.value| <= 255 else 1 <= e.id <= 14 && 1 <= |e.value| <= 16
  }

  predicate AllFit(ps: seq<Piece>, twoByte: bool) {
    forall i :: 0 <= i < |ps| ==> PieceFits(ps[i], twoByte)
  }

  /** Id and length in one octet. */
  function OneByteHead(id: nat, len: nat): byte
    requires 1 <= id <= 14 && 1 <= len <= 16
  {
    16 * id + (len - 1)
  }

  function PieceOctets(p: Piece, twoByte: bool): seq<byte>
    requires PieceFits(p, twoByte)
  {
    match p
    case Padding(b) => [b]
    case One(e) => (if twoByte then [e.id, |e.value|] else [OneByteHead(e.id, |e.value|)]) + e.value
  }

  function Laid(ps: seq<Piece>, twoByte: bool): seq<byte>
    requires AllFit(ps, twoByte)
  {
    if ps == [] then [] else PieceOctets(ps[0], twoByte) + Laid(ps[1..], twoByte)
  }

  /** The elements among the pieces, in order. */
  function ElementsOf(ps: seq<Piece>): seq<Element> {
    if ps == [] then [] else (if ps[0].One? then [ps[0].e] else []) + ElementsOf(ps[1..])
  }

  /** Nothing, the reserved one-byte id 15, or an element that is cut off. */
  predicate EndsHere(rest: seq<byte>, twoByte: bool) {
    if rest == [] then true
    else if twoByte then rest[0] != 0 && (|rest| == 1 || |rest| - 2 < rest[1])
    else rest[0] / 16 == 15 || (rest[0] / 16 != 0 && |rest| - 2 < rest[0] % 16)
  }

  lemma NothingFound(rest: seq<byte>, twoByte: bool)
    requires EndsHere(rest, twoByte)
    ensures Elements(rest, twoByte) == []
  {
  }

  lemma PaddingSkipped(b: byte, tail: seq<byte>, twoByte: bool)
    requires PieceFits(Padding(b), twoByte)
    ensures Elements([b] + tail, twoByte) == Elements(tail, twoByte)
  {
    assert ([b] + tail)[1..] == tail;
  }

  lemma NibblesApart(id: nat, len: nat)
    requires 1 <= id <= 14 && 1 <= len <= 16
    ensures OneByteHead(id, len) / 16 == id && OneByteHead(id, len) % 16 == len - 1
  {
  }

  lemma ElementFound(e: Element, tail: seq<byte>, twoByte: bool)
    requires PieceFits(One(e), twoByte)
    ensures Elements(PieceOctets(One(e), twoByte) + tail, twoByte) == [e] + Elements(tail, twoByte)
  {
    var front := PieceOctets(One(e), twoByte);
    var data := front + tail;
    assert data[|front|..] == tail && data[|front| - |e.value|..|front|] == e.value;
    if !twoByte { NibblesApart(e.id, |e.value|); }
    assert FirstElement(data, twoByte) == Found(e, |front|);
  }

  /** An area of any pieces yields its elements in order, whatever follows the place where it ends. */
  lemma {:induction false} LaidReads(ps: seq<Piece>, rest: seq<byte>, twoByte: bool)
    requires AllFit(ps, twoByte) && EndsHere(rest, twoByte)
    ensures Elements(Laid(ps, twoByte) + rest, twoByte) == ElementsOf(ps)
    decreases |ps|
  {
    if ps == [] {
      assert [] + rest == rest;
      NothingFound(rest, twoByte);
    } else {
      LaidReads(ps[1..], rest, twoByte);
      LaidMore(ps[0], ps[1..], rest, twoByte);
      PieceRead(ps[0], Laid(ps[1..], twoByte) + rest, twoByte);
      assert ps == [ps[0]] + ps[1..];
    }
  }

  lemma PieceRead(p: Piece, tail: seq<byte>, twoByte: bool)
    requires PieceFits(p, twoByte)
    ensures Elements(PieceOctets(p, twoByte) + tail, twoByte) == (if p.One? then [p.e] else []) + Elements(tail, twoByte)
  {
    match p {
      case Padding(b) => PaddingSkipped(b, tail, twoByte);
      case One(e) => ElementFound(e, tail, twoByte);
    }
  }

  lemma LaidMore(p: Piece, ps: seq<Piece>, rest: seq<byte>, twoByte: bool)
    requires PieceFits(p, twoByte) && AllFit(ps, twoByte)
    ensures AllFit([p] + ps, twoByte)
    ensures Laid([p] + ps, twoByte) + rest == PieceOctets(p, twoByte) + (Laid(ps, twoByte) + rest)
  {
    assert ([p] + ps)[1..] == ps;
  }

  lemma FirstPiece(data: seq<byte>, twoByte: bool) returns (p: Piece)
    requires data != [] && !EndsHere(data, twoByte)
    ensures PieceFits(p, twoByte) && 0 < |PieceOctets(p, twoByte)| <= |data|
    ensures data == PieceOctets(p, twoByte) + data[|PieceOctets(p, twoByte)|..]
  {
    if twoByte {
      p := if data[0] == 0 then Padding(0) else One(Element(data[0], data[2..2 + data[1]]));
    } else {
      p := if data[0] < 16 then Padding(data[0]) else One(Element(data[0] / 16, data[1..2 + data[0] % 16]));
    }
  }

  /** Every octet string is such an area: pieces, and a place where it ends. */
  lemma {:induction false} EveryAreaIsLaid(data: seq<byte>, twoByte: bool) returns (ps: seq<Piece>, rest: seq<byte>)
    ensures AllFit(ps, twoByte) && EndsHere(rest, twoByte) && data == Laid(ps, twoByte) + rest
    decreases |data|
  {
    if data == [] || EndsHere(data, twoByte) {
      ps, rest := [], data;
      assert [] + data == data;
    } else {
      var p := FirstPiece(data, twoByte);
      var more, last := EveryAreaIsLaid(data[|PieceOctets(p, twoByte)|..], twoByte);
      ps, rest := [p] + more, last;
      LaidMore(p, more, last, twoByte);
    }
  }

  /** The elements a packet with this profile and area shows. */
  function Showing(profile: u16, data: seq<byte>): seq<Element> {
    if profile == 0xBEDE then Elements(data, false)
    else if 0x1000 <= profile <= 0x100F then Elements(data, true)
    else []
  }

  lemma ViewShowing(p: RtpPacket, x: ExtBlock)
    requires ViewFits(p) && p.ext.Some? && p.ext.value.profile == x.profile
    requires p.buf[p.ext.value.off..p.ext.value.off + p.ext.value.len] == x.data
    ensures p.Extensions() == Showing(x.profile, x.data)
  {
  }

  lemma PacketShowing(f: Fields, p: RtpPacket)
    requires RtpWire.Sayable(f) && f.ext.Some? && Parse(WireOf(f)) == Ok(p)
    ensures p.Extensions() == Showing(f.ext.value.profile, f.ext.value.data)
  {
    WireReads(f);
    ViewShowing(p, f.ext.value);
  }

  /**
   * A packet with such an area shows its elements: one-byte under profile 0xBEDE,
   * two-byte under 0x1000 to 0x100F, and none under any other.
   */
  lemma PacketElements(f: Fields, ps: seq<Piece>, rest: seq<byte>, twoByte: bool, p: RtpPacket)
    requires RtpWire.Sayable(f) && f.ext.Some? && Parse(WireOf(f)) == Ok(p)
    requires AllFit(ps, twoByte) && EndsHere(rest, twoByte) && f.ext.value.data == Laid(ps, twoByte) + rest
    ensures f.ext.value.profile == 0xBEDE && !twoByte ==> p.Extensions() == ElementsOf(ps)
    ensures 0x1000 <= f.ext.value.profile <= 0x100F && twoByte ==> p.Extensions() == ElementsOf(ps)
    ensures f.ext.value.profile != 0xBEDE && !(0x1000 <= f.ext.value.profile <= 0x100F) ==> p.Extensions() == []
  {
    PacketShowing(f, p);
    LaidReads(ps, rest, twoByte);
  }
}
