/**
 * The common header of RTCP blocks, what each packet type requires of its
 * block, and walking the blocks of a compound datagram.
 */
module RtcpBlocks {
  import opened Bytes
  import opened Seqs
  import opened TwccChunks
  import opened Wrappers

  const HEADER_LEN := 4
  const FEEDBACK_HEADER_LEN := 8
  const SENDER_INFO_LEN := 24

  const SR: byte := 200
  const RR: byte := 201
  const SDES: byte := 202
  const BYE: byte := 203
  const RTPFB: byte := 205
  const PSFB: byte := 206
  const FMT_NACK := 1
  const FMT_PLI := 1
  const FMT_FIR := 4
  const FMT_TWCC := 15
  const FMT_AFB := 15

  datatype RtcpError =
    | TooShort
    | BadVersion(version: nat)
    | BadLength
    | BadPadding
    | Truncated
    | BufferTooSmall(needed: nat, have: nat)
    | CountOverflow(have: nat, max: nat)
    | Invalid

  datatype Block = Block(count: nat, packetType: byte, payload: seq<byte>, raw: seq<byte>)

  /** The whole length of a block with this length field. */
  function BlockLen(hi: byte, lo: byte): (n: nat)
    ensures n >= 4
  {
    (Read16(hi, lo) + 1) * 4
  }

  function ParseBlock(buf: seq<byte>): (r: Result<Block, RtcpError>)
    ensures r.Ok? ==> 4 <= |r.value.raw| <= |buf| && r.value.raw == buf[..|r.value.raw|]
  {
    if |buf| < HEADER_LEN then Err(TooShort)
    else if buf[0] / 64 != 2 then Err(BadVersion(buf[0] / 64))
    else
      var len := BlockLen(buf[2], buf[3]);
      if len > |buf| then Err(BadLength)
      else
        var raw := buf[..len];
        var body := raw[HEADER_LEN..];
        if buf[0] / 32 % 2 == 0 then Ok(Block(buf[0] % 32, buf[1], body, raw))
        else
          var n: nat := if body == [] then 0 else body[|body| - 1];
          if n == 0 || n > |body| then Err(BadPadding)
          else Ok(Block(buf[0] % 32, buf[1], body[..|body| - n], raw))
  }

  const REMB: seq<byte> := [0x52, 0x45, 0x4D, 0x42]

  predicate IsRemb(payload: seq<byte>) {
    |payload| >= 12 && payload[8..12] == REMB
  }

  /** Length of `n` report blocks. */
  function ReportsLen(n: nat): (len: nat)
    ensures len % 4 == 0
  {
    24 * n
  }

  function RembBytes(n: byte): int {
    4 * n
  }

  /** Is the body long enough, and for transport-wide feedback consistent, for its packet type? */
  predicate FitsType(b: Block) {
    if b.packetType == SR then |b.payload| >= SENDER_INFO_LEN + ReportsLen(b.count)
    else if b.packetType == RR then |b.payload| >= 4 + ReportsLen(b.count)
    else if b.packetType == BYE then |b.payload| >= 4 * b.count
    else if b.packetType == RTPFB && b.count == FMT_NACK then |b.payload| >= FEEDBACK_HEADER_LEN
    else if b.packetType == RTPFB && b.count == FMT_TWCC then
      |b.payload| >= FEEDBACK_HEADER_LEN && ParseFci(b.payload[8..]).Some?
    else if b.packetType == PSFB && (b.count == FMT_PLI || b.count == FMT_FIR) then |b.payload| >= FEEDBACK_HEADER_LEN
    else if b.packetType == PSFB && b.count == FMT_AFB && IsRemb(b.payload) then
      |b.payload| >= 16 && |b.payload| - 16 >= RembBytes(b.payload[12])
    else true
  }

  function ParsePacket(buf: seq<byte>): Result<Block, RtcpError> {
    match ParseBlock(buf)
    case Err(e) => Err(e)
    case Ok(b) => if FitsType(b) then Ok(b) else Err(Truncated)
  }

  /** The blocks of a datagram in order, ended by the first error. */
  function Walk(datagram: seq<byte>): seq<Result<Block, RtcpError>>
    decreases |datagram|
  {
    if datagram == [] then []
    else
      match ParsePacket(datagram)
      case Err(e) => [Err(e)]
      case Ok(b) => [Ok(b)] + Walk(datagram[|b.raw|..])
  }

  function RawOf(walked: seq<Result<Block, RtcpError>>): seq<byte> {
    if walked == [] then []
    else (if walked[0].Ok? then walked[0].value.raw else []) + RawOf(walked[1..])
  }

  /**
   * What was walked is a prefix of the datagram, block by block; the only error,
   * if any, comes last; without one the blocks are the whole datagram.
   */
  ghost predicate Covers(w: seq<Result<Block, RtcpError>>, datagram: seq<byte>) {
    && RawOf(w) <= datagram
    && (forall i :: 0 <= i < |w| && w[i].Err? ==> i == |w| - 1)
    && ((forall i :: 0 <= i < |w| ==> w[i].Ok?) ==> RawOf(w) == datagram)
  }

  lemma CoversError(e: RtcpError, datagram: seq<byte>)
    ensures Covers([Err(e)], datagram)
  {
    assert RawOf([Err(e)]) == [] + RawOf([Result<Block, RtcpError>.Err(e)][1..]);
    assert [Result<Block, RtcpError>.Err(e)][0].Err?;
  }

  lemma CoversMore(b: Block, w: seq<Result<Block, RtcpError>>, rest: seq<byte>)
    requires Covers(w, rest)
    ensures Covers([Ok(b)] + w, b.raw + rest)
  {
    var all := [Ok(b)] + w;
    assert all[1..] == w;
    forall i | 0 <= i < |all| && all[i].Err? ensures i == |all| - 1 { assert w[i - 1].Err?; }
    if forall i :: 0 <= i < |all| ==> all[i].Ok? {
      forall i | 0 <= i < |w| ensures w[i].Ok? { assert all[i + 1].Ok?; }
    }
  }

  /** On any bytes the walk covers the datagram. */
  lemma {:induction false} WalkCovers(datagram: seq<byte>)
    ensures Covers(Walk(datagram), datagram)
    decreases |datagram|
  {
    if datagram != [] {
      match ParsePacket(datagram)
      case Err(e) => CoversError(e, datagram);
      case Ok(b) =>
        var rest := datagram[|b.raw|..];
        WalkCovers(rest);
        CoversMore(b, Walk(rest), rest);
        assert datagram == b.raw + rest;
    }
  }

  /** The bytes of exactly one acceptable block. */
  ghost predicate IsPacket(raw: seq<byte>) {
    ParsePacket(raw).Ok? && ParsePacket(raw).value.raw == raw
  }

  /** What follows a block does not change how it parses. */
  lemma ParseIgnoresRest(raw: seq<byte>, rest: seq<byte>)
    requires IsPacket(raw)
    ensures ParsePacket(raw + rest) == ParsePacket(raw)
  {
    var len := BlockLen(raw[2], raw[3]);
    assert (raw + rest)[..len] == raw[..len];
  }

  lemma WalkOne(raw: seq<byte>, rest: seq<byte>)
    requires IsPacket(raw)
    ensures Walk(raw + rest) == [ParsePacket(raw)] + Walk(rest)
  {
    ParseIgnoresRest(raw, rest);
    assert (raw + rest)[|raw|..] == rest;
  }

  /** Packets laid end to end are found again, in order, and nothing else. */
  lemma {:induction false} WalkOfCompound(raws: seq<seq<byte>>)
    requires forall i :: 0 <= i < |raws| ==> IsPacket(raws[i])
    ensures |Walk(Concat(raws))| == |raws|
    ensures forall i :: 0 <= i < |raws| ==> Walk(Concat(raws))[i] == ParsePacket(raws[i])
    decreases |raws|
  {
    if raws != [] {
      var rest := Concat(raws[1..]);
      WalkOfCompound(raws[1..]);
      WalkOne(raws[0], rest);
      forall i | 0 <= i < |raws| ensures Walk(Concat(raws))[i] == ParsePacket(raws[i]) {
        if i > 0 { assert Walk(rest)[i - 1] == ParsePacket(raws[1..][i - 1]); }
      }
    }
  }

  class PacketIter {
    var rest: seq<byte>
    var done: bool

    /** What is still to come. */
    ghost function Upcoming(): seq<Result<Block, RtcpError>>
      reads this
    {
      if done then [] else Walk(rest)
    }

    constructor (datagram: seq<byte>)
      ensures Upcoming() == Walk(datagram)
    {
      rest, done := datagram, false;
    }

    method Next() returns (r: Option<Result<Block, RtcpError>>)
      modifies this
      ensures r.None? <==> old(Upcoming()) == []
      ensures r.None? ==> Upcoming() == []
      ensures r.Some? ==> old(Upcoming()) == [r.value] + Upcoming()
    {
      if done || rest == [] {
        return None;
      }
      var parsed := ParseBlock(rest);
      if parsed.Err? {
        done := true;
        return Some(Err(parsed.error));
      }
      rest := rest[|parsed.value.raw|..];
      if !FitsType(parsed.value) {
        done := true;
        return Some(Err(Truncated));
      }
      r := Some(Ok(parsed.value));
    }
  }
}
