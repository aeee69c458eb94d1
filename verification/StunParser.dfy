/** Parsing a datagram and walking its attributes with an advancing offset. */
module StunParser {
  import opened Buffers
  import opened Bytes
  import opened StunMessages
  import opened Wrappers

  method ParseDatagram(datagram: seq<byte>) returns (r: Result<Message, StunError>)
    ensures r == Parse(datagram)
  {
    if |datagram| < HEADER_LEN {
      return Err(TooShort);
    }
    if datagram[0] / 64 != 0 {
      return Err(NotStun);
    }
    var declared := Read16(datagram[2], datagram[3]);
    if declared % 4 != 0 {
      return Err(BadLength);
    }
    if datagram[4..8] != COOKIE {
      return Err(BadCookie);
    }
    if |datagram| < HEADER_LEN + declared {
      return Err(Truncated);
    }
    var raw := datagram[..HEADER_LEN + declared];
    var framed := CheckFraming(raw);
    if !framed {
      return Err(MalformedAttributes);
    }
    r := Ok(Message(raw, Read16(datagram[0], datagram[1]), raw[8..20]));
  }

  /** Does every attribute, padding included, fit exactly inside the message? */
  method CheckFraming(raw: seq<byte>) returns (ok: bool)
    requires |raw| >= HEADER_LEN
    ensures ok == Framed(raw, HEADER_LEN)
  {
    var off := HEADER_LEN;
    while off < |raw|
      invariant off <= |raw| && Framed(raw, off) == Framed(raw, HEADER_LEN)
    {
      if off + 4 > |raw| {
        return false;
      }
      var next := off + 4 + Padded(Read16(raw[off + 2], raw[off + 3]));
      if next > |raw| {
        return false;
      }
      off := next;
    }
    ok := true;
  }

  /** The attribute at an offset, and then those behind its padding. */
  lemma OneAttribute(raw: seq<byte>, off: nat, len: nat)
    requires off + 4 <= |raw| && len == Read16(raw[off + 2], raw[off + 3]) && off + 4 + len <= |raw|
    ensures Attributes(raw, off) ==
            [Found(Read16(raw[off], raw[off + 1]), off, raw[off + 4..off + 4 + len])] + Attributes(raw, off + 4 + Padded(len))
  {
  }

  class AttributeIter {
    const raw: seq<byte>
    var off: nat

    /** What is still to come. */
    ghost function Upcoming(): seq<Found>
      reads this
    {
      Attributes(raw, off)
    }

    constructor (m: Message)
      ensures Upcoming() == Attributes(m.raw, HEADER_LEN)
    {
      raw, off := m.raw, HEADER_LEN;
    }

    method Next() returns (r: Option<Found>)
      modifies this
      ensures r.None? ==> old(Upcoming()) == [] && Upcoming() == []
      ensures r.Some? ==> old(Upcoming()) == [r.value] + Upcoming()
    {
      if off + 4 > |raw| {
        return None;
      }
      var len := Read16(raw[off + 2], raw[off + 3]);
      if off + 4 + len > |raw| {
        return None;
      }
      OneAttribute(raw, off, len);
      r := Some(Found(Read16(raw[off], raw[off + 1]), off, raw[off + 4..off + 4 + len]));
      off := off + 4 + Padded(len);
    }
  }

  /** The first attribute of a type. */
  method FindAttribute(m: Message, kind: u16) returns (r: Option<Found>)
    ensures r == Get(m, kind)
  {
    var iter := new AttributeIter(m);
    var next := iter.Next();
    while next.Some?
      invariant fresh(iter)
      invariant Get(m, kind) == FirstOf((if next.Some? then [next.value] else []) + iter.Upcoming(), kind)
      invariant next.None? ==> iter.Upcoming() == []
      decreases |iter.Upcoming()| + (if next.Some? then 1 else 0)
    {
      ghost var all := [next.value] + iter.Upcoming();
      assert all[1..] == iter.Upcoming();
      if next.value.kind == kind {
        return next;
      }
      next := iter.Next();
    }
    r := None;
  }
}
