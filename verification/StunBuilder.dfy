/** The builder of STUN messages in a caller's buffer, patching the length field as it goes. */
module StunBuilder {
  import opened Buffers
  import opened Bytes
  import IceTable
  import opened Seqs
  import opened StunMessages
  import opened Wrappers

  /** The bytes `b` start a message of this type and transaction with these attributes, whatever the length field says. */
  ghost predicate Holds(b: seq<byte>, kind: u16, tid: Tid, attrs: seq<Attr>) {
    |b| >= HEADER_LEN && b[..2] == Be16(kind) && b[4..] == COOKIE + tid + Body(attrs)
  }

  lemma HeldSize(b: seq<byte>, kind: u16, tid: Tid, attrs: seq<Attr>)
    requires Holds(b, kind, tid, attrs)
    ensures |b| == HEADER_LEN + |Body(attrs)|
  {
    assert |b[4..]| == |b| - 4;
  }

  lemma HeldMore(b: seq<byte>, kind: u16, tid: Tid, attrs: seq<Attr>, a: Attr)
    requires Holds(b, kind, tid, attrs)
    ensures Holds(b + Encode(a), kind, tid, attrs + [a])
  {
    BodySplits(attrs, [a]);
    BodyOfOne(a);
    TailGrows(b, Encode(a));
    Assoc(COOKIE + tid, Body(attrs), Encode(a));
  }

  lemma TailGrows(b: seq<byte>, e: seq<byte>)
    requires |b| >= 4
    ensures (b + e)[..2] == b[..2] && (b + e)[4..] == b[4..] + e
  {
  }

  /** `b` with its length field replaced. */
  function Patched(b: seq<byte>, len: u16): (r: seq<byte>)
    requires |b| >= HEADER_LEN
    ensures |r| == |b|
  {
    b[..2] + Be16(len) + b[4..]
  }

  lemma PatchedHolds(b: seq<byte>, kind: u16, tid: Tid, attrs: seq<Attr>, len: u16)
    requires Holds(b, kind, tid, attrs)
    ensures Holds(Patched(b, len), kind, tid, attrs)
    ensures Patched(b, len) == Head(kind, len, tid) + Body(attrs)
  {
    Assoc(Be16(kind) + Be16(len), COOKIE + tid, Body(attrs));
    Assoc(Be16(kind) + Be16(len), COOKIE, tid);
    assert Patched(b, len)[..2] == b[..2] && Patched(b, len)[4..] == b[4..];
  }

  class MessageBuilder {
    const buf: array<byte>
    const kind: u16
    const tid: Tid
    var pos: nat
    var sealed: bool
    var fingerprintWritten: bool
    ghost var attrs: seq<Attr>

    ghost predicate Valid()
      reads this, buf
    {
      HEADER_LEN <= pos <= buf.Length && Holds(buf[..pos], kind, tid, attrs)
    }

    /** Starts on a buffer that already holds the header. */
    constructor (b: array<byte>, msgType: u16, id: Tid)
      requires b.Length >= HEADER_LEN && b[..HEADER_LEN] == Head(msgType, 0, id)
      ensures Valid() && attrs == [] && !sealed && !fingerprintWritten
      ensures buf == b && kind == msgType && tid == id && pos == HEADER_LEN
    {
      buf, kind, tid, pos := b, msgType, id, HEADER_LEN;
      sealed, fingerprintWritten, attrs := false, false, [];
      new;
      var h := b[..HEADER_LEN];
      assert h[..2] == Be16(msgType) && h[4..] == COOKIE + id + [];
    }

    /** Writes the attribute at the end, padded with zeros. */
    method Put(a: Attr)
      requires Valid() && pos + |Encode(a)| <= buf.Length
      modifies `pos, `attrs, buf
      ensures Valid() && attrs == old(attrs) + [a] && pos == old(pos) + |Encode(a)|
    {
      HeldMore(buf[..pos], kind, tid, attrs, a);
      ghost var was := buf[..pos];
      var w := Append(buf, pos, Be16(a.kind));
      w := Append(buf, w, Be16(|a.value|));
      w := Append(buf, w, a.value);
      w := Append(buf, w, Zeros(Padded(|a.value|) - |a.value|));
      PutTogether(was, Be16(a.kind), Be16(|a.value|), a.value, Zeros(Padded(|a.value|) - |a.value|));
      pos := w;
      attrs := attrs + [a];
    }

    /** Replaces the length field. */
    method Patch(len: u16)
      requires Valid()
      modifies buf
      ensures Valid() && buf[..pos] == Head(kind, len, tid) + Body(attrs)
    {
      PatchedHolds(buf[..pos], kind, tid, attrs, len);
      ghost var was := buf[..];
      Write(buf, 2, Be16(len));
      assert buf[..pos] == Patched(was[..pos], len);
    }

    method Attribute(attrType: u16, value: seq<byte>) returns (r: Result<(), StunError>)
      requires Valid()
      modifies `pos, `attrs, buf
      ensures Valid()
      ensures sealed ==> r == Err(AttributeOrder)
      ensures !sealed && |value| > 0xFFFF ==> r == Err(AttributeTooLarge)
      ensures !sealed && |value| <= 0xFFFF ==>
                (r.Ok? <==> old(pos) + 4 + Padded(|value|) <= buf.Length) && (r.Err? ==> r.error == BufferTooSmall)
      ensures if r.Ok? then
                && |value| <= 0xFFFF && attrs == old(attrs) + [Attr(attrType, value)]
                && pos == old(pos) + 4 + Padded(|value|)
              else attrs == old(attrs) && pos == old(pos) && buf[..] == old(buf[..])
    {
      if sealed {
        return Err(AttributeOrder);
      }
      if |value| > 0xFFFF {
        return Err(AttributeTooLarge);
      }
      if pos + 4 + Padded(|value|) > buf.Length {
        return Err(BufferTooSmall);
      }
      Put(Attr(attrType, value));
      r := Ok(());
    }

    /** Patches the length to count the integrity attribute, then computes its value over all that precedes it. */
    method MessageIntegrity(c: Checks, key: seq<byte>) returns (r: Result<(), StunError>)
      requires Valid()
      modifies `pos, `attrs, `sealed, buf
      ensures Valid()
      ensures old(sealed) ==> r == Err(AttributeOrder)
      ensures !old(sealed) && old(pos) + 24 > buf.Length ==> r == Err(BufferTooSmall)
      ensures !old(sealed) && old(pos) + 24 <= buf.Length ==> r.Ok?
      ensures r.Ok? ==>
                sealed && pos == old(pos) + 24 && attrs == old(attrs) + [Integrity(c, key, kind, tid, old(attrs))]
      ensures fingerprintWritten == old(fingerprintWritten)
      ensures r.Err? ==> sealed == old(sealed) && attrs == old(attrs) && pos == old(pos)
    {
      if sealed {
        return Err(AttributeOrder);
      }
      if pos + 24 > buf.Length {
        return Err(BufferTooSmall);
      }
      HeldSize(buf[..pos], kind, tid, attrs);
      var adjusted := Wrap16(pos + 24 - HEADER_LEN);
      Patch(adjusted);
      assert buf[..pos][..2] == buf[..2] && buf[..pos][4..] == buf[4..pos];
      var digest := c.hmac(key, buf[..2] + Be16(adjusted) + buf[4..pos]);
      Put(Attr(MESSAGE_INTEGRITY, digest));
      sealed := true;
      r := Ok(());
    }

    /** Patches the length to count the fingerprint, then computes its value over all that precedes it. */
    method AppendFingerprint(c: Checks) returns (r: Result<(), StunError>)
      requires Valid()
      modifies `pos, `attrs, `sealed, `fingerprintWritten, buf
      ensures Valid()
      ensures old(fingerprintWritten) ==> r == Err(AttributeOrder)
      ensures !old(fingerprintWritten) && old(pos) + 8 > buf.Length ==> r == Err(BufferTooSmall)
      ensures !old(fingerprintWritten) && old(pos) + 8 <= buf.Length ==> r.Ok?
      ensures r.Ok? ==>
                && sealed && fingerprintWritten && pos == old(pos) + 8
                && attrs == old(attrs) + [Fingerprint(c, kind, tid, old(attrs))]
      ensures r.Err? ==> sealed == old(sealed) && attrs == old(attrs) && pos == old(pos)
    {
      if fingerprintWritten {
        return Err(AttributeOrder);
      }
      if pos + 8 > buf.Length {
        return Err(BufferTooSmall);
      }
      HeldSize(buf[..pos], kind, tid, attrs);
      Patch(Wrap16(pos + 8 - HEADER_LEN));
      var crc := Xor(Be32(c.crc(buf[..pos])), FINGERPRINT_XOR);
      Put(Attr(FINGERPRINT, crc));
      sealed, fingerprintWritten := true, true;
      r := Ok(());
    }

    /** Patches the final length; the buffer then holds the message, and only that. */
    method Finish() returns (r: Result<nat, StunError>)
      requires Valid()
      modifies buf
      ensures Valid()
      ensures |Body(attrs)| > 0xFFFF ==> r == Err(MessageTooLarge)
      ensures |Body(attrs)| <= 0xFFFF ==> r == Ok(pos) && buf[..pos] == Wire(kind, tid, attrs)
    {
      HeldSize(buf[..pos], kind, tid, attrs);
      var len := pos - HEADER_LEN;
      if len > 0xFFFF {
        return Err(MessageTooLarge);
      }
      Patch(len);
      r := Ok(pos);
    }
  }

  lemma PutTogether(w: seq<byte>, a: seq<byte>, b: seq<byte>, c: seq<byte>, d: seq<byte>)
    ensures w + a + b + c + d == w + (a + b + c + d)
  {
  }

  /** Writes the header with a length of zero, or fails on a buffer too short for it. */
  method Begin(buf: array<byte>, msgType: u16, tid: Tid) returns (r: Result<MessageBuilder, StunError>)
    modifies buf
    ensures r.Ok? <==> buf.Length >= HEADER_LEN
    ensures r.Err? ==> r.error == BufferTooSmall && buf[..] == old(buf[..])
    ensures r.Ok? ==> fresh(r.value) && r.value.Valid() && r.value.attrs == [] && !r.value.sealed && !r.value.fingerprintWritten
    ensures r.Ok? ==> r.value.buf == buf && r.value.kind == msgType && r.value.tid == tid && r.value.pos == HEADER_LEN
  {
    if buf.Length < HEADER_LEN {
      return Err(BufferTooSmall);
    }
    var w := Append(buf, 0, Be16(msgType));
    w := Append(buf, w, [0, 0]);
    w := Append(buf, w, COOKIE);
    w := Append(buf, w, tid);
    var b := new MessageBuilder(buf, msgType, tid);
    r := Ok(b);
  }

  /** Integrity and fingerprint with their headers. */
  const SEALS_LEN := 32

  /** Integrity, fingerprint and the final length behind the plain attributes; None exactly if something does not fit. */
  method Seal(b: MessageBuilder, c: Checks, key: seq<byte>) returns (r: Option<nat>)
    requires b.Valid() && !b.sealed && !b.fingerprintWritten
    modifies b, b.buf
    ensures r == (if old(b.pos) + SEALS_LEN <= b.buf.Length && old(b.pos) + SEALS_LEN - HEADER_LEN <= 0xFFFF
                  then Some(old(b.pos) + SEALS_LEN) else None)
    ensures r.Some? ==>
              var plain := old(b.attrs);
              var signed := plain + [Integrity(c, key, b.kind, b.tid, plain)];
              var all := signed + [Fingerprint(c, b.kind, b.tid, signed)];
              |Body(all)| <= 0xFFFF && b.buf[..r.value] == Wire(b.kind, b.tid, all)
  {
    var step := b.MessageIntegrity(c, key);
    if step.Err? {
      return None;
    }
    step := b.AppendFingerprint(c);
    if step.Err? {
      return None;
    }
    HeldSize(b.buf[..b.pos], b.kind, b.tid, b.attrs);
    var done := b.Finish();
    r := if done.Ok? then Some(done.value) else None;
  }

  /** The size of the response to an accepted check. */
  function SuccessLen(mapped: Value, software: Value): nat {
    HEADER_LEN + |Encode(Attr(XOR_MAPPED_ADDRESS, mapped))| + |Encode(Attr(SOFTWARE, software))| + SEALS_LEN
  }

  /** The address, integrity and fingerprint for the sender of an accepted check; None exactly if the buffer is too short. */
  method BuildSuccess(c: Checks, key: seq<byte>, out: array<byte>, tid: Tid, mapped: Value, software: Value)
    returns (r: Option<nat>)
    modifies out
    ensures var n := SuccessLen(mapped, software);
            r == if n <= out.Length && n - HEADER_LEN <= 0xFFFF then Some(n) else None
    ensures r.Some? ==>
              var plain := [Attr(XOR_MAPPED_ADDRESS, mapped), Attr(SOFTWARE, software)];
              var signed := plain + [Integrity(c, key, BINDING_SUCCESS, tid, plain)];
              var all := signed + [Fingerprint(c, BINDING_SUCCESS, tid, signed)];
              |Body(all)| <= 0xFFFF && out[..r.value] == Wire(BINDING_SUCCESS, tid, all)
  {
    var begun := Begin(out, BINDING_SUCCESS, tid);
    if begun.Err? {
      return None;
    }
    var b := begun.value;
    var added := AddBoth(b, Attr(XOR_MAPPED_ADDRESS, mapped), Attr(SOFTWARE, software));
    if !added {
      return None;
    }
    assert b.attrs == [Attr(XOR_MAPPED_ADDRESS, mapped), Attr(SOFTWARE, software)];
    r := Seal(b, c, key);
  }

  /** Adds the first attribute and then the second, or stops at the one that does not fit. */
  method AddBoth(b: MessageBuilder, first: Attr, second: Attr) returns (ok: bool)
    requires b.Valid() && !b.sealed
    modifies b`pos, b`attrs, b.buf
    ensures b.Valid()
    ensures ok <==> old(b.pos) + |Encode(first)| + |Encode(second)| <= b.buf.Length
    ensures ok ==> b.attrs == old(b.attrs) + [first, second] && b.pos == old(b.pos) + |Encode(first)| + |Encode(second)|
  {
    var step := b.Attribute(first.kind, first.value);
    if step.Err? {
      return false;
    }
    step := b.Attribute(second.kind, second.value);
    ok := step.Ok?;
    assert ok ==> b.attrs == (old(b.attrs) + [first]) + [second];
  }

  const MAX_RESPONSE_LEN := 256
  const SOFTWARE_NAME_LEN := 11

  /** The response buffer always suffices, for addresses of either family and the name sent. */
  lemma SuccessAlwaysFits(a: IceTable.Addr, tid: Tid, software: Value)
    requires WellFormed(a) && |software| == SOFTWARE_NAME_LEN
    ensures SuccessLen(MappedValue(a, tid), software) == (if a.V4? then 80 else 92)
    ensures SuccessLen(MappedValue(a, tid), software) <= MAX_RESPONSE_LEN
  {
  }
}
