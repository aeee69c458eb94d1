/**
 * STUN messages: framing of attributes, integrity and fingerprint, and the
 * exclusive-ored address. HMAC-SHA1 and CRC-32 are any functions of the right
 * result size.
 */
module StunMessages {
  import opened Buffers
  import opened Bytes
  import opened IceTable
  import opened Seqs
  import opened Wrappers

  const HEADER_LEN := 20
  const COOKIE: seq<byte> := [0x21, 0x12, 0xA4, 0x42]
  const FINGERPRINT_XOR: seq<byte> := [0x53, 0x54, 0x55, 0x4E]

  const MESSAGE_INTEGRITY: u16 := 0x0008
  const XOR_MAPPED_ADDRESS: u16 := 0x0020
  const SOFTWARE: u16 := 0x8022
  const FINGERPRINT: u16 := 0x8028

  const BINDING_SUCCESS: u16 := 0x0101

  type Digest = s: seq<byte> | |s| == 20 witness seq(20, i => 0)
  type Tid = s: seq<byte> | |s| == 12 witness seq(12, i => 0)
  type Value = s: seq<byte> | |s| <= 0xFFFF witness []

  /** The two checksums a message can carry. */
  datatype Checks = Checks(hmac: (seq<byte>, seq<byte>) -> Digest, crc: seq<byte> -> u32)

  datatype StunError =
    | TooShort
    | NotStun
    | BadCookie
    | BadLength
    | Truncated
    | MalformedAttributes
    | BufferTooSmall
    | AttributeTooLarge
    | MessageTooLarge
    | AttributeOrder

  // ── Encoding ──────────────────────────────────────────────────────────

  datatype Attr = Attr(kind: u16, value: Value)

  function Encode(a: Attr): (s: seq<byte>)
    ensures |s| == 4 + Padded(|a.value|)
  {
    Be16(a.kind) + Be16(|a.value|) + a.value + Zeros(Padded(|a.value|) - |a.value|)
  }

  function Body(attrs: seq<Attr>): (s: seq<byte>)
    ensures |s| % 4 == 0
  {
    if attrs == [] then [] else Encode(attrs[0]) + Body(attrs[1..])
  }

  function Head(kind: u16, len: u16, tid: Tid): (s: seq<byte>)
    ensures |s| == HEADER_LEN
  {
    Be16(kind) + Be16(len) + COOKIE + tid
  }

  /** A message with these attributes; its length field counts them. */
  function Wire(kind: u16, tid: Tid, attrs: seq<Attr>): seq<byte>
    requires |Body(attrs)| <= 0xFFFF
  {
    Head(kind, |Body(attrs)|, tid) + Body(attrs)
  }

  function Wrap16(n: nat): u16 {
    n % 0x1_0000
  }

  /** What the integrity value covers: the message up to it, its length field already counting it. */
  function Signed(kind: u16, tid: Tid, before: seq<Attr>): seq<byte> {
    Be16(kind) + Be16(Wrap16(|Body(before)| + 24)) + (COOKIE + tid + Body(before))
  }

  function Integrity(c: Checks, key: seq<byte>, kind: u16, tid: Tid, before: seq<Attr>): Attr {
    Attr(MESSAGE_INTEGRITY, c.hmac(key, Signed(kind, tid, before)))
  }

  function Fingerprint(c: Checks, kind: u16, tid: Tid, before: seq<Attr>): Attr {
    Attr(FINGERPRINT, Xor(Be32(c.crc(Head(kind, Wrap16(|Body(before)| + 8), tid) + Body(before))), FINGERPRINT_XOR))
  }

  // ── Parsing ───────────────────────────────────────────────────────────

  datatype Message = Message(raw: seq<byte>, kind: u16, tid: Tid)

  /** Every attribute from `off` on, value and padding, fits exactly. */
  predicate Framed(raw: seq<byte>, off: nat)
    decreases if off <= |raw| then |raw| - off else 0
  {
    off == |raw|
    || (off + 4 <= |raw| && off + 4 + Padded(Read16(raw[off + 2], raw[off + 3])) <= |raw|
        && Framed(raw, off + 4 + Padded(Read16(raw[off + 2], raw[off + 3]))))
  }

  function Parse(datagram: seq<byte>): Result<Message, StunError> {
    if |datagram| < HEADER_LEN then Err(TooShort)
    else if datagram[0] >= 64 then Err(NotStun)
    else
      var declared := Read16(datagram[2], datagram[3]);
      if declared % 4 != 0 then Err(BadLength)
      else if datagram[4..8] != COOKIE then Err(BadCookie)
      else if |datagram| < HEADER_LEN + declared then Err(Truncated)
      else
        var raw := datagram[..HEADER_LEN + declared];
        if !Framed(raw, HEADER_LEN) then Err(MalformedAttributes)
        else Ok(Message(raw, Read16(datagram[0], datagram[1]), raw[8..20]))
  }

  datatype Found = Found(kind: u16, offset: nat, value: seq<byte>)

  /** The attribute iterator: it ends where no whole attribute follows. */
  function Attributes(raw: seq<byte>, off: nat): seq<Found>
    decreases if off <= |raw| then |raw| - off else 0
  {
    if off + 4 > |raw| then []
    else
      var len: nat := Read16(raw[off + 2], raw[off + 3]);
      if off + 4 + len > |raw| then []
      else
        [Found(Read16(raw[off], raw[off + 1]), off, raw[off + 4..off + 4 + len])]
        + Attributes(raw, off + 4 + Padded(len))
  }

  /** The bytes these attributes occupy. */
  function Extent(found: seq<Found>): nat {
    if found == [] then 0 else 4 + Padded(|found[0].value|) + Extent(found[1..])
  }

  /** On an accepted message the iterator covers exactly the declared length. */
  lemma {:induction false} IteratorCovers(raw: seq<byte>, off: nat)
    requires Framed(raw, off)
    ensures off + Extent(Attributes(raw, off)) == |raw|
    decreases if off <= |raw| then |raw| - off else 0
  {
    if off < |raw| {
      var len: nat := Read16(raw[off + 2], raw[off + 3]);
      IteratorCovers(raw, off + 4 + Padded(len));
      assert Attributes(raw, off)[1..] == Attributes(raw, off + 4 + Padded(len));
    }
  }

  function FirstOf(found: seq<Found>, kind: u16): Option<Found> {
    if found == [] then None
    else if found[0].kind == kind then Some(found[0])
    else FirstOf(found[1..], kind)
  }

  function Get(m: Message, kind: u16): Option<Found> {
    FirstOf(Attributes(m.raw, HEADER_LEN), kind)
  }

  predicate IntegrityValid(c: Checks, m: Message, key: seq<byte>) {
    var a := Get(m, MESSAGE_INTEGRITY);
    a.Some? && |a.value.value| == 20 && 4 <= a.value.offset <= |m.raw|
    && c.hmac(key, m.raw[..2] + Be16(Wrap16(a.value.offset + 24 - HEADER_LEN)) + m.raw[4..a.value.offset]) == a.value.value
  }

  /** Absent, or last and right. */
  predicate FingerprintValid(c: Checks, m: Message) {
    var a := Get(m, FINGERPRINT);
    a.None? || (|a.value.value| == 4 && a.value.offset + 8 == |m.raw|
                && Xor(Be32(c.crc(m.raw[..a.value.offset])), FINGERPRINT_XOR) == a.value.value)
  }

  // ── What is written is what is found ──────────────────────────────────

  /** The attributes as the iterator gives them, starting at `off`. */
  function Placed(attrs: seq<Attr>, off: nat): seq<Found> {
    if attrs == [] then []
    else [Found(attrs[0].kind, off, attrs[0].value)] + Placed(attrs[1..], off + |Encode(attrs[0])|)
  }

  lemma EncodedReads(pre: seq<byte>, a: Attr, post: seq<byte>)
    ensures var raw, off := pre + Encode(a) + post, |pre|;
            && Read16(raw[off], raw[off + 1]) == a.kind && Read16(raw[off + 2], raw[off + 3]) == |a.value|
            && raw[off + 4..off + 4 + |a.value|] == a.value
  {
    var raw, off := pre + Encode(a) + post, |pre|;
    Read16OfBe16(a.kind);
    Read16OfBe16(|a.value|);
    assert raw[off..][..4 + |a.value|] == Encode(a)[..4 + |a.value|];
    assert raw[off] == Be16(a.kind)[0] && raw[off + 1] == Be16(a.kind)[1];
    assert raw[off + 2] == Be16(|a.value|)[0] && raw[off + 3] == Be16(|a.value|)[1];
  }

  /** One more attribute at the front of what is still to be read. */
  lemma ReadOne(raw: seq<byte>, pre: seq<byte>, a: Attr, post: seq<byte>)
    requires raw == pre + Encode(a) + post
    ensures Framed(raw, |pre|) <==> Framed(raw, |pre + Encode(a)|)
    ensures Attributes(raw, |pre|) == [Found(a.kind, |pre|, a.value)] + Attributes(raw, |pre + Encode(a)|)
  {
    EncodedReads(pre, a, post);
  }

  /** Attributes written one after another are framed exactly. */
  lemma {:induction false} WrittenIsFramed(raw: seq<byte>, pre: seq<byte>, attrs: seq<Attr>)
    requires raw == pre + Body(attrs)
    ensures Framed(raw, |pre|)
    decreases |attrs|
  {
    if attrs != [] {
      Assoc(pre, Encode(attrs[0]), Body(attrs[1..]));
      WrittenIsFramed(raw, pre + Encode(attrs[0]), attrs[1..]);
      ReadOne(raw, pre, attrs[0], Body(attrs[1..]));
    }
  }

  lemma PlacedOne(attrs: seq<Attr>, off: nat, next: nat)
    requires attrs != [] && next == off + |Encode(attrs[0])|
    ensures Placed(attrs, off) == [Found(attrs[0].kind, off, attrs[0].value)] + Placed(attrs[1..], next)
  {
  }

  /** The iterator finds each attribute written, in order and at its place. */
  lemma {:induction false} WrittenIsFound(raw: seq<byte>, pre: seq<byte>, attrs: seq<Attr>)
    requires raw == pre + Body(attrs)
    ensures Attributes(raw, |pre|) == Placed(attrs, |pre|)
    decreases |attrs|
  {
    if attrs != [] {
      var next := pre + Encode(attrs[0]);
      Assoc(pre, Encode(attrs[0]), Body(attrs[1..]));
      WrittenIsFound(raw, next, attrs[1..]);
      ReadOne(raw, pre, attrs[0], Body(attrs[1..]));
      PlacedOne(attrs, |pre|, |next|);
    }
  }

  lemma {:induction false} BodySplits(attrs: seq<Attr>, more: seq<Attr>)
    ensures Body(attrs + more) == Body(attrs) + Body(more)
    decreases |attrs|
  {
    if attrs == [] {
      assert [] + more == more;
    } else {
      assert (attrs + more)[1..] == attrs[1..] + more;
      BodySplits(attrs[1..], more);
      Assoc(Encode(attrs[0]), Body(attrs[1..]), Body(more));
    }
  }

  lemma BodyOfOne(a: Attr)
    ensures Body([a]) == Encode(a)
  {
    assert [a][1..] == [] && Body([]) == [];
    assert Encode(a) + [] == Encode(a);
  }

  // ── Round trip of whole messages ──────────────────────────────────────

  lemma HeadReads(kind: u16, len: u16, tid: Tid, post: seq<byte>)
    ensures var raw := Head(kind, len, tid) + post;
            && Read16(raw[0], raw[1]) == kind && Read16(raw[2], raw[3]) == len
            && raw[4..8] == COOKIE && raw[8..20] == tid && raw[0] == kind / 256
  {
    Read16OfBe16(kind);
    Read16OfBe16(len);
    var h := Head(kind, len, tid);
    assert h[0] == Be16(kind)[0] && h[1] == Be16(kind)[1] && h[2] == Be16(len)[0] && h[3] == Be16(len)[1];
  }

  /** Every message written parses, trailing bytes or not, and its attributes are those written, in order. */
  lemma WireParses(kind: u16, tid: Tid, attrs: seq<Attr>, trailing: seq<byte>)
    requires kind < 0x4000 && |Body(attrs)| <= 0xFFFF
    ensures var w := Wire(kind, tid, attrs);
            && Parse(w + trailing) == Ok(Message(w, kind, tid))
            && Attributes(w, HEADER_LEN) == Placed(attrs, HEADER_LEN)
  {
    var w := Wire(kind, tid, attrs);
    var len := |Body(attrs)|;
    HeadReads(kind, len, tid, Body(attrs) + trailing);
    Assoc(Head(kind, len, tid), Body(attrs), trailing);
    WrittenIsFramed(w, Head(kind, len, tid), attrs);
    WrittenIsFound(w, Head(kind, len, tid), attrs);
    assert (w + trailing)[..HEADER_LEN + len] == w;
    HeadReads(kind, len, tid, Body(attrs));
  }

  ghost predicate NoneOf(attrs: seq<Attr>, kind: u16) {
    forall i :: 0 <= i < |attrs| ==> attrs[i].kind != kind
  }

  lemma {:induction false} FirstPlaced(before: seq<Attr>, a: Attr, after: seq<Attr>, off: nat)
    requires NoneOf(before, a.kind)
    ensures FirstOf(Placed(before + [a] + after, off), a.kind) == Some(Found(a.kind, off + |Body(before)|, a.value))
    decreases |before|
  {
    var all := before + [a] + after;
    if before != [] {
      assert all[1..] == before[1..] + [a] + after;
      FirstPlaced(before[1..], a, after, off + |Encode(before[0])|);
    }
  }

  lemma {:induction false} NonePlaced(attrs: seq<Attr>, kind: u16, off: nat)
    requires NoneOf(attrs, kind)
    ensures FirstOf(Placed(attrs, off), kind) == None
    decreases |attrs|
  {
    if attrs != [] {
      NonePlaced(attrs[1..], kind, off + |Encode(attrs[0])|);
    }
  }

  /** Plain attributes with neither checksum among them. */
  ghost predicate IsPlain(attrs: seq<Attr>) {
    NoneOf(attrs, MESSAGE_INTEGRITY) && NoneOf(attrs, FINGERPRINT)
  }

  /** The body before an attribute, the attribute and what follows. */
  lemma BodyAround(before: seq<Attr>, a: Attr, after: seq<Attr>)
    ensures Body(before + [a] + after) == Body(before) + (Encode(a) + Body(after))
  {
    BodySplits(before + [a], after);
    BodySplits(before, [a]);
    BodyOfOne(a);
    Assoc(Body(before), Encode(a), Body(after));
  }

  lemma SlicesOf(h: seq<byte>, k: seq<byte>, l: seq<byte>, t: seq<byte>, a: seq<byte>, b: seq<byte>)
    requires |k| == 2 && |l| == 2 && h == k + l + COOKIE + t && |t| == 12
    ensures var raw, off := h + (a + b), HEADER_LEN + |a|;
            raw[..2] == k && raw[4..off] == COOKIE + t + a && raw[..off] == h + a
  {
  }

  /** What precedes one attribute of a message. */
  lemma BytesBefore(kind: u16, tid: Tid, all: seq<Attr>, before: seq<Attr>, a: Attr, after: seq<Attr>)
    requires all == before + [a] + after && |Body(all)| <= 0xFFFF
    ensures var raw, off := Wire(kind, tid, all), HEADER_LEN + |Body(before)|;
            && off <= |raw| && raw[..2] == Be16(kind) && raw[4..off] == COOKIE + tid + Body(before)
            && raw[..off] == Head(kind, |Body(all)|, tid) + Body(before)
            && |raw| == off + |Encode(a)| + |Body(after)|
  {
    BodyAround(before, a, after);
    SlicesOf(Head(kind, |Body(all)|, tid), Be16(kind), Be16(|Body(all)|), tid, Body(before), Encode(a) + Body(after));
  }

  /** Where the iterator finds the first attribute of its kind. */
  lemma FoundAt(kind: u16, tid: Tid, all: seq<Attr>, before: seq<Attr>, a: Attr, after: seq<Attr>)
    requires all == before + [a] + after && NoneOf(before, a.kind) && |Body(all)| <= 0xFFFF
    ensures Get(Message(Wire(kind, tid, all), kind, tid), a.kind) ==
            Some(Found(a.kind, HEADER_LEN + |Body(before)|, a.value))
  {
    WrittenIsFound(Wire(kind, tid, all), Head(kind, |Body(all)|, tid), all);
    FirstPlaced(before, a, after, HEADER_LEN);
  }

  /** An integrity attribute computed over what precedes it verifies, whatever follows and however the length field was changed since. */
  lemma IntegrityVerifies(c: Checks, key: seq<byte>, kind: u16, tid: Tid, all: seq<Attr>, before: seq<Attr>, after: seq<Attr>)
    requires NoneOf(before, MESSAGE_INTEGRITY)
    requires all == before + [Integrity(c, key, kind, tid, before)] + after && |Body(all)| <= 0xFFFF
    ensures IntegrityValid(c, Message(Wire(kind, tid, all), kind, tid), key)
  {
    BytesBefore(kind, tid, all, before, Integrity(c, key, kind, tid, before), after);
    FoundAt(kind, tid, all, before, Integrity(c, key, kind, tid, before), after);
  }

  lemma FingerprintHolds(c: Checks, m: Message, off: nat, value: seq<byte>, covered: seq<byte>)
    requires Get(m, FINGERPRINT) == Some(Found(FINGERPRINT, off, value))
    requires off + 8 == |m.raw| && m.raw[..off] == covered
    requires value == Xor(Be32(c.crc(covered)), FINGERPRINT_XOR)
    ensures FingerprintValid(c, m)
  {
  }

  lemma FourByteValue(before: seq<Attr>, a: Attr)
    requires |a.value| == 4
    ensures |Encode(a)| == 8 && |Body(before + [a])| == |Body(before)| + 8
  {
    BodySplits(before, [a]);
    BodyOfOne(a);
  }

  lemma NoWrap(n: nat)
    requires n <= 0xFFFF
    ensures Wrap16(n) == n
  {
  }

  /** A fingerprint over everything before it, added last, is valid. */
  lemma FingerprintVerifies(c: Checks, kind: u16, tid: Tid, all: seq<Attr>, before: seq<Attr>)
    requires NoneOf(before, FINGERPRINT)
    requires all == before + [Fingerprint(c, kind, tid, before)] && |Body(all)| <= 0xFFFF
    ensures FingerprintValid(c, Message(Wire(kind, tid, all), kind, tid))
  {
    var fp := Fingerprint(c, kind, tid, before);
    assert all == before + [fp] + [];
    BytesBefore(kind, tid, all, before, fp, []);
    FoundAt(kind, tid, all, before, fp, []);
    FourByteValue(before, fp);
    NoWrap(|Body(before)| + 8);
    var covered := Head(kind, Wrap16(|Body(before)| + 8), tid) + Body(before);
    assert fp.value == Xor(Be32(c.crc(covered)), FINGERPRINT_XOR);
    FingerprintHolds(c, Message(Wire(kind, tid, all), kind, tid), HEADER_LEN + |Body(before)|, fp.value, covered);
  }

  /**
   * Round trip: plain attributes, then integrity, then fingerprint. The message
   * parses back to those attributes in order, verifies under the same key even
   * though the length field was patched after the integrity value was computed,
   * and has a valid fingerprint.
   */
  lemma SealedRoundTrip(c: Checks, key: seq<byte>, kind: u16, tid: Tid, plain: seq<Attr>, trailing: seq<byte>)
    requires IsPlain(plain) && kind < 0x4000
    requires var signed := plain + [Integrity(c, key, kind, tid, plain)];
             |Body(signed + [Fingerprint(c, kind, tid, signed)])| <= 0xFFFF
    ensures var signed := plain + [Integrity(c, key, kind, tid, plain)];
            var all := signed + [Fingerprint(c, kind, tid, signed)];
            var m := Message(Wire(kind, tid, all), kind, tid);
            && Parse(m.raw + trailing) == Ok(m)
            && Attributes(m.raw, HEADER_LEN) == Placed(all, HEADER_LEN)
            && IntegrityValid(c, m, key) && FingerprintValid(c, m)
  {
    var signed := plain + [Integrity(c, key, kind, tid, plain)];
    var fp := Fingerprint(c, kind, tid, signed);
    WireParses(kind, tid, signed + [fp], trailing);
    IntegrityVerifies(c, key, kind, tid, signed + [fp], plain, [fp]);
    FingerprintVerifies(c, kind, tid, signed + [fp], signed);
  }

  // ── The exclusive-ored address ────────────────────────────────────────

  predicate WellFormed(a: Addr) {
    |a.ip| == if a.V4? then 4 else 16
  }

  /** Family, port and address, the latter two masked with the cookie and, for sixteen bytes, the transaction id. */
  function MappedValue(a: Addr, tid: Tid): (v: Value)
    requires WellFormed(a)
  {
    var family: byte := if a.V4? then 1 else 2;
    [0, family] + Xor(COOKIE[..2], Be16(a.port)) + Xor((COOKIE + tid)[..|a.ip|], a.ip)
  }

  function MappedAddress(v: seq<byte>, tid: Tid): Option<Addr> {
    if |v| < 4 then None
    else
      var p := Xor(v[2..4], COOKIE[..2]);
      var port := Read16(p[0], p[1]);
      if v[1] == 1 then
        if |v| < 8 then None else Some(V4(Xor(v[4..8], COOKIE), port))
      else if v[1] == 2 then
        if |v| < 20 then None else Some(V6(Xor(v[4..20], COOKIE + tid), port))
      else None
  }

  /** The address a response carries is the address it was given. */
  lemma MappedRoundTrip(a: Addr, tid: Tid)
    requires WellFormed(a)
    ensures MappedAddress(MappedValue(a, tid), tid) == Some(a)
  {
    var v := MappedValue(a, tid);
    XorCancels(COOKIE[..2], Be16(a.port), Be16(a.port));
    Read16OfBe16(a.port);
    assert v[2..4] == Xor(COOKIE[..2], Be16(a.port));
    var mask := (COOKIE + tid)[..|a.ip|];
    XorCancels(mask, a.ip, a.ip);
    if a.V4? {
      assert mask == COOKIE;
      assert v[4..8] == Xor(COOKIE, a.ip);
    } else {
      assert mask == COOKIE + tid;
      assert v[4..20] == Xor(COOKIE + tid, a.ip);
    }
  }

  /** A success response tells its receiver, who checks it under the same key, the address it was built for. */
  lemma ResponseReadsBack(c: Checks, key: seq<byte>, tid: Tid, a: Addr, software: Value)
    requires WellFormed(a)
    requires var plain := [Attr(XOR_MAPPED_ADDRESS, MappedValue(a, tid)), Attr(SOFTWARE, software)];
             var signed := plain + [Integrity(c, key, BINDING_SUCCESS, tid, plain)];
             |Body(signed + [Fingerprint(c, BINDING_SUCCESS, tid, signed)])| <= 0xFFFF
    ensures var plain := [Attr(XOR_MAPPED_ADDRESS, MappedValue(a, tid)), Attr(SOFTWARE, software)];
            var signed := plain + [Integrity(c, key, BINDING_SUCCESS, tid, plain)];
            var m := Message(Wire(BINDING_SUCCESS, tid, signed + [Fingerprint(c, BINDING_SUCCESS, tid, signed)]), BINDING_SUCCESS, tid);
            && Parse(m.raw) == Ok(m) && IntegrityValid(c, m, key) && FingerprintValid(c, m)
            && Get(m, XOR_MAPPED_ADDRESS).Some?
            && MappedAddress(Get(m, XOR_MAPPED_ADDRESS).value.value, tid) == Some(a)
  {
    var mapped := Attr(XOR_MAPPED_ADDRESS, MappedValue(a, tid));
    var plain := [mapped, Attr(SOFTWARE, software)];
    var signed := plain + [Integrity(c, key, BINDING_SUCCESS, tid, plain)];
    var all := signed + [Fingerprint(c, BINDING_SUCCESS, tid, signed)];
    SealedRoundTrip(c, key, BINDING_SUCCESS, tid, plain, []);
    assert Wire(BINDING_SUCCESS, tid, all) + [] == Wire(BINDING_SUCCESS, tid, all);
    assert all == [] + [mapped] + all[1..];
    FoundAt(BINDING_SUCCESS, tid, all, [], mapped, all[1..]);
    MappedRoundTrip(a, tid);
  }
}
