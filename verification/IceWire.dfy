/**
 * What the agent makes of a datagram, octet by octet: which are requests and
 * indications, what is read from a request's attributes, and the response.
 */
module IceWire {
  import opened Bytes
  import opened IceAgents
  import opened IceDatagrams
  import opened IceTable
  import opened StunMessages
  import opened StunWire
  import opened Wrappers

  /** The value of the first item of this kind, if there is one. */
  ghost predicate FirstValue(items: seq<Item>, kind: u16, v: Option<seq<byte>>) {
    if v.None? then NoItem(items, kind) else exists i :: FirstItem(items, i, kind) && items[i].value == v.value
  }

  lemma ValueIs(kind: nat, tid: seq<byte>, items: seq<Item>, raw: seq<byte>, k: u16)
    requires Sayable(kind, tid, items) && raw == MessageOctets(kind, tid, items)
    ensures FirstValue(items, k, ValueOf(Message(raw, kind, tid), k))
    ensures Get(Message(raw, kind, tid), k).None? <==> NoItem(items, k)
  {
    var i := FirstOrNone(items, k);
    if i == -1 { FoundNone(kind, tid, items, k, raw); } else { FoundFirst(kind, tid, items, i, k, raw); }
  }

  /** An item that must be understood and is none of those the agent knows. */
  ghost predicate Strange(i: Item) {
    i.kind < 0x8000 && i.kind !in {0x0001, 0x0006, 0x0008, 0x0009, 0x000A, 0x0014, 0x0015, 0x0020, 0x0024, 0x0025}
  }

  lemma {:induction false} ListedKinds(items: seq<Item>, off: nat)
    requires AllFit(items)
    ensures |Listed(items, off)| == |items| && forall i :: 0 <= i < |items| ==> Listed(items, off)[i].kind == items[i].kind
    decreases |items|
  {
    if items != [] {
      ListedOne(items, off, off + |ItemOctets(items[0])|);
      ListedKinds(items[1..], off + |ItemOctets(items[0])|);
    }
  }

  lemma UnknownIff(kind: nat, tid: seq<byte>, items: seq<Item>, raw: seq<byte>)
    requires Sayable(kind, tid, items) && raw == MessageOctets(kind, tid, items)
    ensures AnyUnknown(Attributes(raw, 20)) <==> exists i :: 0 <= i < |items| && Strange(items[i])
  {
    MessageReads(kind, tid, items, [], raw);
    ListedKinds(items, 20);
    var found := Listed(items, 20);
    forall i | 0 <= i < |items| ensures Unknown(found[i]) <==> Strange(items[i]) {
    }
    if AnyUnknown(found) {
      var i :| 0 <= i < |found| && Unknown(found[i]);
      assert Strange(items[i]);
    }
    if i :| 0 <= i < |items| && Strange(items[i]) { assert Unknown(found[i]); }
  }

  /** A claim counts only with a 64-bit tiebreaker, and controlled is looked for first. */
  ghost predicate Claims(items: seq<Item>, role: Option<Role>) {
    exists controlled, controlling ::
      && FirstValue(items, 0x8029, controlled) && FirstValue(items, 0x802A, controlling)
      && role == if controlled.Some? then (if |controlled.value| == 8 then Some(Controlled) else None)
                 else if controlling.Some? && |controlling.value| == 8 then Some(Controlling)
                 else None
  }

  lemma RoleIs(kind: nat, tid: seq<byte>, items: seq<Item>, raw: seq<byte>)
    requires Sayable(kind, tid, items) && raw == MessageOctets(kind, tid, items)
    ensures Claims(items, RoleOf(Message(raw, kind, tid)))
  {
    ValueIs(kind, tid, items, raw, 0x8029);
    ValueIs(kind, tid, items, raw, 0x802A);
    var m := Message(raw, kind, tid);
    assert FirstValue(items, 0x8029, ValueOf(m, 0x8029)) && FirstValue(items, 0x802A, ValueOf(m, 0x802A));
  }

  /** What is read from a request: user name, integrity, strange items, role and nomination. */
  lemma RequestSays(l: Local, kind: nat, tid: seq<byte>, items: seq<Item>, raw: seq<byte>, q: Request)
    requires Sayable(kind, tid, items) && raw == MessageOctets(kind, tid, items) && q == RequestOf(l, Message(raw, kind, tid))
    ensures exists name :: FirstValue(items, 0x0006, name)
              && q.username == if name.Some? && l.utf8(name.value) then name else None
    ensures q.hasIntegrity <==> !NoItem(items, 0x0008)
    ensures q.verifies <==> exists i :: FirstItem(items, i, 0x0008) && Covers(l.checks, l.pwd, kind, tid, items, i)
    ensures q.unknownRequired <==> exists i :: 0 <= i < |items| && Strange(items[i])
    ensures Claims(items, q.role)
    ensures q.useCandidate <==> !NoItem(items, 0x0025)
  {
    ValueIs(kind, tid, items, raw, 0x0006);
    ValueIs(kind, tid, items, raw, 0x0008);
    ValueIs(kind, tid, items, raw, 0x0025);
    assert FirstValue(items, 0x0006, ValueOf(Message(raw, kind, tid), 0x0006));
    IntegrityIff(l.checks, l.pwd, kind, tid, items, raw);
    UnknownIff(kind, tid, items, raw);
    RoleIs(kind, tid, items, raw);
  }

  // ── Datagrams ─────────────────────────────────────────────────────────

  lemma TypeParts(kind: nat)
    requires kind < 0x4000
    ensures kind == kind % 16 + kind / 16 % 2 * 16 + kind / 32 % 8 * 32 + kind / 256 % 2 * 256 + kind / 512 % 32 * 512
  {
    var a := kind / 16;
    var b := a / 2;
    var c := b / 8;
    var d := c / 2;
    assert b == kind / 32 && c == kind / 256 && d == kind / 512;
    assert kind == 16 * a + kind % 16 && a == 2 * b + a % 2 && b == 8 * c + b % 8 && c == 2 * d + c % 2;
  }

  /** Of all types only 0x0001 is a Binding request and only 0x0011 a Binding indication. */
  lemma TypesAre(kind: nat)
    requires kind < 0x4000
    ensures MethodOf(kind) == 1 && ClassOf(kind) == RequestClass <==> kind == 0x0001
    ensures MethodOf(kind) == 1 && ClassOf(kind) == IndicationClass <==> kind == 0x0011
  {
    TypeParts(kind);
  }

  /** The type of a method and class: the class bits stand between the method's. */
  function TypeOf(number: nat, c: Class): nat
    requires number < 0x1000
  {
    number % 16 + number / 16 % 8 * 32 + number / 128 * 512
    + match c
      case RequestClass => 0
      case IndicationClass => 0x0010
      case SuccessClass => 0x0100
      case ErrorClass => 0x0110
  }

  lemma MethodParts(number: nat)
    requires number < 0x1000
    ensures number == number % 16 + number / 16 % 8 * 16 + number / 128 * 128 && number / 128 < 32
  {
    var a := number / 16;
    assert a / 8 == number / 128 && a == 8 * (a / 8) + a % 8 && number == 16 * a + number % 16;
  }

  lemma PartsRead(a: nat, c0: nat, b: nat, c1: nat, d: nat)
    requires a < 16 && c0 < 2 && b < 8 && c1 < 2 && d < 32
    ensures var kind := a + 16 * c0 + 32 * b + 256 * c1 + 512 * d;
            && kind % 16 == a && kind / 16 % 2 == c0 && kind / 32 % 8 == b && kind / 256 % 2 == c1 && kind / 512 % 32 == d
  {
    var kind := a + 16 * c0 + 32 * b + 256 * c1 + 512 * d;
    assert kind / 16 == c0 + 2 * b + 16 * c1 + 32 * d;
    assert kind / 32 == b + 8 * c1 + 16 * d;
    assert kind / 256 == c1 + 2 * d;
    assert kind / 512 == d;
  }

  /** Method and class are read from every type as they were put in. */
  lemma TypeReads(number: nat, c: Class)
    requires number < 0x1000
    ensures TypeOf(number, c) < 0x4000
    ensures MethodOf(TypeOf(number, c)) == number && ClassOf(TypeOf(number, c)) == c
  {
    MethodParts(number);
    match c {
      case RequestClass => PartsRead(number % 16, 0, number / 16 % 8, 0, number / 128);
      case IndicationClass => PartsRead(number % 16, 1, number / 16 % 8, 0, number / 128);
      case SuccessClass => PartsRead(number % 16, 0, number / 16 % 8, 1, number / 128);
      case ErrorClass => PartsRead(number % 16, 1, number / 16 % 8, 1, number / 128);
    }
  }

  /** Nothing or a fingerprint in order. */
  ghost predicate PrintInOrder(c: Checks, kind: nat, tid: seq<byte>, items: seq<Item>)
    requires Sayable(kind, tid, items)
  {
    NoItem(items, 0x8028) || exists i :: FirstItem(items, i, 0x8028) && i == |items| - 1 && Prints(c, kind, tid, items, i)
  }

  lemma MessageSays(l: Local, a: Agent, m: Message, remote: Addr, now: nat)
    requires m.kind < 0x4000
    ensures OnMessage(l, a, m, remote, now) ==
            if m.kind == 0x0001 then
              var h := OnRequest(a, RequestOf(l, m), remote, now);
              Outcome(h.agent, Some(h.reply), h.nominated)
            else if m.kind == 0x0011 then Outcome(OnIndication(a, remote, now), None, None)
            else Outcome(a, None, None)
  {
    TypesAre(m.kind);
  }

  /** Does this look like STUN rather than DTLS, RTP or RTCP? */
  predicate LooksLikeStun(d: seq<byte>) {
    |d| >= 20 && d[0] <= 3 && d[4..8] == [0x21, 0x12, 0xA4, 0x42]
  }

  lemma DatagramHas(l: Local, a: Agent, d: seq<byte>, m: Message, remote: Addr, now: nat)
    requires LooksLikeStun(d) && Parse(d) == Ok(m)
    ensures OnDatagram(l, a, d, remote, now) ==
            if !FingerprintValid(l.checks, m) then Outcome(a.(malformed := a.malformed + 1), None, None)
            else OnMessage(l, a, m, remote, now)
  {
  }

  /**
   * A message and what follows it, as the agent takes it: malformed when its
   * fingerprint is not in order, else a request or an indication by its type, and
   * nothing to the agent if it is of any other.
   */
  lemma DatagramSays(l: Local, a: Agent, kind: nat, tid: seq<byte>, items: seq<Item>, d: seq<byte>, m: Message,
                     remote: Addr, now: nat, o: Outcome)
    requires Sayable(kind, tid, items) && kind < 0x400 && m == Message(MessageOctets(kind, tid, items), kind, tid)
    requires m.raw <= d && o == OnDatagram(l, a, d, remote, now)
    ensures !PrintInOrder(l.checks, kind, tid, items) ==> o == Outcome(a.(malformed := a.malformed + 1), None, None)
    ensures PrintInOrder(l.checks, kind, tid, items) && kind == 0x0001 ==>
              var h := OnRequest(a, RequestOf(l, m), remote, now);
              o == Outcome(h.agent, Some(h.reply), h.nominated)
    ensures PrintInOrder(l.checks, kind, tid, items) && kind == 0x0011 ==> o == Outcome(OnIndication(a, remote, now), None, None)
    ensures PrintInOrder(l.checks, kind, tid, items) && kind != 0x0001 && kind != 0x0011 ==> o == Outcome(a, None, None)
  {
    StartsWith(kind, tid, items, d, m);
    FingerprintIff(l.checks, kind, tid, items, m.raw);
    DatagramHas(l, a, d, m, remote, now);
    MessageSays(l, a, m, remote, now);
  }

  lemma StartsWith(kind: nat, tid: seq<byte>, items: seq<Item>, d: seq<byte>, m: Message)
    requires Sayable(kind, tid, items) && kind < 0x400 && m == Message(MessageOctets(kind, tid, items), kind, tid) && m.raw <= d
    ensures LooksLikeStun(d) && Parse(d) == Ok(m)
  {
    var rest := d[|m.raw|..];
    assert d == m.raw + rest;
    MessageReads(kind, tid, items, rest, m.raw);
    HeadCut(kind, |ItemsOctets(items)|, tid, ItemsOctets(items) + rest, d);
  }

  /** Any other datagram is only counted: as no STUN, or as malformed. */
  lemma OthersAreCounted(l: Local, a: Agent, d: seq<byte>, remote: Addr, now: nat)
    ensures !LooksLikeStun(d) ==> OnDatagram(l, a, d, remote, now) == Outcome(a.(nonStun := a.nonStun + 1), None, None)
    ensures LooksLikeStun(d) && !(exists kind, tid, items :: Sayable(kind, tid, items) && MessageOctets(kind, tid, items) <= d) ==>
              OnDatagram(l, a, d, remote, now) == Outcome(a.(malformed := a.malformed + 1), None, None)
  {
    ParsesIff(d);
  }

  // ── The response ──────────────────────────────────────────────────────

  lemma OnlyFirst(items: seq<Item>, i: int, j: int, kind: u16)
    requires FirstItem(items, i, kind) && FirstItem(items, j, kind)
    ensures i == j
  {
  }

  /** The attributes of a success response, each checksum over what stands before it. */
  lemma ResponseIs(c: Checks, key: seq<byte>, tid: Tid, mapped: Value, software: Value, all: seq<Attr>, items: seq<Item>)
    requires var plain := [Attr(XOR_MAPPED_ADDRESS, mapped), Attr(SOFTWARE, software)];
             var signed := plain + [Integrity(c, key, BINDING_SUCCESS, tid, plain)];
             all == signed + [Fingerprint(c, BINDING_SUCCESS, tid, signed)]
    requires |Body(all)| <= 0xFFFF && items == AllWritten(all)
    ensures Sayable(0x0101, tid, items) && Wire(BINDING_SUCCESS, tid, all) == MessageOctets(0x0101, tid, items)
    ensures |items| == 4 && items[0].kind == 0x0020 && items[0].value == mapped
    ensures items[1].kind == 0x8022 && items[1].value == software
    ensures items[2].kind == 0x0008 && Covers(c, key, 0x0101, tid, items, 2)
    ensures items[3].kind == 0x8028 && Prints(c, 0x0101, tid, items, 3)
  {
    var plain := [Attr(XOR_MAPPED_ADDRESS, mapped), Attr(SOFTWARE, software)];
    var signed := plain + [Integrity(c, key, BINDING_SUCCESS, tid, plain)];
    var raw := Wire(BINDING_SUCCESS, tid, all);
    WireIs(BINDING_SUCCESS, tid, all);
    IntegrityVerifies(c, key, BINDING_SUCCESS, tid, all, plain, [all[3]]);
    FingerprintVerifies(c, BINDING_SUCCESS, tid, all, signed);
    assert FirstItem(items, 2, 0x0008) && FirstItem(items, 3, 0x8028);
    IntegrityAt(c, key, 0x0101, tid, items, 2, raw);
    FingerprintAt(c, 0x0101, tid, items, 3, raw);
  }
}
