/**
 * From datagrams to the agent: which datagrams are answered, what a request
 * carries, and that a check built by a peer who knows the password succeeds.
 */
module IceDatagrams {
  import opened Bytes
  import opened IceAgents
  import opened IceTable
  import opened StunMessages
  import opened StunParser
  import opened Wrappers

  const BINDING_REQUEST: u16 := 0x0001
  const METHOD_BINDING := 1
  const MAPPED_ADDRESS: u16 := 0x0001
  const USERNAME: u16 := 0x0006
  const ERROR_CODE: u16 := 0x0009
  const UNKNOWN_ATTRIBUTES: u16 := 0x000A
  const REALM: u16 := 0x0014
  const NONCE: u16 := 0x0015
  const PRIORITY: u16 := 0x0024
  const USE_CANDIDATE: u16 := 0x0025
  const ICE_CONTROLLED: u16 := 0x8029
  const ICE_CONTROLLING: u16 := 0x802A

  const KNOWN: set<u16> :=
    {MAPPED_ADDRESS, USERNAME, MESSAGE_INTEGRITY, ERROR_CODE, UNKNOWN_ATTRIBUTES, REALM, NONCE, XOR_MAPPED_ADDRESS,
     PRIORITY, USE_CANDIDATE, SOFTWARE, FINGERPRINT, ICE_CONTROLLED, ICE_CONTROLLING}

  datatype Class = RequestClass | IndicationClass | SuccessClass | ErrorClass

  /** The method number, whose bits lie around the two class bits of the type field. */
  function MethodOf(kind: u16): nat {
    kind % 16 + kind / 32 % 8 * 16 + kind / 512 % 32 * 128
  }

  function ClassOf(kind: u16): Class {
    if kind / 256 % 2 == 0 then if kind / 16 % 2 == 0 then RequestClass else IndicationClass
    else if kind / 16 % 2 == 0 then SuccessClass else ErrorClass
  }

  /** Told from DTLS, RTP and RTCP by its first octet and the cookie. */
  predicate IsStun(b: seq<byte>) {
    |b| >= HEADER_LEN && b[0] <= 3 && b[4..8] == COOKIE
  }

  /** An attribute that must be understood and is not. */
  predicate Unknown(f: Found) {
    f.kind < 0x8000 && f.kind !in KNOWN
  }

  function ValueOf(m: Message, kind: u16): Option<seq<byte>> {
    var a := Get(m, kind);
    if a.Some? then Some(a.value.value) else None
  }

  /** The controlled claim wins if both are there; a claim without a 64-bit tiebreaker is none. */
  function RoleOf(m: Message): Option<Role> {
    match ValueOf(m, ICE_CONTROLLED)
    case Some(v) => if |v| == 8 then Some(Controlled) else None
    case None =>
      match ValueOf(m, ICE_CONTROLLING)
      case Some(v) => if |v| == 8 then Some(Controlling) else None
      case None => None
  }

  ghost predicate AnyUnknown(found: seq<Found>) {
    exists i :: 0 <= i < |found| && Unknown(found[i])
  }

  /** What is the same for every datagram: the checksums, UTF-8 validity, and the local password. */
  datatype Local = Local(checks: Checks, utf8: seq<byte> -> bool, pwd: seq<byte>)

  ghost function RequestOf(l: Local, m: Message): Request {
    var name := ValueOf(m, USERNAME);
    Request(
      if name.Some? && l.utf8(name.value) then name else None,
      Get(m, MESSAGE_INTEGRITY).Some?,
      IntegrityValid(l.checks, m, l.pwd),
      AnyUnknown(Attributes(m.raw, HEADER_LEN)),
      RoleOf(m),
      Get(m, USE_CANDIDATE).Some?)
  }

  /** What one datagram makes of the agent, the reply to send, and a nomination. */
  datatype Outcome = Outcome(agent: Agent, reply: Option<Reply>, nominated: Option<Addr>)

  ghost function OnMessage(l: Local, a: Agent, m: Message, remote: Addr, now: nat): Outcome {
    if MethodOf(m.kind) == METHOD_BINDING && ClassOf(m.kind) == RequestClass then
      var h := OnRequest(a, RequestOf(l, m), remote, now);
      Outcome(h.agent, Some(h.reply), h.nominated)
    else if MethodOf(m.kind) == METHOD_BINDING && ClassOf(m.kind) == IndicationClass then
      Outcome(OnIndication(a, remote, now), None, None)
    else
      Outcome(a, None, None)
  }

  ghost function OnDatagram(l: Local, a: Agent, datagram: seq<byte>, remote: Addr, now: nat): Outcome {
    if !IsStun(datagram) then Outcome(a.(nonStun := a.nonStun + 1), None, None)
    else
      match Parse(datagram)
      case Err(_) => Outcome(a.(malformed := a.malformed + 1), None, None)
      case Ok(m) =>
        if !FingerprintValid(l.checks, m) then Outcome(a.(malformed := a.malformed + 1), None, None)
        else OnMessage(l, a, m, remote, now)
  }

  // ── Only authenticated requests matter ────────────────────────────────

  /** The datagram is a Binding request whose integrity value is right under the local password. */
  ghost predicate ProvesPassword(l: Local, datagram: seq<byte>) {
    && Parse(datagram).Ok?
    && var m := Parse(datagram).value;
       && MethodOf(m.kind) == METHOD_BINDING && ClassOf(m.kind) == RequestClass
       && IntegrityValid(l.checks, m, l.pwd)
       && FingerprintValid(l.checks, m)
  }

  lemma TouchTracksNoOther(a: Agent, remote: Addr, now: nat, x: Addr)
    requires |a.slots| > 0 && Distinct(a.slots) && SeenBy(a.slots, now)
    requires Tracked(Touch(a.slots, remote, now), x)
    ensures Tracked(a.slots, x) || x == remote
  {
    TouchKeeps(a.slots, remote, now);
  }

  /**
   * Whatever a datagram says: an address that is newly tracked or newly selected
   * is its sender's, and only if it proved the local password, or, for tracking,
   * if the sender is the pair already selected.
   */
  lemma OnlyTheAuthenticatedEnter(l: Local, a: Agent, datagram: seq<byte>, remote: Addr, now: nat, x: Addr)
    requires |a.slots| > 0 && Distinct(a.slots) && SeenBy(a.slots, now)
    ensures var after := OnDatagram(l, a, datagram, remote, now).agent;
            && (Tracked(after.slots, x) && !Tracked(a.slots, x) ==>
                  x == remote && (ProvesPassword(l, datagram) || a.selected == Some(remote)))
            && (after.selected != a.selected ==> after.selected == Some(remote) && ProvesPassword(l, datagram))
  {
    var after := OnDatagram(l, a, datagram, remote, now).agent;
    if Tracked(after.slots, x) && !Tracked(a.slots, x) {
      if after.slots == Touch(a.slots, remote, now) { TouchTracksNoOther(a, remote, now, x); }
      if IndexOf(a.slots, remote, 0) < |a.slots| { assert Tracked(a.slots, remote); }
    }
  }

  /** A reply that signals success goes out exactly to an authenticated check from a controlling peer. */
  lemma AnsweredIff(l: Local, a: Agent, datagram: seq<byte>, remote: Addr, now: nat)
    ensures OnDatagram(l, a, datagram, remote, now).reply == Some(Success(remote)) <==>
              && IsStun(datagram) && ProvesPassword(l, datagram)
              && var q := RequestOf(l, Parse(datagram).value);
                 Authenticated(a, q) && !q.unknownRequired && q.role == Some(Controlling)
  {
    if Parse(datagram).Ok? {
      AcceptedIff(a, RequestOf(l, Parse(datagram).value), remote, now);
    }
  }

  /** The event of a run that a datagram is, if it is one the agent acts on. */
  ghost function EventOf(l: Local, datagram: seq<byte>, remote: Addr, at: nat): Option<Event> {
    if !IsStun(datagram) || Parse(datagram).Err? || !FingerprintValid(l.checks, Parse(datagram).value) then None
    else
      var m := Parse(datagram).value;
      if MethodOf(m.kind) != METHOD_BINDING then None
      else if ClassOf(m.kind) == RequestClass then Some(Requested(RequestOf(l, m), remote, at))
      else if ClassOf(m.kind) == IndicationClass then Some(Indicated(remote, at))
      else None
  }

  /** A datagram is one event of a run, with the same nomination, or changes nothing but the drop counters. */
  lemma DatagramIsStep(l: Local, s: State, datagram: seq<byte>, remote: Addr, at: nat)
    ensures var e := EventOf(l, datagram, remote, at);
            var o := OnDatagram(l, s.agent, datagram, remote, at);
            if e.Some? then
              && Step(s, e.value).agent == o.agent
              && Step(s, e.value).announced == s.announced + (if o.nominated.Some? then [o.nominated.value] else [])
            else
              && o.reply.None? && o.nominated.None?
              && o.agent == s.agent.(nonStun := o.agent.nonStun, malformed := o.agent.malformed)
              && o.agent.nonStun + o.agent.malformed <= s.agent.nonStun + s.agent.malformed + 1
  {
  }

  // ── A peer that knows the password ────────────────────────────────────

  function FirstAttr(attrs: seq<Attr>, kind: u16): Option<seq<byte>> {
    if attrs == [] then None
    else if attrs[0].kind == kind then Some(attrs[0].value)
    else FirstAttr(attrs[1..], kind)
  }

  lemma {:induction false} FirstOfPlaced(attrs: seq<Attr>, off: nat, kind: u16)
    ensures var f := FirstOf(Placed(attrs, off), kind);
            FirstAttr(attrs, kind) == if f.Some? then Some(f.value.value) else None
    decreases |attrs|
  {
    if attrs != [] {
      PlacedOne(attrs, off, off + |Encode(attrs[0])|);
      var rest := Placed(attrs[1..], off + |Encode(attrs[0])|);
      assert Placed(attrs, off)[1..] == rest;
      FirstOfPlaced(attrs[1..], off + |Encode(attrs[0])|, kind);
    }
  }

  lemma {:induction false} PlacedKinds(attrs: seq<Attr>, off: nat)
    ensures |Placed(attrs, off)| == |attrs|
    ensures forall i :: 0 <= i < |attrs| ==> Placed(attrs, off)[i].kind == attrs[i].kind
    decreases |attrs|
  {
    if attrs != [] {
      PlacedOne(attrs, off, off + |Encode(attrs[0])|);
      PlacedKinds(attrs[1..], off + |Encode(attrs[0])|);
    }
  }

  lemma {:induction false} FirstAttrOfMore(attrs: seq<Attr>, more: seq<Attr>, kind: u16)
    requires NoneOf(more, kind)
    ensures FirstAttr(attrs + more, kind) == FirstAttr(attrs, kind)
    decreases |attrs| + |more|
  {
    if attrs != [] {
      assert (attrs + more)[1..] == attrs[1..] + more;
      FirstAttrOfMore(attrs[1..], more, kind);
    } else if more != [] {
      assert attrs + more == more;
      FirstAttrOfMore([], more[1..], kind);
      assert [] + more[1..] == more[1..];
    }
  }

  /** The attributes of a connectivity check of a controlling peer that names this session. */
  ghost predicate IsCheck(l: Local, a: Agent, plain: seq<Attr>) {
    && IsPlain(plain)
    && (forall i :: 0 <= i < |plain| ==> plain[i].kind in KNOWN || plain[i].kind >= 0x8000)
    && FirstAttr(plain, USERNAME).Some?
    && l.utf8(FirstAttr(plain, USERNAME).value) && UsernameValid(a, FirstAttr(plain, USERNAME).value)
    && FirstAttr(plain, ICE_CONTROLLED).None?
    && FirstAttr(plain, ICE_CONTROLLING).Some? && |FirstAttr(plain, ICE_CONTROLLING).value| == 8
  }

  function Sealed(l: Local, tid: Tid, plain: seq<Attr>): seq<Attr> {
    var signed := plain + [Integrity(l.checks, l.pwd, BINDING_REQUEST, tid, plain)];
    signed + [Fingerprint(l.checks, BINDING_REQUEST, tid, signed)]
  }

  lemma SealedFirst(l: Local, tid: Tid, plain: seq<Attr>, m: Message, kind: u16)
    requires Attributes(m.raw, HEADER_LEN) == Placed(Sealed(l, tid, plain), HEADER_LEN)
    requires kind != MESSAGE_INTEGRITY && kind != FINGERPRINT
    ensures ValueOf(m, kind) == FirstAttr(plain, kind)
  {
    var signed := plain + [Integrity(l.checks, l.pwd, BINDING_REQUEST, tid, plain)];
    var more := [signed[|plain|], Fingerprint(l.checks, BINDING_REQUEST, tid, signed)];
    assert Sealed(l, tid, plain) == plain + more;
    FirstAttrOfMore(plain, more, kind);
    FirstOfPlaced(Sealed(l, tid, plain), HEADER_LEN, kind);
  }

  lemma NothingUnknown(l: Local, tid: Tid, plain: seq<Attr>, m: Message)
    requires Attributes(m.raw, HEADER_LEN) == Placed(Sealed(l, tid, plain), HEADER_LEN)
    requires forall i :: 0 <= i < |plain| ==> plain[i].kind in KNOWN || plain[i].kind >= 0x8000
    ensures !RequestOf(l, m).unknownRequired
  {
    var all := Sealed(l, tid, plain);
    PlacedKinds(all, HEADER_LEN);
    forall i | 0 <= i < |all| ensures !Unknown(Attributes(m.raw, HEADER_LEN)[i]) {
      if i < |plain| { assert all[i] == plain[i]; }
    }
  }

  lemma BindingRequestType()
    ensures MethodOf(BINDING_REQUEST) == METHOD_BINDING && ClassOf(BINDING_REQUEST) == RequestClass
  {
    var kind: int := 1;
    assert BINDING_REQUEST == kind;
    assert kind % 16 == 1 && kind / 16 == 0 && kind / 32 == 0 && kind / 256 == 0 && kind / 512 == 0;
  }

  lemma StartsLikeStun(tid: Tid, attrs: seq<Attr>)
    requires |Body(attrs)| <= 0xFFFF
    ensures IsStun(Wire(BINDING_REQUEST, tid, attrs))
  {
    HeadReads(BINDING_REQUEST, |Body(attrs)|, tid, Body(attrs));
  }

  /** What the agent reads from a sealed check. */
  lemma CheckIsAcceptable(l: Local, a: Agent, tid: Tid, plain: seq<Attr>, m: Message)
    requires IsCheck(l, a, plain) && IntegrityValid(l.checks, m, l.pwd)
    requires Attributes(m.raw, HEADER_LEN) == Placed(Sealed(l, tid, plain), HEADER_LEN)
    ensures var q := RequestOf(l, m);
            && q.username == FirstAttr(plain, USERNAME) && q.hasIntegrity && q.verifies
            && !q.unknownRequired && q.role == Some(Controlling)
            && q.useCandidate == FirstAttr(plain, USE_CANDIDATE).Some?
  {
    SealedFirst(l, tid, plain, m, USERNAME);
    SealedFirst(l, tid, plain, m, ICE_CONTROLLED);
    SealedFirst(l, tid, plain, m, ICE_CONTROLLING);
    SealedFirst(l, tid, plain, m, USE_CANDIDATE);
    NothingUnknown(l, tid, plain, m);
  }

  lemma RequestIsAnswered(l: Local, a: Agent, datagram: seq<byte>, m: Message, q: Request, remote: Addr, now: nat)
    requires IsStun(datagram) && Parse(datagram) == Ok(m) && FingerprintValid(l.checks, m)
    requires m.kind == BINDING_REQUEST && q == RequestOf(l, m)
    ensures var h := OnRequest(a, q, remote, now);
            OnDatagram(l, a, datagram, remote, now) == Outcome(h.agent, Some(h.reply), h.nominated)
  {
    BindingRequestType();
  }

  lemma AcceptableIsAccepted(a: Agent, q: Request, remote: Addr, now: nat)
    requires q.username.Some? && UsernameValid(a, q.username.value) && q.hasIntegrity && q.verifies
    requires !q.unknownRequired && q.role == Some(Controlling)
    ensures var h := OnRequest(a, q, remote, now);
            && h.reply == Success(remote) && h.agent.slots == Touch(a.slots, remote, now)
            && h.nominated == (if q.useCandidate && a.selected != Some(remote) then Some(remote) else None)
            && (h.nominated.Some? ==> h.agent.selected == Some(remote))
  {
  }

  /**
   * A check that a peer builds under the password, sealed with integrity value and
   * fingerprint, is answered with success to the address it came from; it nominates
   * that address exactly when it says so and the address was not yet selected.
   */
  lemma BuiltCheckSucceeds(l: Local, a: Agent, tid: Tid, plain: seq<Attr>, remote: Addr, now: nat)
    requires IsCheck(l, a, plain) && |Body(Sealed(l, tid, plain))| <= 0xFFFF
    ensures var o := OnDatagram(l, a, Wire(BINDING_REQUEST, tid, Sealed(l, tid, plain)), remote, now);
            && o.reply == Some(Success(remote))
            && o.agent.slots == Touch(a.slots, remote, now)
            && o.nominated == (if FirstAttr(plain, USE_CANDIDATE).Some? && a.selected != Some(remote) then Some(remote) else None)
            && (o.nominated.Some? ==> o.agent.selected == Some(remote))
  {
    var w := Wire(BINDING_REQUEST, tid, Sealed(l, tid, plain));
    var m := Message(w, BINDING_REQUEST, tid);
    SealedRoundTrip(l.checks, l.pwd, BINDING_REQUEST, tid, plain, []);
    assert w + [] == w;
    StartsLikeStun(tid, Sealed(l, tid, plain));
    CheckIsAcceptable(l, a, tid, plain, m);
    var q := RequestOf(l, m);
    AcceptableIsAccepted(a, q, remote, now);
    RequestIsAnswered(l, a, w, m, q, remote, now);
  }

  // ── The agent object ──────────────────────────────────────────────────

  method ReadRequest(l: Local, m: Message) returns (q: Request)
    ensures q == RequestOf(l, m)
  {
    var name := FindAttribute(m, USERNAME);
    var integrity := FindAttribute(m, MESSAGE_INTEGRITY);
    var candidate := FindAttribute(m, USE_CANDIDATE);
    var unknown := FindUnknown(m);
    assert ValueOf(m, USERNAME) == if name.Some? then Some(name.value.value) else None;
    q := Request(
      if name.Some? && l.utf8(name.value.value) then Some(name.value.value) else None,
      integrity.Some?, IntegrityValid(l.checks, m, l.pwd), unknown, RoleOf(m), candidate.Some?);
  }

  lemma AnyUnknownHead(f: Found, rest: seq<Found>)
    ensures AnyUnknown([f] + rest) <==> Unknown(f) || AnyUnknown(rest)
  {
    var all := [f] + rest;
    assert all[0] == f;
    assert forall i :: 0 <= i < |rest| ==> all[i + 1] == rest[i];
  }

  method FindUnknown(m: Message) returns (found: bool)
    ensures found <==> AnyUnknown(Attributes(m.raw, HEADER_LEN))
  {
    ghost var all := Attributes(m.raw, HEADER_LEN);
    var iter := new AttributeIter(m);
    found := false;
    var next := iter.Next();
    while next.Some?
      invariant fresh(iter)
      invariant AnyUnknown(all) <==> found || AnyUnknown((if next.Some? then [next.value] else []) + iter.Upcoming())
      invariant next.None? ==> iter.Upcoming() == []
      decreases |iter.Upcoming()| + (if next.Some? then 1 else 0)
    {
      AnyUnknownHead(next.value, iter.Upcoming());
      found := found || Unknown(next.value);
      next := iter.Next();
    }
  }

  /** Feeds one datagram into the agent. */
  method HandleDatagram(agent: IceLiteAgent, l: Local, datagram: seq<byte>, remote: Addr, now: nat)
    returns (reply: Option<Reply>, nominated: Option<Addr>)
    modifies agent, agent.pairs
    ensures Outcome(agent.Value(), reply, nominated) == OnDatagram(l, old(agent.Value()), datagram, remote, now)
  {
    reply, nominated := None, None;
    if !IsStun(datagram) {
      agent.nonStun := agent.nonStun + 1;
      return;
    }
    var parsed := ParseDatagram(datagram);
    if parsed.Err? || !FingerprintValid(l.checks, parsed.value) {
      agent.malformed := agent.malformed + 1;
      return;
    }
    var m := parsed.value;
    if MethodOf(m.kind) != METHOD_BINDING {
      return;
    }
    match ClassOf(m.kind) {
      case RequestClass =>
        var q := ReadRequest(l, m);
        var answer;
        answer, nominated := agent.OnBindingRequest(q, remote, now);
        reply := Some(answer);
      case IndicationClass => agent.OnBindingIndication(remote, now);
      case _ =>
    }
  }
}
