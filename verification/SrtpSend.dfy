/**
 * The sending side of SRTP: one protect context, any mix of SSRCs, RTP and
 * RTCP. The main result is that no run of it spends an IV twice.
 */
module SrtpSend {
  import opened Wrappers
  import opened Bytes
  import opened Buffers
  import opened IndexWindows
  import opened SrtpPacket
  import opened SrtpStreams

  /** A packet and its protected form, the cipher it used, and the IV it spent. */
  datatype Emission =
    Emission(rtcp: bool, ssrc: u32, index: nat, iv: seq<byte>, packet: seq<byte>, wire: seq<byte>)

  /** A call: the packet and the size of the buffer it lies in. */
  datatype Call = Rtp(packet: seq<byte>, capacity: nat) | Rtcp(packet: seq<byte>, capacity: nat)

  function AdmitRtp(k: Keys, packet: seq<byte>, capacity: nat): (r: Result<Header, Error>)
    ensures r.Ok? ==> r == RtpHeader(packet)
  {
    if capacity < |packet| + TagLen(k.profile) then Err(BufferTooSmall) else RtpHeader(packet)
  }

  function AdmitRtcp(k: Keys, packet: seq<byte>, capacity: nat): (r: Result<u32, Error>)
    ensures r.Ok? ==> |packet| >= SRTCP_HEADER_LEN && r.value == RtcpSsrc(packet)
  {
    if capacity < |packet| + 4 + TagLen(k.profile) then Err(BufferTooSmall)
    else if |packet| < SRTCP_HEADER_LEN then Err(TooShort)
    else if packet[0] / 64 != 2 then Err(Malformed)
    else Ok(RtcpSsrc(packet))
  }

  function SendRtp(k: Keys, t: Table, packet: seq<byte>, capacity: nat): (r: (Table, Result<Emission, Error>))
    requires IdealKeys(k) && IndicesInRange(t)
  {
      match AdmitRtp(k, packet, capacity)
      case Err(e) => (t, Err(e))
      case Ok(h) =>
        match Reserve(t, h)
        case Err(e) => (t, Err(e))
        case Ok(index) =>
          var s := Lookup(t, h.ssrc);
          (t[h.ssrc := s.(rtp := s.rtp.Record(index))],
           Ok(Emission(false, h.ssrc, index, RtpIvOf(k.profile, k.rtp.salt, h.ssrc, index), packet,
                       ProtectRtp(k.profile, k.rtp, packet, h, index))))
  }

  /** The index an outgoing RTP packet takes, unless it would be spent twice. */
  function Reserve(t: Table, h: Header): (r: Result<nat, Error>)
    requires IndicesInRange(t)
    ensures r.Ok? ==> r.value < INDEX_SPACE && HasRoom(t, h.ssrc) && Lookup(t, h.ssrc).rtp.Check(r.value)
  {
    if !HasRoom(t, h.ssrc) then Err(TooManyStreams)
    else
      var s := Lookup(t, h.ssrc);
      SendIndexInRange(s.rtp, h.seqNo);
      match s.rtp.SendIndex(h.seqNo)
      case None => Err(IndexExhausted)
      case Some(index) => if s.rtp.Check(index) then Ok(index) else Err(IndexReuse)
  }

  function SendRtcp(k: Keys, t: Table, packet: seq<byte>, capacity: nat): (r: (Table, Result<Emission, Error>))
    requires IdealKeys(k) && IndicesInRange(t)
  {
    match AdmitRtcp(k, packet, capacity)
    case Err(e) => (t, Err(e))
    case Ok(ssrc) =>
      var s := Lookup(t, ssrc);
      match ReserveRtcp(t, ssrc)
      case Err(e) => (t, Err(e))
      case Ok(index) =>
        (t[ssrc := s.(rtcpNext := index + 1)],
         Ok(Emission(true, ssrc, index, RtcpIvOf(k.profile, k.rtcp.salt, ssrc, index), packet,
                     ProtectRtcp(k.profile, k.rtcp, packet, index, true))))
  }

  /** The next SRTCP index of an SSRC, while its 31-bit space lasts. */
  function ReserveRtcp(t: Table, ssrc: u32): (r: Result<nat, Error>)
    requires IndicesInRange(t)
    ensures r.Ok? ==> r.value < E_BIT && r.value == Lookup(t, ssrc).rtcpNext
  {
    if !HasRoom(t, ssrc) then Err(TooManyStreams)
    else if Lookup(t, ssrc).rtcpNext == E_BIT then Err(IndexExhausted)
    else Ok(Lookup(t, ssrc).rtcpNext)
  }

  function Step(k: Keys, t: Table, call: Call): (Table, Result<Emission, Error>)
    requires IdealKeys(k) && IndicesInRange(t)
  {
    match call
    case Rtp(packet, capacity) => SendRtp(k, t, packet, capacity)
    case Rtcp(packet, capacity) => SendRtcp(k, t, packet, capacity)
  }

  /** Indices stay in 48 and 31 bits; entries lie under their own SSRC. */
  ghost predicate IndicesInRange(t: Table) {
    forall x :: x in t ==> StreamInRange(t[x]) && t[x].ssrc == x
  }

  ghost predicate StreamInRange(s: Stream) {
    && (s.rtp.highest.Some? ==> s.rtp.highest.value < INDEX_SPACE)
    && s.rtcpNext <= E_BIT
  }

  lemma SendIndexInRange(w: Window, seqNo: u16)
    requires w.highest.Some? ==> w.highest.value < INDEX_SPACE
    ensures w.SendIndex(seqNo).Some? ==> w.SendIndex(seqNo).value < INDEX_SPACE
  {
    if w.highest.Some? { SendIndexExhausted(w, seqNo); }
  }

  lemma StepInRange(k: Keys, t: Table, call: Call)
    requires IdealKeys(k) && IndicesInRange(t)
    ensures IndicesInRange(Step(k, t, call).0)
  {
    var packet := call.packet;
    if call.Rtp? && RtpHeader(packet).Ok? {
      var h := RtpHeader(packet).value;
      SendIndexInRange(Lookup(t, h.ssrc).rtp, h.seqNo);
    }
  }

  /** What a sequence of calls on a new context leaves behind and puts on the wire. */
  function Run(k: Keys, calls: seq<Call>): (r: (Table, seq<Emission>))
    requires IdealKeys(k)
    ensures IndicesInRange(r.0)
  {
    if calls == [] then (map[], [])
    else
      var (t, es) := Run(k, calls[..|calls| - 1]);
      var call := calls[|calls| - 1];
      StepInRange(k, t, call);
      var (t', r) := Step(k, t, call);
      (t', if r.Ok? then es + [r.value] else es)
  }

  // ------------------------------------------------------------------------
  // No IV is spent twice
  // ------------------------------------------------------------------------

  /** The RTP indices spent on one SSRC. */
  ghost function Spent(es: seq<Emission>, ssrc: u32): set<nat> {
    set i | 0 <= i < |es| && !es[i].rtcp && es[i].ssrc == ssrc :: es[i].index
  }

  /** The table remembers every index spent, and no index was spent twice. */
  ghost predicate Remembers(k: Keys, t: Table, es: seq<Emission>)
    requires IdealKeys(k)
  {
    && (forall x: u32 :: Represents(Lookup(t, x).rtp, Spent(es, x)))
    && (forall i :: 0 <= i < |es| ==> IvIsProper(k, es[i]))
    && (forall i :: 0 <= i < |es| && es[i].rtcp ==> es[i].index < Lookup(t, es[i].ssrc).rtcpNext)
    && (forall i, j :: 0 <= i < j < |es| && es[i].rtcp == es[j].rtcp ==>
          es[i].ssrc != es[j].ssrc || es[i].index != es[j].index)
  }

  ghost predicate IvIsProper(k: Keys, e: Emission)
    requires IdealKeys(k)
  {
    if e.rtcp then e.index < E_BIT && e.iv == RtcpIvOf(k.profile, k.rtcp.salt, e.ssrc, e.index)
    else e.index < INDEX_SPACE && e.iv == RtpIvOf(k.profile, k.rtp.salt, e.ssrc, e.index)
  }

  lemma SpentOneMore(es: seq<Emission>, e: Emission, x: u32)
    ensures Spent(es + [e], x) == Spent(es, x) + (if !e.rtcp && e.ssrc == x then {e.index} else {})
  {
    var es' := es + [e];
    assert es'[|es|] == e;
    forall n | n in Spent(es, x)
      ensures n in Spent(es', x)
    {
      var i :| 0 <= i < |es| && !es[i].rtcp && es[i].ssrc == x && es[i].index == n;
      assert es'[i] == es[i];
    }
  }

  /** What a successful call takes: an unspent index, which the table then remembers. */
  ghost predicate Takes(k: Keys, t: Table, t': Table, e: Emission)
    requires IdealKeys(k)
  {
    var s := Lookup(t, e.ssrc);
    && IvIsProper(k, e)
    && (forall x: u32 :: x != e.ssrc ==> Lookup(t', x) == Lookup(t, x))
    && (!e.rtcp ==> s.rtp.Check(e.index) && Lookup(t', e.ssrc) == s.(rtp := s.rtp.Record(e.index)))
    && (e.rtcp ==> e.index == s.rtcpNext && Lookup(t', e.ssrc) == s.(rtcpNext := e.index + 1))
  }

  lemma StepTakes(k: Keys, t: Table, call: Call)
    requires IdealKeys(k) && IndicesInRange(t)
    requires Step(k, t, call).1.Ok?
    ensures Takes(k, t, Step(k, t, call).0, Step(k, t, call).1.value)
  {
    if call.Rtp? {
      var h := RtpHeader(call.packet).value;
      SendIndexInRange(Lookup(t, h.ssrc).rtp, h.seqNo);
    }
  }

  lemma TakenIsNew(k: Keys, t: Table, t': Table, es: seq<Emission>, e: Emission, i: nat)
    requires IdealKeys(k) && Remembers(k, t, es) && Takes(k, t, t', e)
    requires i < |es| && es[i].rtcp == e.rtcp && es[i].ssrc == e.ssrc
    ensures es[i].index != e.index
  {
    if !e.rtcp {
      CheckMeansNew(Lookup(t, e.ssrc).rtp, Spent(es, e.ssrc), e.index);
      assert es[i].index in Spent(es, e.ssrc);
    }
  }

  lemma TakenIsRecorded(k: Keys, t: Table, t': Table, es: seq<Emission>, e: Emission, x: u32)
    requires IdealKeys(k) && Remembers(k, t, es) && Takes(k, t, t', e)
    ensures Represents(Lookup(t', x).rtp, Spent(es + [e], x))
  {
    SpentOneMore(es, e, x);
    assert Represents(Lookup(t, x).rtp, Spent(es, x));
    if x == e.ssrc && !e.rtcp {
      RecordRepresents(Lookup(t, x).rtp, Spent(es, x), e.index);
    } else {
      assert Lookup(t', x).rtp == Lookup(t, x).rtp;
      assert Spent(es + [e], x) == Spent(es, x);
    }
  }

  lemma OneMoreRemembers(k: Keys, t: Table, t': Table, es: seq<Emission>, e: Emission)
    requires IdealKeys(k) && Remembers(k, t, es) && Takes(k, t, t', e)
    ensures Remembers(k, t', es + [e])
  {
    forall x: u32
      ensures Represents(Lookup(t', x).rtp, Spent(es + [e], x))
    {
      TakenIsRecorded(k, t, t', es, e, x);
    }
    forall i | 0 <= i < |es| && es[i].rtcp == e.rtcp && es[i].ssrc == e.ssrc
      ensures es[i].index != e.index
    {
      TakenIsNew(k, t, t', es, e, i);
    }
    assert forall i :: 0 <= i < |es| ==> (es + [e])[i] == es[i];
  }

  lemma {:induction false} RunRemembers(k: Keys, calls: seq<Call>)
    requires IdealKeys(k)
    ensures Remembers(k, Run(k, calls).0, Run(k, calls).1)
  {
    if calls == [] {
      assert forall x: u32 :: Spent([], x) == {};
    } else {
      var front, call := calls[..|calls| - 1], calls[|calls| - 1];
      RunRemembers(k, front);
      var (t, es) := Run(k, front);
      var (t', r) := Step(k, t, call);
      if r.Ok? {
        StepTakes(k, t, call);
        OneMoreRemembers(k, t, t', es, r.value);
      }
    }
  }

  /** Over any run, the IVs spent under one session key are pairwise distinct. */
  lemma NoIvReuse(k: Keys, calls: seq<Call>, i: nat, j: nat)
    requires IdealKeys(k)
    requires i < j < |Run(k, calls).1|
    requires Run(k, calls).1[i].rtcp == Run(k, calls).1[j].rtcp
    ensures Run(k, calls).1[i].iv != Run(k, calls).1[j].iv
  {
    RunRemembers(k, calls);
    var a, b := Run(k, calls).1[i], Run(k, calls).1[j];
    assert IvIsProper(k, a) && IvIsProper(k, b);
    if a.iv == b.iv {
      match k.profile
      case Gcm =>
        if a.rtcp { RtcpIvInjective(k.rtcp.salt, a.ssrc, a.index, b.ssrc, b.index); }
        else { RtpIvInjective(k.rtp.salt, a.ssrc, a.index, b.ssrc, b.index); }
      case Cm =>
        if a.rtcp { CmRtcpIvInjective(k.rtcp.salt, a.ssrc, a.index, b.ssrc, b.index); }
        else { CmRtpIvInjective(k.rtp.salt, a.ssrc, a.index, b.ssrc, b.index); }
    }
  }

  /** Under AES-CM even the AES input blocks differ, for packets of at most 2^16 blocks. */
  lemma NoKeystreamReuse(k: Keys, calls: seq<Call>, i: nat, j: nat, n: nat, m: nat)
    requires IdealKeys(k) && k.profile == Cm
    requires i < j < |Run(k, calls).1|
    requires Run(k, calls).1[i].rtcp == Run(k, calls).1[j].rtcp
    requires n <= 0x1_0000 && m <= 0x1_0000
    ensures CounterBlocks(Run(k, calls).1[i].iv, n) !! CounterBlocks(Run(k, calls).1[j].iv, m)
  {
    RunRemembers(k, calls);
    var a, b := Run(k, calls).1[i], Run(k, calls).1[j];
    assert IvIsProper(k, a) && IvIsProper(k, b);
    var p, q := a.iv[..14], b.iv[..14];
    assert a.iv == p + [0, 0] && b.iv == q + [0, 0];
    if p == q {
      if a.rtcp { CmRtcpIvInjective(k.rtcp.salt, a.ssrc, a.index, b.ssrc, b.index); }
      else { CmRtpIvInjective(k.rtp.salt, a.ssrc, a.index, b.ssrc, b.index); }
    }
    CounterBlocksDisjoint(p, q, n, m);
  }

  // ------------------------------------------------------------------------
  // The context
  // ------------------------------------------------------------------------

  class Sender {
    const keys: Keys
    const streams: Streams

    constructor (keys: Keys)
      requires IdealKeys(keys)
      ensures Valid() && this.keys == keys && streams.Table() == map[] && fresh(streams)
    {
      this.keys := keys;
      streams := new Streams();
    }

    ghost predicate Valid()
      reads this, streams
    {
      IdealKeys(keys) && streams.Valid() && IndicesInRange(streams.Table())
    }

    /** Protects the RTP packet in `buf[..len]` in place, appending its tag. */
    method EncryptRtp(buf: array<byte>, len: nat) returns (r: Result<nat, Error>)
      requires Valid()
      modifies buf, streams
      ensures Valid()
      ensures len > buf.Length ==>
                r == Err(BufferTooSmall) && streams.Table() == old(streams.Table()) && buf[..] == old(buf[..])
      ensures len <= buf.Length ==>
              var (t, e) := SendRtp(keys, old(streams.Table()), old(buf[..len]), buf.Length);
              && streams.Table() == t
              && r == (if e.Ok? then Ok(len + TagLen(keys.profile)) else Err(e.error))
              && (e.Ok? ==> buf[..len + TagLen(keys.profile)] == e.value.wire)
              && (e.Err? ==> buf[..] == old(buf[..]))
    {
      if len > buf.Length {
        return Err(BufferTooSmall);
      }
      ghost var t := streams.Table();
      var packet := buf[..len];
      var admitted := AdmitRtp(keys, packet, buf.Length);
      if admitted.Err? {
        return Err(admitted.error);
      }
      var h := admitted.value;
      var slot, reserved := ReserveIndex(h);
      if reserved.Err? {
        return Err(reserved.error);
      }
      var s := streams.slots[slot].value;
      Commit(buf, ProtectRtp(keys.profile, keys.rtp, packet, h, reserved.value),
             slot, s.(rtp := s.rtp.Record(reserved.value)));
      StepInRange(keys, t, Call.Rtp(packet, buf.Length));
      r := Ok(len + TagLen(keys.profile));
    }

    /** Protects the RTCP packet in `buf[..len]` in place, appending tag and index word. */
    method EncryptRtcp(buf: array<byte>, len: nat) returns (r: Result<nat, Error>)
      requires Valid()
      modifies buf, streams
      ensures Valid()
      ensures len > buf.Length ==>
                r == Err(BufferTooSmall) && streams.Table() == old(streams.Table()) && buf[..] == old(buf[..])
      ensures len <= buf.Length ==>
              var (t, e) := SendRtcp(keys, old(streams.Table()), old(buf[..len]), buf.Length);
              && streams.Table() == t
              && r == (if e.Ok? then Ok(len + 4 + TagLen(keys.profile)) else Err(e.error))
              && (e.Ok? ==> buf[..len + 4 + TagLen(keys.profile)] == e.value.wire)
              && (e.Err? ==> buf[..] == old(buf[..]))
    {
      if len > buf.Length {
        return Err(BufferTooSmall);
      }
      ghost var t := streams.Table();
      var packet := buf[..len];
      var slot, reserved := PrepareRtcp(packet, buf.Length);
      if reserved.Err? {
        return Err(reserved.error);
      }
      var s := streams.slots[slot].value;
      Commit(buf, ProtectRtcp(keys.profile, keys.rtcp, packet, reserved.value, true),
             slot, s.(rtcpNext := reserved.value + 1));
      StepInRange(keys, t, Call.Rtcp(packet, buf.Length));
      r := Ok(len + 4 + TagLen(keys.profile));
    }

    /** Finds or inserts the stream of an outgoing RTP packet and checks the index it would take. */
    method ReserveIndex(h: Header) returns (slot: nat, r: Result<nat, Error>)
      requires Valid()
      modifies streams
      ensures streams.Valid() && r == Reserve(old(streams.Table()), h)
      ensures r.Err? ==> streams.Table() == old(streams.Table())
      ensures r.Ok? ==> Found(streams.slots, slot, old(streams.Table()), h.ssrc)
    {
      ghost var t := streams.Table();
      var found := streams.GetMutOrInsert(h.ssrc);
      if found.None? {
        return 0, Err(TooManyStreams);
      }
      slot := found.value;
      var s := streams.slots[slot].value;
      var index := s.rtp.SendIndex(h.seqNo);
      if index.None? {
        assert streams.Table() == t;
        return slot, Err(IndexExhausted);
      }
      if !s.rtp.Check(index.value) {
        assert streams.Table() == t;
        return slot, Err(IndexReuse);
      }
      r := Ok(index.value);
    }

    method ReserveRtcpIndex(ssrc: u32) returns (slot: nat, r: Result<nat, Error>)
      requires Valid()
      modifies streams
      ensures streams.Valid() && r == ReserveRtcp(old(streams.Table()), ssrc)
      ensures r.Err? ==> streams.Table() == old(streams.Table())
      ensures r.Ok? ==> Found(streams.slots, slot, old(streams.Table()), ssrc)
    {
      ghost var t := streams.Table();
      var found := streams.GetMutOrInsert(ssrc);
      if found.None? {
        return 0, Err(TooManyStreams);
      }
      slot := found.value;
      var s := streams.slots[slot].value;
      if s.rtcpNext == E_BIT {
        assert streams.Table() == t;
        return slot, Err(IndexExhausted);
      }
      r := Ok(s.rtcpNext);
    }

    /** Checks a control packet and reserves its index, or says what sending it gives. */
    method PrepareRtcp(packet: seq<byte>, capacity: nat) returns (slot: nat, r: Result<nat, Error>)
      requires Valid()
      modifies streams
      ensures streams.Valid()
      ensures var t := old(streams.Table());
              match r
              case Err(e) => streams.Table() == t && SendRtcp(keys, t, packet, capacity) == (t, Err(e))
              case Ok(index) =>
                && AdmitRtcp(keys, packet, capacity).Ok?
                && var ssrc := RtcpSsrc(packet);
                   ReserveRtcp(t, ssrc) == r && Found(streams.slots, slot, t, ssrc)
    {
      var admitted := AdmitRtcp(keys, packet, capacity);
      if admitted.Err? {
        return 0, Err(admitted.error);
      }
      slot, r := ReserveRtcpIndex(admitted.value);
    }

    /** Writes the protected packet and the new stream state. */
    method Commit(buf: array<byte>, wire: seq<byte>, slot: nat, s: Stream)
      requires streams.Valid() && |wire| <= buf.Length && Holds(streams.slots, slot, s.ssrc)
      modifies buf, streams
      ensures buf[..|wire|] == wire
      ensures streams.Valid() && streams.Table() == old(streams.Table())[s.ssrc := s]
    {
      Write(buf, 0, wire);
      streams.Store(slot, s);
    }
  }

  /** The slot found for an SSRC in a table that held `t` before. */
  ghost predicate Found(slots: Slots, slot: nat, t: Table, ssrc: u32) {
    && Holds(slots, slot, ssrc)
    && slots[slot].value == Lookup(t, ssrc)
    && Contents(slots) == t[ssrc := Lookup(t, ssrc)]
  }
}
