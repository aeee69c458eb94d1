/**
 * The receiving side of SRTP: index estimation, replay protection and
 * authentication of one unprotect context, over arbitrary deliveries of media
 * and control packets into its one stream table.
 */
module SrtpReceive {
  import opened Wrappers
  import opened Buffers
  import opened Bytes
  import opened IndexWindows
  import opened SrtpPacket
  import opened SrtpStreams

  /** Indices in range, and every entry under its own SSRC. */
  ghost predicate InRange(t: Table) {
    forall x :: x in t ==> t[x].ssrc == x && (t[x].rtp.highest.Some? ==> t[x].rtp.highest.value < INDEX_SPACE)
  }

  lemma GuessInRange(w: Window, seqNo: u16)
    ensures w.Guess(seqNo) < INDEX_SPACE
  {
  }

  /** The header of a protected RTP packet whose tag lies behind it. */
  function AdmitRtp(p: Profile, buf: seq<byte>): (r: Result<Header, Error>)
    ensures r.Ok? ==> RtpHeader(buf) == r && r.value.len <= |buf| - TagLen(p)
  {
    if |buf| < 12 + TagLen(p) then Err(TooShort)
    else
      match RtpHeader(buf)
      case Err(e) => Err(e)
      case Ok(h) => if h.len > |buf| - TagLen(p) then Err(Malformed) else Ok(h)
  }

  /** A control packet long enough for header and trailer, of version 2. */
  function AdmitRtcp(p: Profile, buf: seq<byte>): (r: Result<u32, Error>)
    ensures r.Ok? ==> |buf| >= SRTCP_HEADER_LEN + 4 + TagLen(p) && r.value == RtcpSsrc(buf)
  {
    if |buf| < SRTCP_HEADER_LEN + 4 + TagLen(p) then Err(TooShort)
    else if buf[0] / 64 != 2 then Err(Malformed)
    else Ok(RtcpSsrc(buf))
  }

  /** A packet that passed replay check and authentication, not yet recorded. */
  datatype Accepted = Accepted(ssrc: u32, index: nat, plain: seq<byte>)

  /** GCM looks for a replay before it authenticates; AES-CM authenticates first. */
  function AcceptRtp(p: Profile, c: Cipher, t: Table, buf: seq<byte>): (r: Result<Accepted, Error>)
    requires Ideal(c, p)
    ensures r.Ok? ==> |r.value.plain| <= |buf|
  {
    match AdmitRtp(p, buf)
    case Err(e) => Err(e)
    case Ok(h) =>
      var w := Lookup(t, h.ssrc).rtp;
      var index := w.Guess(h.seqNo);
      GuessInRange(w, h.seqNo);
      var plain := UnprotectRtp(p, c, buf, h, index);
      if p == Gcm && !w.Check(index) then Err(Replayed)
      else if plain.None? then Err(AuthFailed)
      else if !w.Check(index) then Err(Replayed)
      else Ok(Accepted(h.ssrc, index, plain.value))
  }

  /** One inbound RTP packet; state changes only when it is accepted and there is room. */
  function ReceiveRtp(p: Profile, c: Cipher, t: Table, buf: seq<byte>): (Table, Result<seq<byte>, Error>)
    requires Ideal(c, p)
  {
    match AcceptRtp(p, c, t, buf)
    case Err(e) => (t, Err(e))
    case Ok(a) =>
      var s := Lookup(t, a.ssrc);
      if !HasRoom(t, a.ssrc) then (t, Err(TooManyStreams))
      else (t[a.ssrc := s.(rtp := s.rtp.Record(a.index))], Ok(a.plain))
  }

  /** The same for a control packet, by the index it carries. */
  function AcceptRtcp(p: Profile, c: Cipher, t: Table, buf: seq<byte>): (r: Result<Accepted, Error>)
    requires Ideal(c, p)
    ensures r.Ok? ==> |r.value.plain| <= |buf|
  {
    match AdmitRtcp(p, buf)
    case Err(e) => Err(e)
    case Ok(ssrc) =>
      var w := Lookup(t, ssrc).rtcp;
      var index := IndexWord(p, buf) % E_BIT;
      var plain := UnprotectRtcp(p, c, buf);
      if p == Gcm && !w.Check(index) then Err(Replayed)
      else if plain.None? then Err(AuthFailed)
      else if !w.Check(index) then Err(Replayed)
      else Ok(Accepted(ssrc, index, plain.value))
  }

  /** One inbound RTCP packet. */
  function ReceiveRtcp(p: Profile, c: Cipher, t: Table, buf: seq<byte>): (Table, Result<seq<byte>, Error>)
    requires Ideal(c, p)
  {
    match AcceptRtcp(p, c, t, buf)
    case Err(e) => (t, Err(e))
    case Ok(a) =>
      var s := Lookup(t, a.ssrc);
      if !HasRoom(t, a.ssrc) then (t, Err(TooManyStreams))
      else (t[a.ssrc := s.(rtcp := s.rtcp.Record(a.index))], Ok(a.plain))
  }

  // ------------------------------------------------------------------------
  // Runs of deliveries
  // ------------------------------------------------------------------------

  /** What the network hands over: a packet the sender protected at some index, or other octets. */
  datatype Delivery =
    | Media(packet: seq<byte>, index: nat)
    | Control(packet: seq<byte>, index: nat, encrypted: bool)
    | ForgedMedia(buf: seq<byte>)
    | ForgedControl(buf: seq<byte>)
  {
    predicate Genuine() {
      Media? || Control?
    }
  }

  /** Genuine media packets carry the low 16 bits of their index; what is forged never authenticates. */
  ghost predicate Deliverable(k: Keys, d: Delivery)
    requires IdealKeys(k)
  {
    match d
    case Media(packet, index) =>
      RtpHeader(packet).Ok? && index < INDEX_SPACE && RtpHeader(packet).value.seqNo == index % SEQ_SPACE
    case Control(packet, index, _) =>
      |packet| >= SRTCP_HEADER_LEN && packet[0] / 64 == 2 && index < E_BIT
    case ForgedMedia(buf) =>
      AdmitRtp(k.profile, buf).Ok? ==>
        forall index :: 0 <= index < INDEX_SPACE ==>
          UnprotectRtp(k.profile, k.rtp, buf, AdmitRtp(k.profile, buf).value, index).None?
    case ForgedControl(buf) =>
      AdmitRtcp(k.profile, buf).Ok? ==> UnprotectRtcp(k.profile, k.rtcp, buf).None?
  }

  function OnWire(k: Keys, d: Delivery): seq<byte>
    requires IdealKeys(k) && Deliverable(k, d)
  {
    match d
    case Media(packet, index) => ProtectRtp(k.profile, k.rtp, packet, RtpHeader(packet).value, index)
    case Control(packet, index, encrypted) => ProtectRtcp(k.profile, k.rtcp, packet, index, encrypted)
    case ForgedMedia(buf) => buf
    case ForgedControl(buf) => buf
  }

  /** Octets arriving as media or as control. */
  function ReceiveAs(k: Keys, t: Table, control: bool, buf: seq<byte>): (Table, Result<seq<byte>, Error>)
    requires IdealKeys(k)
  {
    if control then ReceiveRtcp(k.profile, k.rtcp, t, buf) else ReceiveRtp(k.profile, k.rtp, t, buf)
  }

  predicate IsControl(d: Delivery) {
    d.Control? || d.ForgedControl?
  }

  function ReceiveOne(k: Keys, t: Table, d: Delivery): (Table, Result<seq<byte>, Error>)
    requires IdealKeys(k) && Deliverable(k, d)
  {
    ReceiveAs(k, t, IsControl(d), OnWire(k, d))
  }

  ghost predicate AllDeliverable(k: Keys, ds: seq<Delivery>)
    requires IdealKeys(k)
  {
    forall i :: 0 <= i < |ds| ==> Deliverable(k, ds[i])
  }

  /** The table after a sequence of deliveries to a new context. */
  function After(k: Keys, ds: seq<Delivery>): Table
    requires IdealKeys(k) && AllDeliverable(k, ds)
  {
    if ds == [] then map[] else ReceiveOne(k, After(k, ds[..|ds| - 1]), ds[|ds| - 1]).0
  }

  /** The SSRC of a genuine packet. */
  function Ssrc(d: Delivery): Option<u32> {
    match d
    case Media(packet, _) => if RtpHeader(packet).Ok? then Some(RtpHeader(packet).value.ssrc) else None
    case Control(packet, _, _) => if |packet| >= SRTCP_HEADER_LEN then Some(RtcpSsrc(packet)) else None
    case _ => None
  }

  predicate IsFor(d: Delivery, control: bool, ssrc: u32) {
    Ssrc(d) == Some(ssrc) && d.Genuine() && d.Control? == control
  }

  /** The indices of one kind delivered so far for one SSRC, and the SSRCs seen. */
  ghost function Delivered(ds: seq<Delivery>, control: bool, ssrc: u32): set<nat> {
    set i | 0 <= i < |ds| && IsFor(ds[i], control, ssrc) :: ds[i].index
  }

  ghost function Seen(ds: seq<Delivery>): set<u32> {
    set i | 0 <= i < |ds| && Ssrc(ds[i]).Some? :: Ssrc(ds[i]).value
  }

  ghost predicate IsHighest(s: set<nat>, h: nat) {
    h in s && forall i :: i in s ==> i <= h
  }

  /**
   * The network keeps order well enough: a new SSRC finds room in the table, the
   * first media packet of an SSRC was sent at rollover 0, and every later one
   * lies strictly within 2^15 of the highest media index delivered before it.
   * Of control packets, which carry their whole index, no order is asked.
   */
  ghost predicate Timely(before: seq<Delivery>, d: Delivery) {
    Ssrc(d).Some? ==>
      var ssrc := Ssrc(d).value;
      && (ssrc in Seen(before) || |Seen(before)| < MAX_STREAMS)
      && (d.Media? ==>
            var s := Delivered(before, false, ssrc);
            if s == {} then d.index < SEQ_SPACE
            else exists h :: IsHighest(s, h) && -HALF < d.index - h < HALF)
  }

  ghost predicate TimelyRun(ds: seq<Delivery>) {
    forall n {:trigger ds[..n]} :: 0 <= n < |ds| ==> Timely(ds[..n], ds[n])
  }

  /** The first delivery of an index fewer than 64 behind the highest of its kind before it. */
  ghost predicate Acceptable(before: seq<Delivery>, d: Delivery) {
    && Ssrc(d).Some? && d.Genuine()
    && var s := Delivered(before, d.Control?, Ssrc(d).value);
       d.index !in s && forall i :: i in s ==> i < d.index + REPLAY_WINDOW
  }

  // ------------------------------------------------------------------------
  // The table follows the deliveries
  // ------------------------------------------------------------------------

  function WindowOf(s: Stream, control: bool): Window {
    if control then s.rtcp else s.rtp
  }

  function WithWindow(s: Stream, control: bool, w: Window): Stream {
    if control then s.(rtcp := w) else s.(rtp := w)
  }

  /** Both windows of every entry are those of the indices delivered. */
  ghost predicate Follows(t: Table, ds: seq<Delivery>) {
    && t.Keys == Seen(ds)
    && InRange(t)
    && (forall x, control :: x in t ==> Represents(WindowOf(t[x], control), Delivered(ds, control, x)))
  }

  /** A delivery too old to be new leaves the window that of all deliveries. */
  lemma OldDeliveryChangesNothing(w: Window, s: set<nat>, index: nat)
    requires Represents(w, s) && w.highest.Some? && !w.Check(index)
    ensures Represents(w, s + {index})
  {
    CheckMeansNew(w, s, index);
  }

  lemma OneMoreDelivered(ds: seq<Delivery>, d: Delivery, control: bool, x: u32)
    ensures Delivered(ds + [d], control, x) ==
            Delivered(ds, control, x) + (if IsFor(d, control, x) then {d.index} else {})
  {
    var ds' := ds + [d];
    assert ds'[|ds|] == d;
    assert forall i :: 0 <= i < |ds| ==> ds'[i] == ds[i];
    forall n | n in Delivered(ds, control, x)
      ensures n in Delivered(ds', control, x)
    {
      var i :| 0 <= i < |ds| && IsFor(ds[i], control, x) && ds[i].index == n;
      assert IsFor(ds'[i], control, x);
    }
  }

  lemma OneMoreSeen(ds: seq<Delivery>, d: Delivery)
    ensures Seen(ds + [d]) == Seen(ds) + (if Ssrc(d).Some? then {Ssrc(d).value} else {})
  {
    var ds' := ds + [d];
    assert ds'[|ds|] == d;
    assert forall i :: 0 <= i < |ds| ==> ds'[i] == ds[i];
    forall n | n in Seen(ds)
      ensures n in Seen(ds')
    {
      var i :| 0 <= i < |ds| && Ssrc(ds[i]).Some? && Ssrc(ds[i]).value == n;
      assert Ssrc(ds'[i]).Some? && Ssrc(ds'[i]).value == n;
    }
  }

  lemma NotSeenNothingDelivered(ds: seq<Delivery>, control: bool, ssrc: u32)
    ensures ssrc !in Seen(ds) ==> Delivered(ds, control, ssrc) == {}
  {
    forall i | 0 <= i < |ds| && IsFor(ds[i], control, ssrc)
      ensures ssrc in Seen(ds)
    {
    }
  }

  lemma FollowedWindow(t: Table, ds: seq<Delivery>, control: bool, ssrc: u32)
    requires Follows(t, ds)
    ensures Represents(WindowOf(Lookup(t, ssrc), control), Delivered(ds, control, ssrc))
  {
    if ssrc in t {
      assert Represents(WindowOf(t[ssrc], control), Delivered(ds, control, ssrc));
    } else {
      NotSeenNothingDelivered(ds, control, ssrc);
      EmptyRepresentsNothing();
    }
  }

  /** A genuine, timely media packet is estimated right. */
  lemma EstimateIsRight(k: Keys, t: Table, ds: seq<Delivery>, d: Delivery)
    requires IdealKeys(k) && Deliverable(k, d) && d.Media?
    requires Follows(t, ds) && Timely(ds, d)
    ensures var h := RtpHeader(d.packet).value; Lookup(t, h.ssrc).rtp.Guess(h.seqNo) == d.index
  {
    var h := RtpHeader(d.packet).value;
    var w, s := Lookup(t, h.ssrc).rtp, Delivered(ds, false, h.ssrc);
    FollowedWindow(t, ds, false, h.ssrc);
    if s != {} {
      var top :| IsHighest(s, top) && -HALF < d.index - top < HALF;
      assert w.highest == Some(top);
      assert h.ssrc in t && w.highest.value < INDEX_SPACE;
      GuessIsNearest(w, d.index);
    }
  }

  lemma CheckIsAcceptable(t: Table, ds: seq<Delivery>, d: Delivery)
    requires Follows(t, ds) && Ssrc(d).Some? && d.Genuine()
    ensures WindowOf(Lookup(t, Ssrc(d).value), d.Control?).Check(d.index) <==> Acceptable(ds, d)
  {
    var ssrc := Ssrc(d).value;
    FollowedWindow(t, ds, d.Control?, ssrc);
    CheckMeansNew(WindowOf(Lookup(t, ssrc), d.Control?), Delivered(ds, d.Control?, ssrc), d.index);
  }

  /** The table after a genuine delivery whose index was found right. */
  function Recorded(t: Table, d: Delivery): Table
    requires Ssrc(d).Some? && d.Genuine()
  {
    var ssrc := Ssrc(d).value;
    var s := Lookup(t, ssrc);
    var w := WindowOf(s, d.Control?);
    if w.Check(d.index) then t[ssrc := WithWindow(s, d.Control?, w.Record(d.index))] else t
  }

  lemma MediaOutcome(k: Keys, t: Table, ds: seq<Delivery>, d: Delivery)
    requires IdealKeys(k) && Deliverable(k, d) && d.Media?
    requires Follows(t, ds) && Timely(ds, d)
    ensures ReceiveOne(k, t, d) == (Recorded(t, d), if Acceptable(ds, d) then Ok(d.packet) else Err(Replayed))
  {
    var h := RtpHeader(d.packet).value;
    RtpRoundTrip(k.profile, k.rtp, d.packet, d.index);
    EstimateIsRight(k, t, ds, d);
    CheckIsAcceptable(t, ds, d);
    var wire := OnWire(k, d);
    assert AdmitRtp(k.profile, wire) == Ok(h);
    assert HasRoom(t, h.ssrc);
  }

  lemma ControlAdmitted(k: Keys, d: Delivery)
    requires IdealKeys(k) && Deliverable(k, d) && d.Control?
    ensures var wire := OnWire(k, d);
            && AdmitRtcp(k.profile, wire) == Ok(RtcpSsrc(d.packet))
            && IndexWord(k.profile, wire) % E_BIT == d.index
            && UnprotectRtcp(k.profile, k.rtcp, wire) == Some(d.packet)
  {
    var wire := OnWire(k, d);
    RtcpRoundTrip(k.profile, k.rtcp, d.packet, d.index, d.encrypted);
    assert wire[0] == wire[..8][0] == d.packet[0];
  }

  lemma ControlOutcome(k: Keys, t: Table, ds: seq<Delivery>, d: Delivery)
    requires IdealKeys(k) && Deliverable(k, d) && d.Control?
    requires Follows(t, ds) && Timely(ds, d)
    ensures ReceiveOne(k, t, d) == (Recorded(t, d), if Acceptable(ds, d) then Ok(d.packet) else Err(Replayed))
  {
    ControlAdmitted(k, d);
    CheckIsAcceptable(t, ds, d);
    assert HasRoom(t, RtcpSsrc(d.packet));
  }

  lemma ForgeryIsRejected(k: Keys, t: Table, d: Delivery)
    requires IdealKeys(k) && Deliverable(k, d) && !d.Genuine()
    ensures ReceiveOne(k, t, d).0 == t && ReceiveOne(k, t, d).1.Err?
  {
    if d.ForgedMedia? && AdmitRtp(k.profile, d.buf).Ok? {
      var h := AdmitRtp(k.profile, d.buf).value;
      GuessInRange(Lookup(t, h.ssrc).rtp, h.seqNo);
      assert UnprotectRtp(k.profile, k.rtp, d.buf, h, Lookup(t, h.ssrc).rtp.Guess(h.seqNo)).None?;
    }
  }

  lemma RecordedRepresents(t: Table, ds: seq<Delivery>, d: Delivery, control: bool, x: u32)
    requires Follows(t, ds) && Ssrc(d).Some? && d.Genuine()
    requires x in Recorded(t, d)
    ensures Represents(WindowOf(Recorded(t, d)[x], control), Delivered(ds + [d], control, x))
  {
    OneMoreDelivered(ds, d, control, x);
    FollowedWindow(t, ds, control, x);
    var w, s := WindowOf(Lookup(t, x), control), Delivered(ds, control, x);
    if IsFor(d, control, x) {
      if w.Check(d.index) { RecordRepresents(w, s, d.index); } else { OldDeliveryChangesNothing(w, s, d.index); }
    } else {
      assert WindowOf(Recorded(t, d)[x], control) == w;
      assert Delivered(ds + [d], control, x) == s;
    }
  }

  lemma RecordedInRange(t: Table, ds: seq<Delivery>, d: Delivery)
    requires Follows(t, ds) && Ssrc(d).Some? && d.Genuine() && (d.Media? ==> d.index < INDEX_SPACE)
    ensures InRange(Recorded(t, d)) && Recorded(t, d).Keys == t.Keys + {Ssrc(d).value}
  {
    FollowedWindow(t, ds, d.Control?, Ssrc(d).value);
  }

  lemma GenuineFollows(t: Table, ds: seq<Delivery>, d: Delivery)
    requires Follows(t, ds) && Ssrc(d).Some? && d.Genuine() && (d.Media? ==> d.index < INDEX_SPACE)
    ensures Follows(Recorded(t, d), ds + [d])
  {
    OneMoreSeen(ds, d);
    RecordedInRange(t, ds, d);
    forall x, control | x in Recorded(t, d)
      ensures Represents(WindowOf(Recorded(t, d)[x], control), Delivered(ds + [d], control, x))
    {
      RecordedRepresents(t, ds, d, control, x);
    }
  }

  lemma ForgeryFollows(t: Table, ds: seq<Delivery>, d: Delivery)
    requires Follows(t, ds) && !d.Genuine()
    ensures Follows(t, ds + [d])
  {
    OneMoreSeen(ds, d);
    forall x, control | x in t
      ensures Represents(WindowOf(t[x], control), Delivered(ds + [d], control, x))
    {
      OneMoreDelivered(ds, d, control, x);
      assert Delivered(ds + [d], control, x) == Delivered(ds, control, x);
    }
  }

  /** One delivery: what comes out, and that the table keeps following the deliveries. */
  lemma StepFollows(k: Keys, t: Table, ds: seq<Delivery>, d: Delivery)
    requires IdealKeys(k) && Deliverable(k, d)
    requires Follows(t, ds) && Timely(ds, d)
    ensures var (t', r) := ReceiveOne(k, t, d);
            && Follows(t', ds + [d])
            && (Acceptable(ds, d) ==> r == Ok(d.packet))
            && (d.Genuine() && !Acceptable(ds, d) ==> r == Err(Replayed))
            && (!d.Genuine() ==> r.Err?)
  {
    if d.Genuine() {
      if d.Media? { MediaOutcome(k, t, ds, d); } else { ControlOutcome(k, t, ds, d); }
      GenuineFollows(t, ds, d);
    } else {
      ForgeryIsRejected(k, t, d);
      ForgeryFollows(t, ds, d);
    }
  }

  /** The table after the first deliveries of a timely run. */
  ghost predicate Tracked(k: Keys, ds: seq<Delivery>)
    requires IdealKeys(k)
  {
    AllDeliverable(k, ds) && Follows(After(k, ds), ds)
  }

  lemma OneMoreTracked(k: Keys, ds: seq<Delivery>, d: Delivery)
    requires IdealKeys(k) && Tracked(k, ds) && Deliverable(k, d) && Timely(ds, d)
    ensures Tracked(k, ds + [d])
  {
    var more := ds + [d];
    StepFollows(k, After(k, ds), ds, d);
    assert more[..|more| - 1] == ds && more[|more| - 1] == d;
  }

  lemma {:induction false} RunFollows(k: Keys, ds: seq<Delivery>, n: nat)
    requires IdealKeys(k) && AllDeliverable(k, ds) && TimelyRun(ds) && n <= |ds|
    ensures Tracked(k, ds[..n])
  {
    if n == 0 {
      assert ds[..0] == [];
    } else {
      RunFollows(k, ds, n - 1);
      OneMoreTracked(k, ds[..n - 1], ds[n - 1]);
      assert ds[..n] == ds[..n - 1] + [ds[n - 1]];
    }
  }

  /**
   * Over any timely run of media and control packets in one context, with loss,
   * reordering, duplication and forgeries, the n-th delivery yields the sender's
   * plaintext exactly when it is the first delivery of its index for its SSRC and
   * kind and fewer than 64 behind the highest of those; any other genuine packet
   * is a replay.
   */
  lemma DeliveredExactlyOnce(k: Keys, ds: seq<Delivery>, n: nat)
    requires IdealKeys(k) && AllDeliverable(k, ds) && TimelyRun(ds) && n < |ds|
    ensures AllDeliverable(k, ds[..n])
    ensures var r := ReceiveOne(k, After(k, ds[..n]), ds[n]).1;
            && (r.Ok? <==> Acceptable(ds[..n], ds[n]))
            && (r.Ok? ==> r.value == ds[n].packet)
            && (ds[n].Genuine() && r.Err? ==> r.error == Replayed)
  {
    RunFollows(k, ds, n);
    StepFollows(k, After(k, ds[..n]), ds[..n], ds[n]);
  }

  /** The two transforms order their checks differently but accept the same packets. */
  lemma OrderOfChecksIsInvisible(p: Profile, c: Cipher, t: Table, buf: seq<byte>)
    requires Ideal(c, p)
    ensures var (t', r) := ReceiveRtp(p, c, t, buf);
            && (r.Err? ==> t' == t)
            && (r.Ok? <==>
                 && AdmitRtp(p, buf).Ok?
                 && var h := AdmitRtp(p, buf).value;
                    var w := Lookup(t, h.ssrc).rtp;
                    && w.Guess(h.seqNo) < INDEX_SPACE
                    && w.Check(w.Guess(h.seqNo))
                    && UnprotectRtp(p, c, buf, h, w.Guess(h.seqNo)).Some?
                    && HasRoom(t, h.ssrc))
  {
    if AdmitRtp(p, buf).Ok? {
      var h := AdmitRtp(p, buf).value;
      GuessInRange(Lookup(t, h.ssrc).rtp, h.seqNo);
    }
  }

  /**
   * Control packets alone, in any order, with repetition and forgeries: no
   * timeliness is asked but room for their SSRCs, and each comes out exactly when
   * its index is new for its SSRC and fewer than 64 behind the highest.
   */
  lemma ControlDeliveredExactlyOnce(k: Keys, ds: seq<Delivery>, n: nat)
    requires IdealKeys(k) && AllDeliverable(k, ds) && n < |ds|
    requires forall i :: 0 <= i < |ds| ==> IsControl(ds[i])
    requires forall i :: 0 <= i < |ds| && Ssrc(ds[i]).Some? ==>
               Ssrc(ds[i]).value in Seen(ds[..i]) || |Seen(ds[..i])| < MAX_STREAMS
    ensures AllDeliverable(k, ds[..n])
    ensures var r := ReceiveOne(k, After(k, ds[..n]), ds[n]).1;
            && (r.Ok? <==> Acceptable(ds[..n], ds[n]))
            && (r.Ok? ==> r.value == ds[n].packet)
            && (ds[n].Control? && r.Err? ==> r.error == Replayed)
  {
    forall i | 0 <= i < |ds| ensures Timely(ds[..i], ds[i]) {
      assert IsControl(ds[i]);
    }
    DeliveredExactlyOnce(k, ds, n);
  }

  // ------------------------------------------------------------------------
  // The context
  // ------------------------------------------------------------------------

  class Receiver {
    const keys: Keys
    const streams: Streams

    constructor (keys: Keys)
      requires IdealKeys(keys)
      ensures Valid() && streams.Table() == map[] && fresh(streams)
      ensures this.keys == keys
    {
      this.keys := keys;
      streams := new Streams();
    }

    ghost predicate Valid()
      reads this, streams
    {
      IdealKeys(keys) && streams.Valid()
      && forall x :: x in streams.Table() ==> streams.Table()[x].ssrc == x
    }

    /** Authenticates, decrypts in place and records one inbound RTP packet. */
    method DecryptRtp(buf: array<byte>) returns (r: Result<nat, Error>)
      requires Valid()
      modifies buf, streams
      ensures Valid()
      ensures var (t, plain) := ReceiveRtp(keys.profile, keys.rtp, old(streams.Table()), old(buf[..]));
              && streams.Table() == t
              && r == (if plain.Ok? then Ok(|plain.value|) else Err(plain.error))
              && (plain.Ok? ==> |plain.value| <= buf.Length && buf[..|plain.value|] == plain.value)
    {
      var accepted := CheckRtp(buf[..]);
      if accepted.Err? {
        return Err(accepted.error);
      }
      var a := accepted.value;
      Write(buf, 0, a.plain);
      var stored := RecordRtp(a.ssrc, a.index);
      r := if stored then Ok(|a.plain|) else Err(TooManyStreams);
    }

    method CheckRtp(packet: seq<byte>) returns (r: Result<Accepted, Error>)
      requires Valid()
      ensures r == AcceptRtp(keys.profile, keys.rtp, streams.Table(), packet)
    {
      var admitted := AdmitRtp(keys.profile, packet);
      if admitted.Err? {
        return Err(admitted.error);
      }
      var h := admitted.value;
      var entry := streams.Get(h.ssrc);
      var w := if entry.Some? then entry.value.rtp else EMPTY;
      var index := w.Guess(h.seqNo);
      GuessInRange(w, h.seqNo);
      if keys.profile == Gcm && !w.Check(index) {
        return Err(Replayed);
      }
      var plain := UnprotectRtp(keys.profile, keys.rtp, packet, h, index);
      if plain.None? {
        return Err(AuthFailed);
      }
      if !w.Check(index) {
        return Err(Replayed);
      }
      r := Ok(Accepted(h.ssrc, index, plain.value));
    }

    method RecordRtp(ssrc: u32, index: nat) returns (stored: bool)
      requires Valid()
      modifies streams
      ensures Valid() && stored == HasRoom(old(streams.Table()), ssrc)
      ensures var t := old(streams.Table()); var s := Lookup(t, ssrc);
              streams.Table() == if stored then t[ssrc := s.(rtp := s.rtp.Record(index))] else t
    {
      ghost var t := streams.Table();
      var slot := streams.GetMutOrInsert(ssrc);
      stored := slot.Some?;
      if stored {
        var s := streams.slots[slot.value].value;
        streams.Store(slot.value, s.(rtp := s.rtp.Record(index)));
        assert streams.Table() == t[ssrc := s.(rtp := s.rtp.Record(index))];
      }
    }

    /** Authenticates, decrypts in place and records one inbound RTCP packet. */
    method DecryptRtcp(buf: array<byte>) returns (r: Result<nat, Error>)
      requires Valid()
      modifies buf, streams
      ensures Valid()
      ensures var (t, plain) := ReceiveRtcp(keys.profile, keys.rtcp, old(streams.Table()), old(buf[..]));
              && streams.Table() == t
              && r == (if plain.Ok? then Ok(|plain.value|) else Err(plain.error))
              && (plain.Ok? ==> |plain.value| <= buf.Length && buf[..|plain.value|] == plain.value)
    {
      var accepted := CheckRtcp(buf[..]);
      if accepted.Err? {
        return Err(accepted.error);
      }
      var a := accepted.value;
      Write(buf, 0, a.plain);
      var stored := RecordRtcp(a.ssrc, a.index);
      r := if stored then Ok(|a.plain|) else Err(TooManyStreams);
    }

    method CheckRtcp(packet: seq<byte>) returns (r: Result<Accepted, Error>)
      requires Valid()
      ensures r == AcceptRtcp(keys.profile, keys.rtcp, streams.Table(), packet)
    {
      var admitted := AdmitRtcp(keys.profile, packet);
      if admitted.Err? {
        return Err(admitted.error);
      }
      var ssrc := admitted.value;
      var index := IndexWord(keys.profile, packet) % E_BIT;
      var entry := streams.Get(ssrc);
      var w := if entry.Some? then entry.value.rtcp else EMPTY;
      if keys.profile == Gcm && !w.Check(index) {
        return Err(Replayed);
      }
      var plain := UnprotectRtcp(keys.profile, keys.rtcp, packet);
      if plain.None? {
        return Err(AuthFailed);
      }
      if !w.Check(index) {
        return Err(Replayed);
      }
      r := Ok(Accepted(ssrc, index, plain.value));
    }

    method RecordRtcp(ssrc: u32, index: nat) returns (stored: bool)
      requires Valid()
      modifies streams
      ensures Valid() && stored == HasRoom(old(streams.Table()), ssrc)
      ensures var t := old(streams.Table()); var s := Lookup(t, ssrc);
              streams.Table() == if stored then t[ssrc := s.(rtcp := s.rtcp.Record(index))] else t
    {
      ghost var t := streams.Table();
      var slot := streams.GetMutOrInsert(ssrc);
      stored := slot.Some?;
      if stored {
        var s := streams.slots[slot.value].value;
        streams.Store(slot.value, s.(rtcp := s.rtcp.Record(index)));
        assert streams.Table() == t[ssrc := s.(rtcp := s.rtcp.Record(index))];
      }
    }
  }
}
