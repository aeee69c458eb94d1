/**
 * Where SRTP finds what it protects by: the header fields are those of the RTP
 * and RTCP views, every IV is laid out as RFC 7714 and RFC 3711 say, and which
 * calls on a sending context succeed.
 */
module SrtpFields {
  import opened Wrappers
  import opened Bytes
  import opened IndexWindows
  import opened SrtpPacket
  import opened SrtpStreams
  import RtpPackets
  import Send = SrtpSend
  import Receive = SrtpReceive
  import SrtpEndToEnd

  // ── Header fields ─────────────────────────────────────────────────────

  /** The header SRTP reads is that of the packet view; only a bad padding count, which it does not look at, parts them. */
  lemma HeaderIsParsed(buf: seq<byte>)
    ensures RtpHeader(buf).Ok? <==> RtpPackets.Parse(buf).Ok? || RtpPackets.Parse(buf).error == RtpPackets.BadPadding
    ensures RtpPackets.Parse(buf).Ok? ==>
              var p := RtpPackets.Parse(buf).value;
              RtpHeader(buf) == Ok(Header(p.payloadOff, p.SequenceNumber(), p.Ssrc()))
    ensures RtpHeader(buf).Ok? ==>
              var h := RtpHeader(buf).value;
              h.seqNo == Read16(buf[2], buf[3]) && h.ssrc == Word(buf, 8)
  {
  }

  // ── IV layout ─────────────────────────────────────────────────────────

  /** With the salt taken off, the IV reads SSRC and index at the places of its profile. */
  ghost predicate IvSays(p: Profile, salt: seq<byte>, iv: seq<byte>, rtcp: bool, ssrc: u32, index: nat)
    requires |salt| == (if p == Gcm then GCM_SALT_LEN else CM_SALT_LEN)
  {
    if p == Gcm then
      && |iv| == 12
      && var f := Xor(iv, salt);
         && f[0] == 0 && f[1] == 0 && Word(f, 2) == ssrc
         && if rtcp then f[6] == 0 && f[7] == 0 && Word(f, 8) == index
            else 0x1_0000 * Word(f, 6) + Read16(f[10], f[11]) == index
    else
      && |iv| == 16 && iv[14] == 0 && iv[15] == 0
      && var f := Xor(iv[..14], salt);
         && f[0] == 0 && f[1] == 0 && f[2] == 0 && f[3] == 0 && Word(f, 4) == ssrc
         && if rtcp then f[8] == 0 && f[9] == 0 && Word(f, 10) == index
            else 0x1_0000_0000 * Read16(f[8], f[9]) + Word(f, 10) == index
  }

  lemma WordAt(f: seq<byte>, at: nat, x: u32)
    requires at + 4 <= |f| && f[at..at + 4] == Be32(x)
    ensures Word(f, at) == x
  {
    var b := f[at..at + 4];
    assert f[at] == b[0] && f[at + 1] == b[1] && f[at + 2] == b[2] && f[at + 3] == b[3];
    Read32OfBe32(x);
  }

  lemma HalfAt(f: seq<byte>, at: nat, x: u16)
    requires at + 2 <= |f| && f[at..at + 2] == Be16(x)
    ensures Read16(f[at], f[at + 1]) == x
  {
    var b := f[at..at + 2];
    assert f[at] == b[0] && f[at + 1] == b[1];
    Read16OfBe16(x);
  }

  lemma RtpIvSays(salt: seq<byte>, ssrc: u32, index: nat)
    requires |salt| == GCM_SALT_LEN && index < INDEX_SPACE
    ensures IvSays(Gcm, salt, RtpIv(salt, ssrc, index), false, ssrc, index)
  {
    var f := [0, 0] + Be32(ssrc) + Be32(index / SEQ_SPACE) + Be16(index % SEQ_SPACE);
    XorCancels(salt, f, f);
    WordAt(f, 2, ssrc);
    WordAt(f, 6, index / SEQ_SPACE);
    HalfAt(f, 10, index % SEQ_SPACE);
  }

  lemma RtcpIvSays(salt: seq<byte>, ssrc: u32, index: nat)
    requires |salt| == GCM_SALT_LEN && index < E_BIT
    ensures IvSays(Gcm, salt, RtcpIv(salt, ssrc, index), true, ssrc, index)
  {
    var f := [0, 0] + Be32(ssrc) + [0, 0] + Be32(index);
    XorCancels(salt, f, f);
    WordAt(f, 2, ssrc);
    WordAt(f, 8, index);
  }

  lemma CmRtpIvSays(salt: seq<byte>, ssrc: u32, index: nat)
    requires |salt| == CM_SALT_LEN && index < INDEX_SPACE
    ensures IvSays(Cm, salt, CmRtpIv(salt, ssrc, index), false, ssrc, index)
  {
    var f := [0, 0, 0, 0] + Be32(ssrc) + Be48(index);
    XorCancels(salt, f, f);
    assert CmRtpIv(salt, ssrc, index)[..14] == Xor(salt, f);
    WordAt(f, 4, ssrc);
    HalfAt(f, 8, index / 0x1_0000_0000);
    WordAt(f, 10, index % 0x1_0000_0000);
  }

  lemma CmRtcpIvSays(salt: seq<byte>, ssrc: u32, index: nat)
    requires |salt| == CM_SALT_LEN && index < E_BIT
    ensures IvSays(Cm, salt, CmRtcpIv(salt, ssrc, index), true, ssrc, index)
  {
    var f := [0, 0, 0, 0] + Be32(ssrc) + [0, 0] + Be32(index);
    XorCancels(salt, f, f);
    assert CmRtcpIv(salt, ssrc, index)[..14] == Xor(salt, f);
    WordAt(f, 4, ssrc);
    WordAt(f, 10, index);
  }

  lemma IvIsLaidOut(k: Keys, e: Send.Emission)
    requires IdealKeys(k) && Send.IvIsProper(k, e)
    ensures IvSays(k.profile, if e.rtcp then k.rtcp.salt else k.rtp.salt, e.iv, e.rtcp, e.ssrc, e.index)
  {
    match k.profile
    case Gcm =>
      if e.rtcp { RtcpIvSays(k.rtcp.salt, e.ssrc, e.index); } else { RtpIvSays(k.rtp.salt, e.ssrc, e.index); }
    case Cm =>
      if e.rtcp { CmRtcpIvSays(k.rtcp.salt, e.ssrc, e.index); } else { CmRtpIvSays(k.rtp.salt, e.ssrc, e.index); }
  }

  /**
   * Everything a sender emits is under the SSRC its packet carries, a media
   * packet at an index that ends in its sequence number, and the IV says both.
   */
  lemma SentUnderItsFields(k: Keys, calls: seq<Send.Call>, i: nat)
    requires IdealKeys(k) && i < |Send.Run(k, calls).1|
    ensures var e := Send.Run(k, calls).1[i];
            && IvSays(k.profile, if e.rtcp then k.rtcp.salt else k.rtp.salt, e.iv, e.rtcp, e.ssrc, e.index)
            && (e.rtcp ==> |e.packet| >= 8 && e.ssrc == Word(e.packet, 4))
            && (!e.rtcp ==> |e.packet| >= 12 && e.ssrc == Word(e.packet, 8)
                            && e.index % 0x1_0000 == Read16(e.packet[2], e.packet[3]))
            && (!e.rtcp && RtpPackets.Parse(e.packet).Ok? ==>
                  var p := RtpPackets.Parse(e.packet).value;
                  e.ssrc == p.Ssrc() && e.index % 0x1_0000 == p.SequenceNumber())
  {
    var e := Send.Run(k, calls).1[i];
    Send.RunRemembers(k, calls);
    assert Send.IvIsProper(k, e);
    IvIsLaidOut(k, e);
    SrtpEndToEnd.RunCarries(k, calls);
    assert SrtpEndToEnd.Carries(k, e);
    if !e.rtcp { HeaderIsParsed(e.packet); }
  }

  /** The table with a media index recorded for an SSRC. */
  function MediaRecorded(t: Table, ssrc: u32, index: nat): Table {
    var s := Lookup(t, ssrc);
    t[ssrc := s.(rtp := s.rtp.Record(index))]
  }

  /** A packet that is taken in is recorded under the SSRC it carries, at an index that ends in its sequence number. */
  lemma ReceivedUnderItsFields(p: Profile, c: Cipher, t: Table, buf: seq<byte>) returns (index: nat)
    requires Ideal(c, p) && Receive.ReceiveRtp(p, c, t, buf).1.Ok?
    ensures |buf| >= 12 && index % 0x1_0000 == Read16(buf[2], buf[3])
    ensures Receive.ReceiveRtp(p, c, t, buf).0 == MediaRecorded(t, Word(buf, 8), index)
  {
    HeaderIsParsed(buf);
    var h := RtpHeader(buf).value;
    index := Lookup(t, h.ssrc).rtp.Guess(h.seqNo);
    GuessEndsIn(Lookup(t, h.ssrc).rtp, h.seqNo);
  }

  lemma GuessEndsIn(w: Window, seqNo: u16)
    ensures w.Guess(seqNo) % SEQ_SPACE == seqNo
  {
  }

  lemma AcceptedControl(p: Profile, c: Cipher, t: Table, buf: seq<byte>, at: int)
    requires Ideal(c, p) && Receive.AcceptRtcp(p, c, t, buf).Ok? && at == |buf| - if p == Gcm then 4 else 14
    ensures |buf| >= 22 && at >= 8
    ensures var a := Receive.AcceptRtcp(p, c, t, buf).value; a.ssrc == Word(buf, 4) && a.index == Word(buf, at) % 0x8000_0000
  {
  }

  /** A control packet taken in is recorded under the SSRC it carries, at the index its trailer carries. */
  lemma ControlReceivedUnderItsFields(p: Profile, c: Cipher, t: Table, buf: seq<byte>, at: int)
    requires Ideal(c, p) && Receive.ReceiveRtcp(p, c, t, buf).1.Ok? && at == |buf| - if p == Gcm then 4 else 14
    ensures |buf| >= 22 && at >= 8
    ensures var s := Lookup(t, Word(buf, 4));
            Receive.ReceiveRtcp(p, c, t, buf).0 ==
            t[Word(buf, 4) := s.(rtcp := s.rtcp.Record(Word(buf, at) % 0x8000_0000))]
  {
    AcceptedControl(p, c, t, buf, at);
  }

  // ── Which calls succeed ───────────────────────────────────────────────

  /** The SSRCs that something was emitted under. */
  ghost function Known(es: seq<Send.Emission>): set<u32> {
    set e | e in es :: e.ssrc
  }

  lemma StepKeys(k: Keys, t: Table, call: Send.Call)
    requires IdealKeys(k) && Send.IndicesInRange(t)
    ensures var (t', r) := Send.Step(k, t, call);
            t'.Keys == t.Keys + (if r.Ok? then {r.value.ssrc} else {})
  {
  }

  lemma {:induction false} RunKeys(k: Keys, calls: seq<Send.Call>)
    requires IdealKeys(k)
    ensures Send.Run(k, calls).0.Keys == Known(Send.Run(k, calls).1)
  {
    if calls != [] {
      var front, call := calls[..|calls| - 1], calls[|calls| - 1];
      RunKeys(k, front);
      var (t, es) := Send.Run(k, front);
      StepKeys(k, t, call);
      var r := Send.Step(k, t, call).1;
      if r.Ok? { assert Known(es + [r.value]) == Known(es) + {r.value.ssrc}; }
    }
  }

  /** An index that no packet of its SSRC was sent at and that is fewer than 64 behind the highest. */
  ghost predicate Unspent(es: seq<Send.Emission>, ssrc: u32, index: nat) {
    index !in Send.Spent(es, ssrc) && forall i :: i in Send.Spent(es, ssrc) ==> i < index + 64
  }

  /**
   * After any run, a media packet is sent exactly when the buffer has room for
   * its tag, its header parses, its SSRC is known or fewer than 2048 are, and
   * the index it would take exists and is unspent.
   */
  lemma MediaIsSentIff(k: Keys, calls: seq<Send.Call>, packet: seq<byte>, capacity: nat)
    requires IdealKeys(k)
    ensures var (t, es) := Send.Run(k, calls);
            var parsed := RtpPackets.Parse(packet);
            Send.SendRtp(k, t, packet, capacity).1.Ok? <==>
              && capacity >= |packet| + (if k.profile == Gcm then 16 else 10)
              && (parsed.Ok? || parsed.error == RtpPackets.BadPadding)
              && (Word(packet, 8) in Known(es) || |Known(es)| < 2048)
              && var index := Lookup(t, Word(packet, 8)).rtp.SendIndex(Read16(packet[2], packet[3]));
                 index.Some? && Unspent(es, Word(packet, 8), index.value)
  {
    var (t, es) := Send.Run(k, calls);
    HeaderIsParsed(packet);
    RunKeys(k, calls);
    Send.RunRemembers(k, calls);
    assert |t| == |t.Keys|;
    if RtpHeader(packet).Ok? {
      var w := Lookup(t, Word(packet, 8)).rtp;
      var index := w.SendIndex(Read16(packet[2], packet[3]));
      if index.Some? { CheckMeansNew(w, Send.Spent(es, Word(packet, 8)), index.value); }
    }
  }

  /** How many control packets were sent under an SSRC. */
  function ControlsOf(es: seq<Send.Emission>, ssrc: u32): nat {
    if es == [] then 0
    else
      var last := es[|es| - 1];
      ControlsOf(es[..|es| - 1], ssrc) + if last.rtcp && last.ssrc == ssrc then 1 else 0
  }

  lemma ControlsOneMore(es: seq<Send.Emission>, e: Send.Emission, ssrc: u32)
    ensures ControlsOf(es + [e], ssrc) == ControlsOf(es, ssrc) + if e.rtcp && e.ssrc == ssrc then 1 else 0
  {
    assert (es + [e])[..|es|] == es;
  }

  lemma {:induction false} RunCountsControls(k: Keys, calls: seq<Send.Call>, ssrc: u32)
    requires IdealKeys(k)
    ensures Lookup(Send.Run(k, calls).0, ssrc).rtcpNext == ControlsOf(Send.Run(k, calls).1, ssrc)
  {
    if calls != [] {
      var front, call := calls[..|calls| - 1], calls[|calls| - 1];
      RunCountsControls(k, front, ssrc);
      var (t, es) := Send.Run(k, front);
      var r := Send.Step(k, t, call).1;
      if r.Ok? {
        Send.StepTakes(k, t, call);
        ControlsOneMore(es, r.value, ssrc);
      }
    }
  }

  /**
   * After any run, a control packet is sent exactly when the buffer has room for
   * its trailer, it has a header of version 2, its SSRC is known or fewer than
   * 2048 are, and fewer than 2^31 were sent under it; it takes their number for
   * its index.
   */
  lemma ControlIsSentIff(k: Keys, calls: seq<Send.Call>, packet: seq<byte>, capacity: nat)
    requires IdealKeys(k)
    ensures var (t, es) := Send.Run(k, calls);
            var r := Send.SendRtcp(k, t, packet, capacity).1;
            && (r.Ok? <==>
                  && capacity >= |packet| + (if k.profile == Gcm then 20 else 14)
                  && |packet| >= 8 && packet[0] / 64 == 2
                  && (Word(packet, 4) in Known(es) || |Known(es)| < 2048)
                  && ControlsOf(es, Word(packet, 4)) < 0x8000_0000)
            && (r.Ok? ==> r.value.index == ControlsOf(es, Word(packet, 4)))
  {
    var (t, es) := Send.Run(k, calls);
    RunKeys(k, calls);
    assert |t| == |t.Keys|;
    if |packet| >= 8 {
      RunCountsControls(k, calls, Word(packet, 4));
      assert Send.IndicesInRange(t);
    }
  }
}
