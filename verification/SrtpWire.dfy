/**
 * Protected packets octet by octet (RFC 3711 sections 3.1 and 3.4, RFC 7714
 * sections 8 and 9): what is in the clear, what is encrypted, and what every
 * authentication tag covers, when sending and when receiving.
 */
module SrtpWire {
  import opened Bytes
  import opened IndexWindows
  import opened Octets
  import opened SrtpPacket
  import opened SrtpStreams
  import opened Wrappers
  import RtpPackets
  import Receive = SrtpReceive
  import Send = SrtpSend
  import SrtpEndToEnd
  import SrtpFields

  // ── Media ─────────────────────────────────────────────────────────────

  /** The rollover counter of a packet index. */
  function Roc(index: nat): u32
    requires index < 0x1_0000_0000_0000
  {
    index / 0x1_0000
  }

  /**
   * The packet up to `off` in the clear, the rest encrypted, then the tag: under
   * GCM over both, under AES-CM over both and the rollover counter.
   */
  ghost predicate MediaSays(p: Profile, c: Cipher, packet: seq<byte>, off: nat, iv: seq<byte>, index: nat, wire: seq<byte>)
    requires index < 0x1_0000_0000_0000
  {
    var n := |packet|;
    && off <= n && n <= |wire| && wire[..off] == packet[..off]
    && if p == Gcm then
         |wire| == n + 16 && c.seal(iv, packet[..off], packet[off..]) == (wire[off..n], wire[n..])
       else
         && |wire| == n + 10 && |c.keystream(iv, n - off)| == n - off
         && wire[off..n] == Xor(packet[off..], c.keystream(iv, n - off))
         && wire[n..] <= c.mac(wire[..n] + W(Roc(index)))
  }

  lemma Parts(head: seq<byte>, body: seq<byte>, tag: seq<byte>, wire: seq<byte>)
    requires wire == head + body + tag
    ensures var i, n := |head|, |head| + |body|;
            wire[..i] == head && wire[i..n] == body && wire[n..] == tag && wire[..n] == head + body
  {
  }

  lemma ProtectedSays(p: Profile, c: Cipher, packet: seq<byte>, h: Header, index: nat)
    requires Ideal(c, p) && h.len <= |packet| && index < INDEX_SPACE
    ensures MediaSays(p, c, packet, h.len, RtpIvOf(p, c.salt, h.ssrc, index), index, ProtectRtp(p, c, packet, h, index))
  {
    var head, body, iv := packet[..h.len], packet[h.len..], RtpIvOf(p, c.salt, h.ssrc, index);
    var wire := ProtectRtp(p, c, packet, h, index);
    if p == Gcm {
      Parts(head, c.seal(iv, head, body).0, c.seal(iv, head, body).1, wire);
    } else {
      var text := Xor(body, c.keystream(iv, |body|));
      Parts(head, text, c.mac(head + text + W(Roc(index)))[..10], wire);
    }
  }

  /** What is sent for a packet that the RTP parser reads: its header in the clear, under the IV of its SSRC and index. */
  lemma MediaIsLaidOut(k: Keys, packet: seq<byte>, index: nat, parsed: RtpPackets.RtpPacket)
    requires IdealKeys(k) && RtpPackets.Parse(packet) == Ok(parsed) && index < INDEX_SPACE
    ensures RtpHeader(packet).Ok?
    ensures var iv := RtpIvOf(k.profile, k.rtp.salt, parsed.Ssrc(), index);
            && SrtpFields.IvSays(k.profile, k.rtp.salt, iv, false, parsed.Ssrc(), index)
            && MediaSays(k.profile, k.rtp, packet, parsed.payloadOff, iv, index,
                         ProtectRtp(k.profile, k.rtp, packet, RtpHeader(packet).value, index))
  {
    SrtpFields.HeaderIsParsed(packet);
    ProtectedSays(k.profile, k.rtp, packet, RtpHeader(packet).value, index);
    if k.profile == Gcm {
      SrtpFields.RtpIvSays(k.rtp.salt, parsed.Ssrc(), index);
    } else {
      SrtpFields.CmRtpIvSays(k.rtp.salt, parsed.Ssrc(), index);
    }
  }

  /** The tag is right for header, body and rollover counter, and this is what comes out. */
  ghost predicate MediaOpens(p: Profile, c: Cipher, buf: seq<byte>, off: nat, iv: seq<byte>, index: nat, plain: seq<byte>)
    requires index < 0x1_0000_0000_0000
  {
    var n := |buf| - if p == Gcm then 16 else 10;
    && off <= n
    && if p == Gcm then
         var r := c.open(iv, buf[..off], buf[off..n], buf[n..]);
         r.Some? && plain == buf[..off] + r.value
       else
         && buf[n..] <= c.mac(buf[..n] + W(Roc(index))) && |c.keystream(iv, n - off)| == n - off
         && plain == buf[..off] + Xor(buf[off..n], c.keystream(iv, n - off))
  }

  lemma TagMatches(mac: seq<byte>, tag: seq<byte>)
    requires |mac| >= |tag| == 10
    ensures mac[..10] == tag <==> tag <= mac
  {
  }

  /** A protected packet is opened under an index exactly when its tag is right, and comes out decrypted. */
  lemma OpensIff(p: Profile, c: Cipher, buf: seq<byte>, h: Header, index: nat, plain: seq<byte>)
    requires Ideal(c, p) && h.len <= |buf| - TagLen(p) && index < INDEX_SPACE
    ensures UnprotectRtp(p, c, buf, h, index) == Some(plain) <==>
              MediaOpens(p, c, buf, h.len, RtpIvOf(p, c.salt, h.ssrc, index), index, plain)
  {
    if p == Gcm { GcmOpensIff(c, buf, h, index, plain); } else { CmOpensIff(c, buf, h, index, plain); }
  }

  lemma GcmOpensIff(c: Cipher, buf: seq<byte>, h: Header, index: nat, plain: seq<byte>)
    requires Ideal(c, Gcm) && h.len <= |buf| - 16 && index < INDEX_SPACE
    ensures UnprotectRtp(Gcm, c, buf, h, index) == Some(plain) <==>
              MediaOpens(Gcm, c, buf, h.len, RtpIvOf(Gcm, c.salt, h.ssrc, index), index, plain)
  {
  }

  lemma CmOpensIff(c: Cipher, buf: seq<byte>, h: Header, index: nat, plain: seq<byte>)
    requires Ideal(c, Cm) && h.len <= |buf| - 10 && index < INDEX_SPACE
    ensures UnprotectRtp(Cm, c, buf, h, index) == Some(plain) <==>
              MediaOpens(Cm, c, buf, h.len, RtpIvOf(Cm, c.salt, h.ssrc, index), index, plain)
  {
    TagMatches(c.mac(buf[..|buf| - 10] + W(Roc(index))), buf[|buf| - 10..]);
  }

  // ── Control ───────────────────────────────────────────────────────────

  /** The index word: the top bit says that the body is encrypted. */
  function Trailer(index: nat, encrypt: bool): (s: seq<byte>)
    requires index < 0x8000_0000
    ensures |s| == 4
  {
    W(index + if encrypt then 0x8000_0000 else 0)
  }

  /**
   * Eight octets in the clear and the rest encrypted, or all in the clear. Under
   * GCM the tag, over header and index word, stands before that word; under
   * AES-CM it stands behind it, over everything.
   */
  ghost predicate ControlSays(p: Profile, c: Cipher, packet: seq<byte>, iv: seq<byte>, word: seq<byte>, encrypt: bool, wire: seq<byte>)
    requires |packet| >= 8 && |word| == 4
  {
    var n := |packet|;
    if p == Gcm then
      && |wire| == n + 20 && wire[n + 16..] == word
      && (if encrypt then
            wire[..8] == packet[..8] && c.seal(iv, packet[..8] + word, packet[8..]) == (wire[8..n], wire[n..n + 16])
          else wire[..n] == packet && c.seal(iv, packet + word, []).1 == wire[n..n + 16])
    else
      && |wire| == n + 14 && wire[n..n + 4] == word && wire[n + 4..] <= c.mac(wire[..n + 4])
      && (if encrypt then
            && wire[..8] == packet[..8] && |c.keystream(iv, n - 8)| == n - 8
            && wire[8..n] == Xor(packet[8..], c.keystream(iv, n - 8))
          else wire[..n] == packet)
  }

  lemma FourParts(a: seq<byte>, b: seq<byte>, t: seq<byte>, z: seq<byte>, wire: seq<byte>)
    requires wire == a + b + t + z
    ensures var i, n, m := |a|, |a| + |b|, |a| + |b| + |t|;
            && wire[..i] == a && wire[i..n] == b && wire[n..m] == t && wire[m..] == z
            && wire[..n] == a + b && wire[..m] == a + b + t
  {
  }

  lemma SealedSays(p: Profile, c: Cipher, packet: seq<byte>, iv: seq<byte>, word: seq<byte>, encrypt: bool)
    requires Ideal(c, p) && |packet| >= 8 && |word| == 4
    ensures ControlSays(p, c, packet, iv, word, encrypt, SealRtcp(p, c, packet, iv, word, encrypt))
  {
    var head, body, wire := packet[..8], packet[8..], SealRtcp(p, c, packet, iv, word, encrypt);
    assert head + body == packet;
    if p == Gcm {
      if encrypt {
        FourParts(head, c.seal(iv, head + word, body).0, c.seal(iv, head + word, body).1, word, wire);
      } else {
        FourParts(head, body, c.seal(iv, packet + word, []).1, word, wire);
      }
    } else {
      var shown := if encrypt then Xor(body, c.keystream(iv, |body|)) else body;
      FourParts(head, shown, word, c.mac(head + shown + word)[..10], wire);
    }
  }

  /** What is sent for a control packet, under the IV of the SSRC in its octets 4 to 7 and its index. */
  lemma ControlIsLaidOut(k: Keys, packet: seq<byte>, index: nat, encrypt: bool)
    requires IdealKeys(k) && |packet| >= 8 && index < 0x8000_0000
    ensures var iv := RtcpIvOf(k.profile, k.rtcp.salt, Word(packet, 4), index);
            && SrtpFields.IvSays(k.profile, k.rtcp.salt, iv, true, Word(packet, 4), index)
            && ControlSays(k.profile, k.rtcp, packet, iv, Trailer(index, encrypt), encrypt,
                           ProtectRtcp(k.profile, k.rtcp, packet, index, encrypt))
  {
    SealedSays(k.profile, k.rtcp, packet, RtcpIvOf(k.profile, k.rtcp.salt, Word(packet, 4), index), Trailer(index, encrypt), encrypt);
    if k.profile == Gcm {
      SrtpFields.RtcpIvSays(k.rtcp.salt, Word(packet, 4), index);
    } else {
      SrtpFields.CmRtcpIvSays(k.rtcp.salt, Word(packet, 4), index);
    }
  }

  /** The tag is right for what it covers, and this is what comes out, decrypted when the word says so. */
  ghost predicate ControlOpens(p: Profile, c: Cipher, buf: seq<byte>, iv: seq<byte>, word: seq<byte>, encrypted: bool, plain: seq<byte>)
    requires |buf| >= 28 || (p == Cm && |buf| >= 22)
  {
    if p == Gcm then
      var n := |buf| - 20;
      if encrypted then
        var r := c.open(iv, buf[..8] + word, buf[8..n], buf[n..n + 16]);
        r.Some? && plain == buf[..8] + r.value
      else c.open(iv, buf[..n] + word, [], buf[n..n + 16]).Some? && plain == buf[..n]
    else
      var n := |buf| - 14;
      && buf[n + 4..] <= c.mac(buf[..n + 4])
      && (if encrypted then |c.keystream(iv, n - 8)| == n - 8 && plain == buf[..8] + Xor(buf[8..n], c.keystream(iv, n - 8))
          else plain == buf[..n])
  }

  lemma OpenedIff(p: Profile, c: Cipher, buf: seq<byte>, iv: seq<byte>, word: seq<byte>, encrypted: bool, plain: seq<byte>)
    requires Ideal(c, p) && |buf| >= 12 + TagLen(p) && |word| == 4
    ensures OpenRtcp(p, c, buf, iv, word, encrypted) == Some(plain) <==> ControlOpens(p, c, buf, iv, word, encrypted, plain)
  {
    if p == Cm { TagMatches(c.mac(buf[..|buf| - 10]), buf[|buf| - 10..]); }
  }

  lemma ControlParts(p: Profile, buf: seq<byte>, at: nat, word: u32)
    requires |buf| >= 12 + TagLen(p) && at == |buf| - (if p == Gcm then 4 else 14) && word == Word(buf, at)
    ensures IndexWord(p, buf) == word && RtcpSsrc(buf) == Word(buf, 4) && Be32(word) == W(word)
  {
  }

  /** Where the index word stands, and how it reads. */
  lemma ControlOpensIff(p: Profile, c: Cipher, buf: seq<byte>, plain: seq<byte>, at: nat, word: u32, iv: seq<byte>)
    requires Ideal(c, p) && |buf| >= 12 + TagLen(p)
    requires at == |buf| - (if p == Gcm then 4 else 14) && word == Word(buf, at)
    requires iv == RtcpIvOf(p, c.salt, Word(buf, 4), word % 0x8000_0000)
    ensures UnprotectRtcp(p, c, buf) == Some(plain) <==>
              ControlOpens(p, c, buf, iv, W(word), word >= 0x8000_0000, plain)
  {
    ControlParts(p, buf, at, word);
    OpenedIff(p, c, buf, iv, W(word), word >= 0x8000_0000, plain);
  }

  // ── What a receiver makes of any octets ───────────────────────────────

  predicate Roomy(t: Table, ssrc: u32) {
    ssrc in t || |t| < 2048
  }

  /** Octets too short for a header and a tag, or without a whole header before the tag, are refused. */
  lemma MediaRefusals(p: Profile, c: Cipher, t: Table, buf: seq<byte>, tag: nat)
    requires Ideal(c, p) && tag == if p == Gcm then 16 else 10
    ensures |buf| < 12 + tag ==> Receive.ReceiveRtp(p, c, t, buf) == (t, Err(TooShort))
    ensures |buf| >= 12 + tag && (RtpHeader(buf).Err? || RtpHeader(buf).value.len > |buf| - tag) ==>
              Receive.ReceiveRtp(p, c, t, buf) == (t, Err(Malformed))
  {
  }

  /** All others by their tag and index: GCM looks at the index first, AES-CM at the tag. */
  lemma MediaOutcome(p: Profile, c: Cipher, t: Table, buf: seq<byte>, h: Header, index: nat, plain: Option<seq<byte>>, unseen: bool)
    requires Ideal(c, p) && |buf| >= 12 + TagLen(p) && RtpHeader(buf) == Ok(h) && h.len <= |buf| - TagLen(p)
    requires index == Lookup(t, h.ssrc).rtp.Guess(h.seqNo) && index < INDEX_SPACE
    requires plain == UnprotectRtp(p, c, buf, h, index) && unseen == Lookup(t, h.ssrc).rtp.Check(index)
    ensures Receive.ReceiveRtp(p, c, t, buf) ==
            if plain.None? then (t, Err(if p == Gcm && !unseen then Replayed else AuthFailed))
            else if !unseen then (t, Err(Replayed))
            else if !Roomy(t, h.ssrc) then (t, Err(TooManyStreams))
            else (SrtpFields.MediaRecorded(t, h.ssrc, index), Ok(plain.value))
  {
  }

  lemma ControlRefusals(p: Profile, c: Cipher, t: Table, buf: seq<byte>, tag: nat)
    requires Ideal(c, p) && tag == if p == Gcm then 16 else 10
    ensures |buf| < 12 + tag ==> Receive.ReceiveRtcp(p, c, t, buf) == (t, Err(TooShort))
    ensures |buf| >= 12 + tag && buf[0] / 64 != 2 ==> Receive.ReceiveRtcp(p, c, t, buf) == (t, Err(Malformed))
  {
  }

  lemma ControlAccepted(p: Profile, c: Cipher, t: Table, buf: seq<byte>, ssrc: u32, index: nat, plain: Option<seq<byte>>, unseen: bool)
    requires Ideal(c, p) && |buf| >= 12 + TagLen(p) && buf[0] / 64 == 2
    requires ssrc == RtcpSsrc(buf) && index == IndexWord(p, buf) % E_BIT
    requires plain == UnprotectRtcp(p, c, buf) && unseen == Lookup(t, ssrc).rtcp.Check(index)
    ensures Receive.AcceptRtcp(p, c, t, buf) ==
            if plain.None? then Err(if p == Gcm && !unseen then Replayed else AuthFailed)
            else if !unseen then Err(Replayed)
            else Ok(Receive.Accepted(ssrc, index, plain.value))
  {
  }

  lemma ControlOutcome(p: Profile, c: Cipher, t: Table, buf: seq<byte>, at: nat, ssrc: u32, index: nat,
                       plain: Option<seq<byte>>, unseen: bool)
    requires Ideal(c, p) && |buf| >= 12 + TagLen(p) && buf[0] / 64 == 2 && at == |buf| - (if p == Gcm then 4 else 14)
    requires ssrc == Word(buf, 4) && index == Word(buf, at) % 0x8000_0000
    requires plain == UnprotectRtcp(p, c, buf) && unseen == Lookup(t, ssrc).rtcp.Check(index)
    ensures Receive.ReceiveRtcp(p, c, t, buf) ==
            if plain.None? then (t, Err(if p == Gcm && !unseen then Replayed else AuthFailed))
            else if !unseen then (t, Err(Replayed))
            else if !Roomy(t, ssrc) then (t, Err(TooManyStreams))
            else (t[ssrc := Lookup(t, ssrc).(rtcp := Lookup(t, ssrc).rtcp.Record(index))], Ok(plain.value))
  {
    ControlParts(p, buf, at, Word(buf, at));
    ControlAccepted(p, c, t, buf, ssrc, index, plain, unseen);
  }

  // ── What a sender refuses ─────────────────────────────────────────────

  /** Why a media packet is not sent, in the order in which reasons are looked for; the table stays as it was. */
  lemma MediaNotSent(k: Keys, t: Table, packet: seq<byte>, capacity: nat, tag: nat, e: Error)
    requires IdealKeys(k) && Send.IndicesInRange(t) && tag == if k.profile == Gcm then 16 else 10
    requires Send.SendRtp(k, t, packet, capacity).1 == Err(e)
    ensures Send.SendRtp(k, t, packet, capacity).0 == t
    ensures e ==
            if capacity < |packet| + tag then BufferTooSmall
            else if |packet| < 12 then TooShort
            else if RtpHeader(packet).Err? then Malformed
            else if !Roomy(t, Word(packet, 8)) then TooManyStreams
            else if Lookup(t, Word(packet, 8)).rtp.SendIndex(Read16(packet[2], packet[3])).None? then IndexExhausted
            else IndexReuse
  {
    SrtpFields.HeaderIsParsed(packet);
  }

  /** The same for a control packet. */
  lemma ControlNotSent(k: Keys, t: Table, packet: seq<byte>, capacity: nat, tag: nat, e: Error)
    requires IdealKeys(k) && Send.IndicesInRange(t) && tag == if k.profile == Gcm then 16 else 10
    requires Send.SendRtcp(k, t, packet, capacity).1 == Err(e)
    ensures Send.SendRtcp(k, t, packet, capacity).0 == t
    ensures e ==
            if capacity < |packet| + 4 + tag then BufferTooSmall
            else if |packet| < 8 then TooShort
            else if packet[0] / 64 != 2 then Malformed
            else if !Roomy(t, Word(packet, 4)) then TooManyStreams
            else IndexExhausted
  {
  }

  // ── Everything a sender puts on the wire ──────────────────────────────

  /**
   * Over any run, what goes out for each packet: a media packet protected behind
   * its header, a control packet encrypted behind its first eight octets, under
   * the IV and the index of its emission.
   */
  lemma EmissionsAreLaidOut(k: Keys, calls: seq<Send.Call>, i: nat, e: Send.Emission)
    requires IdealKeys(k) && i < |Send.Run(k, calls).1| && e == Send.Run(k, calls).1[i]
    ensures e.rtcp ==>
              && |e.packet| >= 8 && e.index < 0x8000_0000
              && ControlSays(k.profile, k.rtcp, e.packet, e.iv, Trailer(e.index, true), true, e.wire)
    ensures !e.rtcp ==>
              && RtpHeader(e.packet).Ok? && e.index < 0x1_0000_0000_0000
              && MediaSays(k.profile, k.rtp, e.packet, RtpHeader(e.packet).value.len, e.iv, e.index, e.wire)
  {
    Send.RunRemembers(k, calls);
    assert Send.IvIsProper(k, e);
    SrtpEndToEnd.RunCarries(k, calls);
    assert SrtpEndToEnd.Carries(k, e);
    if e.rtcp {
      SealedSays(k.profile, k.rtcp, e.packet, e.iv, Trailer(e.index, true), true);
    } else {
      ProtectedSays(k.profile, k.rtp, e.packet, RtpHeader(e.packet).value, e.index);
    }
  }
}
