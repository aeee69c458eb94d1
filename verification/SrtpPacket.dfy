/**
 * The wire form of protected packets: IV formation, the header fields SRTP
 * needs, and the protect/unprotect transforms of AES-GCM (RFC 7714) and
 * AES-CM with HMAC-SHA1-80 (RFC 3711). The ciphers themselves are parameters.
 */
module SrtpPacket {
  import opened Wrappers
  import opened Bytes
  import opened IndexWindows

  datatype Profile = Gcm | Cm

  datatype Error =
    | TooShort
    | Malformed
    | BufferTooSmall
    | AuthFailed
    | Replayed
    | TooManyStreams
    | IndexReuse
    | IndexExhausted

  const GCM_SALT_LEN := 12
  const CM_SALT_LEN := 14
  const GCM_TAG_LEN := 16
  const CM_TAG_LEN := 10

  /** Value of the E flag inside the SRTCP index word, and the number of SRTCP indices. */
  const E_BIT := 0x8000_0000

  function TagLen(p: Profile): nat {
    if p == Gcm then GCM_TAG_LEN else CM_TAG_LEN
  }

  /** The keyed primitives of one session cipher together with its session salt. */
  datatype Cipher = Cipher(
    salt: seq<byte>,
    seal: (seq<byte>, seq<byte>, seq<byte>) -> (seq<byte>, seq<byte>),
    open: (seq<byte>, seq<byte>, seq<byte>, seq<byte>) -> Option<seq<byte>>,
    keystream: (seq<byte>, nat) -> seq<byte>,
    mac: seq<byte> -> seq<byte>)

  /** What is asked of the primitives: sizes, and that opening undoes sealing. */
  ghost predicate Ideal(c: Cipher, p: Profile) {
    && |c.salt| == (if p == Gcm then GCM_SALT_LEN else CM_SALT_LEN)
    && (forall iv, aad, plain :: |c.seal(iv, aad, plain).0| == |plain| && |c.seal(iv, aad, plain).1| == GCM_TAG_LEN)
    && (forall iv, aad, plain ::
          c.open(iv, aad, c.seal(iv, aad, plain).0, c.seal(iv, aad, plain).1) == Some(plain))
    && (forall iv, aad, text, tag :: c.open(iv, aad, text, tag).Some? ==> |c.open(iv, aad, text, tag).value| == |text|)
    && (forall iv, n :: |c.keystream(iv, n)| == n)
    && (forall m :: |c.mac(m)| >= CM_TAG_LEN)
  }

  /** The fixed part of one direction: profile and the two session ciphers. */
  datatype Keys = Keys(profile: Profile, rtp: Cipher, rtcp: Cipher)

  ghost predicate IdealKeys(k: Keys) {
    Ideal(k.rtp, k.profile) && Ideal(k.rtcp, k.profile)
  }

  // ------------------------------------------------------------------------
  // IV formation
  // ------------------------------------------------------------------------

  /** 48-bit big-endian packet index. */
  function Be48(i: nat): (s: seq<byte>)
    requires i < INDEX_SPACE
    ensures |s| == 6
  {
    Be16(i / 0x1_0000_0000) + Be32(i % 0x1_0000_0000)
  }

  /** GCM, SRTP: `(00 00 || SSRC || ROC || SEQ) XOR salt`. */
  function RtpIv(salt: seq<byte>, ssrc: u32, index: nat): (iv: seq<byte>)
    requires |salt| == GCM_SALT_LEN && index < INDEX_SPACE
    ensures |iv| == 12
  {
    Xor(salt, [0, 0] + Be32(ssrc) + Be32(index / SEQ_SPACE) + Be16(index % SEQ_SPACE))
  }

  /** GCM, SRTCP: `(00 00 || SSRC || 00 00 || index) XOR salt`. */
  function RtcpIv(salt: seq<byte>, ssrc: u32, index: nat): (iv: seq<byte>)
    requires |salt| == GCM_SALT_LEN && index < E_BIT
    ensures |iv| == 12
  {
    Xor(salt, [0, 0] + Be32(ssrc) + [0, 0] + Be32(index))
  }

  /** AES-CM, SRTP: salt XOR (SSRC at octet 4, index at octet 8), then a zero block counter. */
  function CmRtpIv(salt: seq<byte>, ssrc: u32, index: nat): (iv: seq<byte>)
    requires |salt| == CM_SALT_LEN && index < INDEX_SPACE
    ensures |iv| == 16
  {
    Xor(salt, [0, 0, 0, 0] + Be32(ssrc) + Be48(index)) + [0, 0]
  }

  /** AES-CM, SRTCP: the same with the 31-bit index at octet 10. */
  function CmRtcpIv(salt: seq<byte>, ssrc: u32, index: nat): (iv: seq<byte>)
    requires |salt| == CM_SALT_LEN && index < E_BIT
    ensures |iv| == 16
  {
    Xor(salt, [0, 0, 0, 0] + Be32(ssrc) + [0, 0] + Be32(index)) + [0, 0]
  }

  function RtpIvOf(p: Profile, salt: seq<byte>, ssrc: u32, index: nat): seq<byte>
    requires |salt| == (if p == Gcm then GCM_SALT_LEN else CM_SALT_LEN) && index < INDEX_SPACE
  {
    if p == Gcm then RtpIv(salt, ssrc, index) else CmRtpIv(salt, ssrc, index)
  }

  function RtcpIvOf(p: Profile, salt: seq<byte>, ssrc: u32, index: nat): seq<byte>
    requires |salt| == (if p == Gcm then GCM_SALT_LEN else CM_SALT_LEN) && index < E_BIT
  {
    if p == Gcm then RtcpIv(salt, ssrc, index) else CmRtcpIv(salt, ssrc, index)
  }

  lemma Be32Injective(x: u32, y: u32)
    requires Be32(x) == Be32(y)
    ensures x == y
  {
    Read32OfBe32(x);
    Read32OfBe32(y);
  }

  lemma Be16Injective(x: u16, y: u16)
    requires Be16(x) == Be16(y)
    ensures x == y
  {
    assert Read16(Be16(x)[0], Be16(x)[1]) == x;
    assert Read16(Be16(y)[0], Be16(y)[1]) == y;
  }

  /** One IV never serves two (SSRC, index) pairs of a GCM session. */
  lemma RtpIvInjective(salt: seq<byte>, ssrc: u32, index: nat, ssrc': u32, index': nat)
    requires |salt| == GCM_SALT_LEN && index < INDEX_SPACE && index' < INDEX_SPACE
    requires RtpIv(salt, ssrc, index) == RtpIv(salt, ssrc', index')
    ensures ssrc == ssrc' && index == index'
  {
    var f := [0, 0] + Be32(ssrc) + Be32(index / SEQ_SPACE) + Be16(index % SEQ_SPACE);
    var f' := [0, 0] + Be32(ssrc') + Be32(index' / SEQ_SPACE) + Be16(index' % SEQ_SPACE);
    XorCancels(salt, f, f');
    assert Be32(ssrc) == f[2..6] && Be32(ssrc') == f'[2..6];
    assert Be32(index / SEQ_SPACE) == f[6..10] && Be32(index' / SEQ_SPACE) == f'[6..10];
    assert Be16(index % SEQ_SPACE) == f[10..12] && Be16(index' % SEQ_SPACE) == f'[10..12];
    Be32Injective(ssrc, ssrc');
    Be32Injective(index / SEQ_SPACE, index' / SEQ_SPACE);
    Be16Injective(index % SEQ_SPACE, index' % SEQ_SPACE);
  }

  lemma RtcpIvInjective(salt: seq<byte>, ssrc: u32, index: nat, ssrc': u32, index': nat)
    requires |salt| == GCM_SALT_LEN && index < E_BIT && index' < E_BIT
    requires RtcpIv(salt, ssrc, index) == RtcpIv(salt, ssrc', index')
    ensures ssrc == ssrc' && index == index'
  {
    var f := [0, 0] + Be32(ssrc) + [0, 0] + Be32(index);
    var f' := [0, 0] + Be32(ssrc') + [0, 0] + Be32(index');
    XorCancels(salt, f, f');
    assert Be32(ssrc) == f[2..6] && Be32(ssrc') == f'[2..6];
    assert Be32(index) == f[8..12] && Be32(index') == f'[8..12];
    Be32Injective(ssrc, ssrc');
    Be32Injective(index, index');
  }

  /** An octet string as a big-endian number. */
  function Number(s: seq<byte>): nat {
    if s == [] then 0 else 256 * Number(s[..|s| - 1]) + s[|s| - 1]
  }

  lemma {:induction false} NumberInjective(s: seq<byte>, t: seq<byte>)
    requires |s| == |t| && Number(s) == Number(t)
    ensures s == t
  {
    if s != [] {
      var n := |s| - 1;
      NumberInjective(s[..n], t[..n]);
      assert s == s[..n] + [s[n]] && t == t[..n] + [t[n]];
    }
  }

  lemma NumberOfShifted(s: seq<byte>)
    ensures Number(s + [0, 0]) == 0x1_0000 * Number(s)
  {
    var t := s + [0, 0];
    assert t[..|t| - 1] == s + [0];
    assert (s + [0])[..|s|] == s;
  }

  /** The 128-bit AES input block `j` steps after `iv`. */
  function CounterBlock(iv: seq<byte>, j: nat): nat {
    (Number(iv) + j) % 0x1_0000_0000_0000_0000_0000_0000_0000_0000
  }

  /** The AES input blocks of a keystream of `blocks` blocks started at `iv`. */
  ghost function CounterBlocks(iv: seq<byte>, blocks: nat): set<nat> {
    set j: nat | j < blocks :: CounterBlock(iv, j)
  }

  function PowerOf256(n: nat): nat {
    if n == 0 then 1 else 256 * PowerOf256(n - 1)
  }

  lemma {:induction false} NumberBounded(s: seq<byte>)
    ensures Number(s) < PowerOf256(|s|)
  {
    if s != [] { NumberBounded(s[..|s| - 1]); }
  }

  /** Keystreams of at most 2^16 blocks under different IV prefixes use different counter blocks. */
  lemma CounterBlocksDisjoint(prefix: seq<byte>, prefix': seq<byte>, n: nat, n': nat)
    requires |prefix| == |prefix'| == 14 && prefix != prefix'
    requires n <= 0x1_0000 && n' <= 0x1_0000
    ensures CounterBlocks(prefix + [0, 0], n) !! CounterBlocks(prefix' + [0, 0], n')
  {
    if Number(prefix) == Number(prefix') { NumberInjective(prefix, prefix'); }
    forall j: nat, j': nat | j < n && j' < n'
      ensures CounterBlock(prefix + [0, 0], j) != CounterBlock(prefix' + [0, 0], j')
    {
      CounterBlockIs(prefix, j);
      CounterBlockIs(prefix', j');
    }
  }

  lemma CounterBlockIs(prefix: seq<byte>, j: nat)
    requires |prefix| == 14 && j < 0x1_0000
    ensures CounterBlock(prefix + [0, 0], j) == 0x1_0000 * Number(prefix) + j
  {
    NumberOfShifted(prefix);
    NumberBounded(prefix);
    assert PowerOf256(4) == 0x1_0000_0000;
    assert PowerOf256(8) == 0x1_0000_0000_0000_0000;
    assert PowerOf256(12) == 0x1_0000_0000_0000_0000_0000_0000;
    assert PowerOf256(14) == 0x1_0000_0000_0000_0000_0000_0000_0000;
  }

  lemma CmRtpIvInjective(salt: seq<byte>, ssrc: u32, index: nat, ssrc': u32, index': nat)
    requires |salt| == CM_SALT_LEN && index < INDEX_SPACE && index' < INDEX_SPACE
    requires CmRtpIv(salt, ssrc, index)[..14] == CmRtpIv(salt, ssrc', index')[..14]
    ensures ssrc == ssrc' && index == index'
  {
    var f := [0, 0, 0, 0] + Be32(ssrc) + Be48(index);
    var f' := [0, 0, 0, 0] + Be32(ssrc') + Be48(index');
    assert CmRtpIv(salt, ssrc, index)[..14] == Xor(salt, f);
    assert CmRtpIv(salt, ssrc', index')[..14] == Xor(salt, f');
    XorCancels(salt, f, f');
    assert Be32(ssrc) == f[4..8] && Be32(ssrc') == f'[4..8];
    assert Be16(index / 0x1_0000_0000) == f[8..10] && Be16(index' / 0x1_0000_0000) == f'[8..10];
    assert Be32(index % 0x1_0000_0000) == f[10..14] && Be32(index' % 0x1_0000_0000) == f'[10..14];
    Be32Injective(ssrc, ssrc');
    Be16Injective(index / 0x1_0000_0000, index' / 0x1_0000_0000);
    Be32Injective(index % 0x1_0000_0000, index' % 0x1_0000_0000);
  }

  lemma CmRtcpIvInjective(salt: seq<byte>, ssrc: u32, index: nat, ssrc': u32, index': nat)
    requires |salt| == CM_SALT_LEN && index < E_BIT && index' < E_BIT
    requires CmRtcpIv(salt, ssrc, index)[..14] == CmRtcpIv(salt, ssrc', index')[..14]
    ensures ssrc == ssrc' && index == index'
  {
    var f := [0, 0, 0, 0] + Be32(ssrc) + [0, 0] + Be32(index);
    var f' := [0, 0, 0, 0] + Be32(ssrc') + [0, 0] + Be32(index');
    assert CmRtcpIv(salt, ssrc, index)[..14] == Xor(salt, f);
    assert CmRtcpIv(salt, ssrc', index')[..14] == Xor(salt, f');
    XorCancels(salt, f, f');
    assert Be32(ssrc) == f[4..8] && Be32(ssrc') == f'[4..8];
    assert Be32(index) == f[10..14] && Be32(index') == f'[10..14];
    Be32Injective(ssrc, ssrc');
    Be32Injective(index, index');
  }

  // ------------------------------------------------------------------------
  // RTP packets
  // ------------------------------------------------------------------------

  /** The fields SRTP reads from an RTP header; `len` covers CSRCs and extension block. */
  datatype Header = Header(len: nat, seqNo: u16, ssrc: u32)

  function RtpHeader(buf: seq<byte>): (r: Result<Header, Error>)
    ensures r.Ok? ==> 12 <= r.value.len <= |buf|
  {
    if |buf| < 12 then Err(TooShort)
    else if buf[0] / 64 != 2 then Err(Malformed)
    else
      var fixed := 12 + 4 * (buf[0] % 16);
      if |buf| < fixed then Err(Malformed)
      else if buf[0] / 16 % 2 == 1 then
        if |buf| < fixed + 4 then Err(Malformed)
        else
          var len := fixed + 4 + 4 * Read16(buf[fixed + 2], buf[fixed + 3]);
          if |buf| < len then Err(Malformed)
          else Ok(Header(len, Read16(buf[2], buf[3]), Read32(buf[8], buf[9], buf[10], buf[11])))
      else Ok(Header(fixed, Read16(buf[2], buf[3]), Read32(buf[8], buf[9], buf[10], buf[11])))
  }

  /** Encrypting behind the header leaves the header readable. */
  lemma HeaderSurvives(packet: seq<byte>, rest: seq<byte>)
    requires RtpHeader(packet).Ok?
    ensures RtpHeader(packet[..RtpHeader(packet).value.len] + rest) == RtpHeader(packet)
  {
  }

  /** The protected form of an RTP packet at a given index. */
  function ProtectRtp(p: Profile, c: Cipher, packet: seq<byte>, h: Header, index: nat): (r: seq<byte>)
    requires Ideal(c, p) && h.len <= |packet| && index < INDEX_SPACE
    ensures |r| == |packet| + TagLen(p)
  {
    var head, body := packet[..h.len], packet[h.len..];
    var iv := RtpIvOf(p, c.salt, h.ssrc, index);
    if p == Gcm then
      var (text, tag) := c.seal(iv, head, body);
      head + text + tag
    else
      var sealed := head + Xor(body, c.keystream(iv, |body|));
      sealed + c.mac(sealed + Be32(index / SEQ_SPACE))[..CM_TAG_LEN]
  }

  /** Authenticating and decrypting a protected RTP packet under an assumed index. */
  function UnprotectRtp(p: Profile, c: Cipher, buf: seq<byte>, h: Header, index: nat): (r: Option<seq<byte>>)
    requires Ideal(c, p) && h.len <= |buf| - TagLen(p) && index < INDEX_SPACE
    ensures r.Some? ==> |r.value| == |buf| - TagLen(p)
  {
    var tagAt := |buf| - TagLen(p);
    var head, body, tag := buf[..h.len], buf[h.len..tagAt], buf[tagAt..];
    var iv := RtpIvOf(p, c.salt, h.ssrc, index);
    if p == Gcm then
      match c.open(iv, head, body, tag)
      case None => None
      case Some(plain) => Some(head + plain)
    else if c.mac(buf[..tagAt] + Be32(index / SEQ_SPACE))[..CM_TAG_LEN] != tag then None
    else Some(head + Xor(body, c.keystream(iv, |body|)))
  }

  /** A packet unprotected at the index it was protected at comes back unchanged. */
  lemma RtpRoundTrip(p: Profile, c: Cipher, packet: seq<byte>, index: nat)
    requires Ideal(c, p) && RtpHeader(packet).Ok? && index < INDEX_SPACE
    ensures var h := RtpHeader(packet).value; var wire := ProtectRtp(p, c, packet, h, index);
            && RtpHeader(wire) == Ok(h)
            && h.len <= |wire| - TagLen(p)
            && UnprotectRtp(p, c, wire, h, index) == Some(packet)
  {
    var h := RtpHeader(packet).value;
    var wire := ProtectRtp(p, c, packet, h, index);
    var head, body, tagAt := packet[..h.len], packet[h.len..], |packet|;
    var iv := RtpIvOf(p, c.salt, h.ssrc, index);
    assert wire == head + wire[h.len..];
    HeaderSurvives(packet, wire[h.len..]);
    assert packet == head + body;
    if p == Gcm {
      assert wire[h.len..tagAt] == c.seal(iv, head, body).0 && wire[tagAt..] == c.seal(iv, head, body).1;
    } else {
      var key := c.keystream(iv, |body|);
      assert wire[h.len..tagAt] == Xor(body, key);
      XorInvolutive(body, key);
      assert wire[..tagAt] == head + Xor(body, key);
    }
  }

  lemma XorInvolutive(a: seq<byte>, k: seq<byte>)
    requires |a| == |k|
    ensures Xor(Xor(a, k), k) == a
  {
    forall i | 0 <= i < |a|
      ensures Xor(Xor(a, k), k)[i] == a[i]
    {
      XorByteCommutes(a[i], k[i]);
      XorByteCancels(k[i], a[i]);
    }
  }

  // ------------------------------------------------------------------------
  // RTCP packets
  // ------------------------------------------------------------------------

  const SRTCP_HEADER_LEN := 8

  function RtcpSsrc(buf: seq<byte>): u32
    requires |buf| >= SRTCP_HEADER_LEN
  {
    Read32(buf[4], buf[5], buf[6], buf[7])
  }

  /**
   * Appending tag and index word in the profile's order, the body encrypted or
   * only authenticated.
   */
  function SealRtcp(p: Profile, c: Cipher, packet: seq<byte>, iv: seq<byte>, word: seq<byte>, encrypt: bool)
    : (r: seq<byte>)
    requires Ideal(c, p) && |packet| >= SRTCP_HEADER_LEN && |word| == 4
    ensures |r| == |packet| + 4 + TagLen(p)
  {
    var head, body := packet[..8], packet[8..];
    if p == Gcm then
      if encrypt then
        var sealed := c.seal(iv, head + word, body);
        head + sealed.0 + sealed.1 + word
      else packet + c.seal(iv, packet + word, []).1 + word
    else
      var sealed := (if encrypt then head + Xor(body, c.keystream(iv, |body|)) else packet) + word;
      sealed + c.mac(sealed)[..CM_TAG_LEN]
  }

  /** Authenticating an SRTCP packet and, when its E flag is set, decrypting its body. */
  function OpenRtcp(p: Profile, c: Cipher, buf: seq<byte>, iv: seq<byte>, word: seq<byte>, encrypted: bool)
    : (r: Option<seq<byte>>)
    requires Ideal(c, p) && |buf| >= SRTCP_HEADER_LEN + 4 + TagLen(p) && |word| == 4
    ensures r.Some? ==> |r.value| == |buf| - 4 - TagLen(p)
  {
    var end := |buf| - 4 - TagLen(p);
    var head, body := buf[..8], buf[8..end];
    if p == Gcm then
      var tag := buf[end..end + GCM_TAG_LEN];
      if encrypted then
        match c.open(iv, head + word, body, tag)
        case None => None
        case Some(plain) => Some(head + plain)
      else if c.open(iv, buf[..end] + word, [], tag).None? then None
      else Some(buf[..end])
    else if c.mac(buf[..end + 4])[..CM_TAG_LEN] != buf[end + 4..] then None
    else if encrypted then Some(head + Xor(body, c.keystream(iv, |body|)))
    else Some(buf[..end])
  }

  /** The index word: the E flag says whether the body is encrypted. */
  function IndexAndFlag(index: nat, encrypt: bool): u32
    requires index < E_BIT
  {
    if encrypt then E_BIT + index else index
  }

  /** The protected form of an RTCP packet at a given SRTCP index. */
  function ProtectRtcp(p: Profile, c: Cipher, packet: seq<byte>, index: nat, encrypt: bool): (r: seq<byte>)
    requires Ideal(c, p) && |packet| >= SRTCP_HEADER_LEN && index < E_BIT
    ensures |r| == |packet| + 4 + TagLen(p)
  {
    SealRtcp(p, c, packet, RtcpIvOf(p, c.salt, RtcpSsrc(packet), index), Be32(IndexAndFlag(index, encrypt)), encrypt)
  }

  /** The E/index word: last under GCM, before the tag under AES-CM. */
  function IndexWord(p: Profile, buf: seq<byte>): u32
    requires |buf| >= SRTCP_HEADER_LEN + 4 + TagLen(p)
  {
    var at := if p == Gcm then |buf| - 4 else |buf| - CM_TAG_LEN - 4;
    Read32(buf[at], buf[at + 1], buf[at + 2], buf[at + 3])
  }

  /** Authenticating and decrypting an SRTCP packet by the index it carries. */
  function UnprotectRtcp(p: Profile, c: Cipher, buf: seq<byte>): (r: Option<seq<byte>>)
    requires Ideal(c, p) && |buf| >= SRTCP_HEADER_LEN + 4 + TagLen(p)
    ensures r.Some? ==> |r.value| == |buf| - 4 - TagLen(p)
  {
    var word := IndexWord(p, buf);
    OpenRtcp(p, c, buf, RtcpIvOf(p, c.salt, RtcpSsrc(buf), word % E_BIT), Be32(word), word >= E_BIT)
  }

  /** An RTCP packet comes back unchanged, encrypted or not, and its index travels in the trailer. */
  lemma RtcpRoundTrip(p: Profile, c: Cipher, packet: seq<byte>, index: nat, encrypt: bool)
    requires Ideal(c, p) && |packet| >= SRTCP_HEADER_LEN && index < E_BIT
    ensures var wire := ProtectRtcp(p, c, packet, index, encrypt);
            && IndexWord(p, wire) % E_BIT == index && (IndexWord(p, wire) >= E_BIT <==> encrypt)
            && wire[..8] == packet[..8]
            && RtcpSsrc(wire) == RtcpSsrc(packet)
            && UnprotectRtcp(p, c, wire) == Some(packet)
  {
    var iv, flagged := RtcpIvOf(p, c.salt, RtcpSsrc(packet), index), IndexAndFlag(index, encrypt);
    var word := Be32(flagged);
    var wire := SealRtcp(p, c, packet, iv, word, encrypt);
    assert IndexWord(p, wire) == flagged && RtcpSsrc(wire) == RtcpSsrc(packet) && wire[..8] == packet[..8] by {
      RtcpTrailer(p, c, packet, iv, word, encrypt);
      Read32OfBe32(flagged);
    }
    FlagAndIndex(index, encrypt);
    assert OpenRtcp(p, c, wire, iv, word, encrypt) == Some(packet) by {
      if !encrypt { PlainSealOpens(p, c, packet, iv, word); }
      else if p == Gcm { GcmSealOpens(c, packet, iv, word); }
      else { CmSealOpens(c, packet, iv, word); }
    }
  }

  lemma FlagAndIndex(index: nat, encrypt: bool)
    requires index < E_BIT
    ensures IndexAndFlag(index, encrypt) % E_BIT == index
    ensures IndexAndFlag(index, encrypt) >= E_BIT <==> encrypt
  {
  }

  lemma RtcpTrailer(p: Profile, c: Cipher, packet: seq<byte>, iv: seq<byte>, word: seq<byte>, encrypt: bool)
    requires Ideal(c, p) && |packet| >= SRTCP_HEADER_LEN && |word| == 4
    ensures var wire := SealRtcp(p, c, packet, iv, word, encrypt);
            && IndexWord(p, wire) == Read32(word[0], word[1], word[2], word[3])
            && RtcpSsrc(wire) == RtcpSsrc(packet)
            && wire[..8] == packet[..8]
  {
    var wire := SealRtcp(p, c, packet, iv, word, encrypt);
    var at := if p == Gcm then |wire| - 4 else |wire| - CM_TAG_LEN - 4;
    assert wire[at..at + 4] == word;
    assert wire[at] == word[0] && wire[at + 1] == word[1] && wire[at + 2] == word[2] && wire[at + 3] == word[3];
    assert wire[..8] == packet[..8];
    assert forall i :: 0 <= i < 8 ==> wire[i] == wire[..8][i] == packet[i];
  }

  lemma PlainSealOpens(p: Profile, c: Cipher, packet: seq<byte>, iv: seq<byte>, word: seq<byte>)
    requires Ideal(c, p) && |packet| >= SRTCP_HEADER_LEN && |word| == 4
    ensures OpenRtcp(p, c, SealRtcp(p, c, packet, iv, word, false), iv, word, false) == Some(packet)
  {
    var wire := SealRtcp(p, c, packet, iv, word, false);
    var n := |packet|;
    if p == Gcm {
      var tag := c.seal(iv, packet + word, []).1;
      assert c.seal(iv, packet + word, []).0 == [];
      assert wire == packet + tag + word;
      assert wire[..n] == packet && wire[n..n + GCM_TAG_LEN] == tag;
    } else {
      var sealed := packet + word;
      assert wire == sealed + c.mac(sealed)[..CM_TAG_LEN];
      assert wire[..n + 4] == sealed && wire[..n] == packet;
    }
  }

  lemma GcmSealOpens(c: Cipher, packet: seq<byte>, iv: seq<byte>, word: seq<byte>)
    requires Ideal(c, Gcm) && |packet| >= SRTCP_HEADER_LEN && |word| == 4
    ensures OpenRtcp(Gcm, c, SealRtcp(Gcm, c, packet, iv, word, true), iv, word, true) == Some(packet)
  {
    var head, body := packet[..8], packet[8..];
    var sealed := c.seal(iv, head + word, body);
    FourParts(head, sealed.0, sealed.1, word);
    assert packet == head + body;
  }

  lemma CmSealOpens(c: Cipher, packet: seq<byte>, iv: seq<byte>, word: seq<byte>)
    requires Ideal(c, Cm) && |packet| >= SRTCP_HEADER_LEN && |word| == 4
    ensures OpenRtcp(Cm, c, SealRtcp(Cm, c, packet, iv, word, true), iv, word, true) == Some(packet)
  {
    var head, body := packet[..8], packet[8..];
    var key := c.keystream(iv, |body|);
    var sealed := head + Xor(body, key) + word;
    var tag := c.mac(sealed)[..CM_TAG_LEN];
    FourParts(head, Xor(body, key), word, tag);
    assert (sealed + tag)[..|packet| + 4] == sealed;
    XorInvolutive(body, key);
    assert packet == head + body;
  }

  lemma FourParts(a: seq<byte>, b: seq<byte>, c: seq<byte>, d: seq<byte>)
    ensures var w := a + b + c + d;
            && w[..|a|] == a
            && w[|a|..|a| + |b|] == b
            && w[|a| + |b|..|a| + |b| + |c|] == c
            && w[|a| + |b| + |c|..] == d
  {
  }
}
