/**
 * The entries that RTCP packets list: report blocks, NACK pairs and FIR
 * requests, as written and as read.
 */
module RtcpEntries {
  import opened Bits
  import opened Bytes
  import opened RtcpBlocks
  import opened Seqs
  import opened TwccChunks
  import opened TwccFeedback

  /** Values of the 24-bit loss field. */
  const LOSS_SPACE := 0x100_0000

  datatype ReportBlock = ReportBlock(
    ssrc: u32,
    fractionLost: byte,
    cumulativeLost: i32,
    highestSeq: u32,
    jitter: u32,
    lsr: u32,
    dlsr: u32)

  /** A lost packet and a mask over the sixteen that follow it. */
  datatype NackEntry = NackEntry(pid: u16, blp: u16)

  datatype FirEntry = FirEntry(ssrc: u32, seqNo: byte)

  // ── Report blocks ─────────────────────────────────────────────────────

  /** The low 24 bits of a 32-bit two's-complement number. */
  function Low24(x: i32): u32 {
    x % LOSS_SPACE
  }

  /** A 24-bit field sign-extended. */
  function Signed24(x: u32): i32
    requires x < LOSS_SPACE
  {
    if x < LOSS_SPACE / 2 then x else x - LOSS_SPACE
  }

  function ReportBytes(r: ReportBlock): (s: seq<byte>)
    ensures |s| == 24
  {
    Be32(r.ssrc) + ([r.fractionLost] + Be24(Low24(r.cumulativeLost)) + BeWords([r.highestSeq, r.jitter, r.lsr, r.dlsr]))
  }

  function ParseReport(b: seq<byte>): ReportBlock
    requires |b| == 24
  {
    ReportBlock(Word(b, 0), b[4], Signed24(Read24(b[5], b[6], b[7])), Word(b, 8), Word(b, 12), Word(b, 16), Word(b, 20))
  }

  /** The block as its loss field can carry it. */
  function Carried(r: ReportBlock): ReportBlock {
    r.(cumulativeLost := Signed24(Low24(r.cumulativeLost)))
  }

  /** A report block is carried unchanged exactly when its loss count is a 24-bit signed number. */
  lemma CarriedIff(r: ReportBlock)
    ensures Carried(r) == r <==> -(LOSS_SPACE / 2) <= r.cumulativeLost < LOSS_SPACE / 2
  {
  }

  lemma FourWords(a: u32, b: u32, c: u32, d: u32, pre: seq<byte>)
    requires |pre| == 8
    ensures var s := pre + BeWords([a, b, c, d]);
            Word(s, 8) == a && Word(s, 12) == b && Word(s, 16) == c && Word(s, 20) == d
  {
    var xs, w := [a, b, c, d], BeWords([a, b, c, d]);
    assert w + [] == w;
    WordsRead(xs, 0, []);
    WordsRead(xs, 1, []);
    WordsRead(xs, 2, []);
    WordsRead(xs, 3, []);
    forall i | 0 <= i < 4 ensures Word(pre + w, 8 + 4 * i) == Word(w, 4 * i) { WordBehind(pre, w, 4 * i); }
  }

  lemma WordBehind(pre: seq<byte>, s: seq<byte>, at: nat)
    requires at + 4 <= |s|
    ensures Word(pre + s, |pre| + at) == Word(s, at)
  {
    var t, k := pre + s, |pre| + at;
    assert t[k] == s[at] && t[k + 1] == s[at + 1] && t[k + 2] == s[at + 2] && t[k + 3] == s[at + 3];
  }

  lemma ReportReadsBack(r: ReportBlock)
    ensures ParseReport(ReportBytes(r)) == Carried(r)
  {
    var loss := Be24(Low24(r.cumulativeLost));
    var tail := BeWords([r.highestSeq, r.jitter, r.lsr, r.dlsr]);
    var b := ReportBytes(r);
    WordWritten([], r.ssrc, [r.fractionLost] + loss + tail);
    assert [] + b == b;
    assert b == (Be32(r.ssrc) + ([r.fractionLost] + loss)) + tail;
    FourWords(r.highestSeq, r.jitter, r.lsr, r.dlsr, Be32(r.ssrc) + ([r.fractionLost] + loss));
    Read24OfBe24(Low24(r.cumulativeLost));
    assert b[4] == r.fractionLost && b[5] == loss[0] && b[6] == loss[1] && b[7] == loss[2];
  }

  // ── Lists of entries ──────────────────────────────────────────────────

  function ReportParts(rs: seq<ReportBlock>): (ps: seq<seq<byte>>)
    ensures |ps| == |rs| && forall i :: 0 <= i < |ps| ==> ps[i] == ReportBytes(rs[i])
  {
    seq(|rs|, i requires 0 <= i < |rs| => ReportBytes(rs[i]))
  }

  function NackBytes(e: NackEntry): (s: seq<byte>)
    ensures |s| == 4
  {
    Be16(e.pid) + Be16(e.blp)
  }

  function NackParts(es: seq<NackEntry>): (ps: seq<seq<byte>>)
    ensures |ps| == |es| && forall i :: 0 <= i < |ps| ==> ps[i] == NackBytes(es[i])
  {
    seq(|es|, i requires 0 <= i < |es| => NackBytes(es[i]))
  }

  /** An entry: five octets are written, the three reserved ones are left as they are. */
  function FirBytes(e: FirEntry, reserved: seq<byte>): (s: seq<byte>)
    requires |reserved| == 3
    ensures |s| == 8
  {
    Be32(e.ssrc) + ([e.seqNo] + reserved)
  }

  /** The entries of a packet written over `under`. */
  function FirParts(es: seq<FirEntry>, under: seq<byte>): (ps: seq<seq<byte>>)
    requires |under| >= 12 + 8 * |es|
    ensures |ps| == |es| && forall i :: 0 <= i < |ps| ==> ps[i] == FirBytes(es[i], under[8 * i + 17..8 * i + 20])
  {
    seq(|es|, i requires 0 <= i < |es| => FirBytes(es[i], under[8 * i + 17..8 * i + 20]))
  }

  function ParseNack(b: seq<byte>): NackEntry
    requires |b| == 4
  {
    NackEntry(Read16(b[0], b[1]), Read16(b[2], b[3]))
  }

  function ParseFir(b: seq<byte>): FirEntry
    requires |b| == 8
  {
    FirEntry(Word(b, 0), b[4])
  }

  function Reports(data: seq<byte>): (rs: seq<ReportBlock>)
    ensures |rs| == |Pieces(data, 24)|
  {
    var ps := Pieces(data, 24);
    seq(|ps|, i requires 0 <= i < |ps| => ParseReport(ps[i]))
  }

  function Nacks(data: seq<byte>): (es: seq<NackEntry>)
    ensures |es| == |Pieces(data, 4)|
  {
    var ps := Pieces(data, 4);
    seq(|ps|, i requires 0 <= i < |ps| => ParseNack(ps[i]))
  }

  function Firs(data: seq<byte>): (es: seq<FirEntry>)
    ensures |es| == |Pieces(data, 8)|
  {
    var ps := Pieces(data, 8);
    seq(|ps|, i requires 0 <= i < |ps| => ParseFir(ps[i]))
  }

  function AllCarried(rs: seq<ReportBlock>): (ks: seq<ReportBlock>)
    ensures |ks| == |rs| && forall i :: 0 <= i < |ks| ==> ks[i] == Carried(rs[i])
  {
    seq(|rs|, i requires 0 <= i < |rs| => Carried(rs[i]))
  }

  lemma ReportsReadBack(rs: seq<ReportBlock>)
    ensures |Concat(ReportParts(rs))| == ReportsLen(|rs|)
    ensures Reports(Concat(ReportParts(rs))) == AllCarried(rs)
  {
    var ps := ReportParts(rs);
    ConcatSize(ps, 24);
    PiecesOfConcat(ps, 24, []);
    assert Concat(ps) + [] == Concat(ps);
    forall i | 0 <= i < |rs| ensures ParseReport(ps[i]) == Carried(rs[i]) { ReportReadsBack(rs[i]); }
  }

  lemma NackReadsBack(e: NackEntry)
    ensures ParseNack(NackBytes(e)) == e
  {
    Read16OfBe16(e.pid);
    Read16OfBe16(e.blp);
  }

  lemma NacksReadBack(es: seq<NackEntry>)
    ensures |Concat(NackParts(es))| == 4 * |es|
    ensures Nacks(Concat(NackParts(es))) == es
  {
    var ps := NackParts(es);
    ConcatSize(ps, 4);
    PiecesOfConcat(ps, 4, []);
    assert Concat(ps) + [] == Concat(ps);
    forall i | 0 <= i < |es| ensures ParseNack(ps[i]) == es[i] { NackReadsBack(es[i]); }
  }

  lemma FirReadsBack(e: FirEntry, reserved: seq<byte>)
    requires |reserved| == 3
    ensures ParseFir(FirBytes(e, reserved)) == e
  {
    WordWritten([], e.ssrc, [e.seqNo] + reserved);
    assert [] + FirBytes(e, reserved) == FirBytes(e, reserved);
  }

  lemma FirsReadBack(es: seq<FirEntry>, under: seq<byte>)
    requires |under| >= 12 + 8 * |es|
    ensures |Concat(FirParts(es, under))| == 8 * |es|
    ensures Firs(Concat(FirParts(es, under))) == es
  {
    var ps := FirParts(es, under);
    ConcatSize(ps, 8);
    PiecesOfConcat(ps, 8, []);
    assert Concat(ps) + [] == Concat(ps);
    forall i | 0 <= i < |es| ensures ParseFir(ps[i]) == es[i] { FirReadsBack(es[i], under[8 * i + 17..8 * i + 20]); }
  }

  /** A report reads back unchanged exactly when all its loss counts are 24-bit signed numbers. */
  lemma ReportsKeptIff(rs: seq<ReportBlock>)
    ensures AllCarried(rs) == rs <==>
            forall i :: 0 <= i < |rs| ==> -(LOSS_SPACE / 2) <= rs[i].cumulativeLost < LOSS_SPACE / 2
  {
    forall i | 0 <= i < |rs| ensures Carried(rs[i]) == rs[i] <==> -(LOSS_SPACE / 2) <= rs[i].cumulativeLost < LOSS_SPACE / 2 {
      CarriedIff(rs[i]);
    }
    if AllCarried(rs) == rs {
      forall i | 0 <= i < |rs| ensures Carried(rs[i]) == rs[i] { assert AllCarried(rs)[i] == rs[i]; }
    }
  }

  // ── Lost packets ──────────────────────────────────────────────────────

  /** The sequence numbers named by the mask's bits below `n`, lowest bit first. */
  function Following(e: NackEntry, n: nat): seq<u16> {
    if n == 0 then []
    else Following(e, n - 1) + (if Bit(e.blp, n - 1) then [(e.pid + n) % 0x1_0000] else [])
  }

  /** Every sequence number an entry reports as lost. */
  function Lost(e: NackEntry): seq<u16> {
    [e.pid] + Following(e, 16)
  }

  lemma {:induction false} FollowingHas(e: NackEntry, n: nat, k: nat)
    requires n <= 16 && k < 0x1_0000
    ensures (e.pid + k) % 0x1_0000 in Following(e, n) <==> 1 <= k <= n && Bit(e.blp, k - 1)
  {
    if n > 0 { FollowingHas(e, n - 1, k); }
  }

  /** The k-th packet behind the first is reported exactly when k is 0 or bit k - 1 of the mask is set. */
  lemma LostIff(e: NackEntry, k: nat)
    requires k < 0x1_0000
    ensures (e.pid + k) % 0x1_0000 in Lost(e) <==> k == 0 || (k <= 16 && Bit(e.blp, k - 1))
  {
    FollowingHas(e, 16, k);
    var rest := Following(e, 16);
    assert forall x :: x in Lost(e) <==> x == e.pid || x in rest;
  }
}
