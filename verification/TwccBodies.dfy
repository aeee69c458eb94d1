/**
 * Transport-wide feedback bodies as the format lays them out, whoever wrote
 * them: any mix of run and vector chunks, then the deltas. A body is accepted
 * exactly when it is laid out like that, and it decodes to what it says.
 */
module TwccBodies {
  import opened Bytes
  import opened Seqs
  import opened TwccChunks
  import Builder = TwccChunkBuilder
  import opened TwccSegments
  import opened Wrappers

  /** What a body says of one packet. */
  datatype Code = Missing | Small(octet: byte) | Large(delta: int) | Reserved

  predicate InRange(c: Code) {
    c.Large? ==> -0x8000 <= c.delta < 0x8000
  }

  function SymbolOf(c: Code): nat {
    match c
    case Missing => 0
    case Small(_) => 1
    case Large(_) => 2
    case Reserved => 3
  }

  /** A delta's octets, two's complement when there are two. */
  function Octets(c: Code): seq<byte>
    requires InRange(c)
  {
    match c
    case Missing => []
    case Small(d) => [d]
    case Large(d) => if d < 0 then [(d + 0x1_0000) / 256, d % 256] else [d / 256, d % 256]
    case Reserved => []
  }

  /** The status a packet is reported with. */
  function Seen(c: Code): Status {
    match c
    case Missing => NotReceived
    case Small(d) => Received(d)
    case Large(d) => Received(d)
    case Reserved => NotReceived
  }

  predicate AllInRange(cs: seq<Code>) {
    forall i :: 0 <= i < |cs| ==> InRange(cs[i])
  }

  function AllOctets(cs: seq<Code>): seq<byte>
    requires AllInRange(cs)
  {
    if cs == [] then [] else Octets(cs[0]) + AllOctets(cs[1..])
  }

  function CodeSymbols(cs: seq<Code>): (r: seq<nat>)
    ensures |r| == |cs|
  {
    seq(|cs|, i requires 0 <= i < |cs| => SymbolOf(cs[i]))
  }

  // ── Chunk regions ─────────────────────────────────────────────────────

  /** All symbols of the segments, in order. */
  function Fill(segments: seq<Segment>): seq<nat> {
    if segments == [] then [] else Meant(segments[0]) + Fill(segments[1..])
  }

  predicate AllWellFormed(segments: seq<Segment>) {
    forall i :: 0 <= i < |segments| ==> WellFormed(segments[i])
  }

  function SegmentOctets(s: Segment): (b: seq<byte>)
    requires WellFormed(s)
    ensures |b| == 2
  {
    Below16(s);
    [WordOf(s) / 256, WordOf(s) % 256]
  }

  function ChunkRegion(segments: seq<Segment>): (b: seq<byte>)
    requires AllWellFormed(segments)
    ensures |b| == 2 * |segments|
  {
    if segments == [] then [] else SegmentOctets(segments[0]) + ChunkRegion(segments[1..])
  }

  /** Segments with symbols for n statuses, none of them empty and the last one needed. */
  predicate Supplies(segments: seq<Segment>, n: nat) {
    && AllWellFormed(segments)
    && (forall i :: 0 <= i < |segments| ==> Meant(segments[i]) != [])
    && n <= |Fill(segments)|
    && (segments != [] ==> |Fill(segments[..|segments| - 1])| < n)
  }

  lemma FrontOfFill(segments: seq<Segment>)
    requires |segments| > 1
    ensures Fill(segments[..|segments| - 1]) == Meant(segments[0]) + Fill(segments[1..][..|segments| - 2])
  {
    assert segments[..|segments| - 1][1..] == segments[1..][..|segments| - 2];
  }

  lemma SuppliesTail(segments: seq<Segment>, n: nat)
    requires segments != [] && Supplies(segments, n)
    ensures n > 0 && Supplies(segments[1..], n - Builder.Least(|Meant(segments[0])|, n))
  {
    if |segments| > 1 { FrontOfFill(segments); }
  }

  lemma SuppliesMore(s: Segment, tail: seq<Segment>, n: nat)
    requires WellFormed(s) && Meant(s) != [] && n > 0
    requires Supplies(tail, n - Builder.Least(|Meant(s)|, n))
    ensures Supplies([s] + tail, n)
  {
    var segments := [s] + tail;
    assert segments[1..] == tail;
    if |segments| > 1 {
      FrontOfFill(segments);
    } else {
      assert segments[..0] == [];
    }
  }

  lemma SegmentOctetsRead(s: Segment)
    requires WellFormed(s)
    ensures Read16(SegmentOctets(s)[0], SegmentOctets(s)[1]) == WordOf(s)
  {
  }

  lemma FirstSegment(fci: seq<byte>, off: nat, end: nat, segments: seq<Segment>)
    requires segments != [] && AllWellFormed(segments) && off + 2 * |segments| == end <= |fci|
    requires fci[off..end] == ChunkRegion(segments)
    ensures WordOf(segments[0]) < 0x1_0000 && Read16(fci[off], fci[off + 1]) == WordOf(segments[0])
    ensures fci[off + 2..end] == ChunkRegion(segments[1..])
  {
    var all, front := fci[off..end], SegmentOctets(segments[0]);
    Below16(segments[0]);
    SegmentOctetsRead(segments[0]);
    assert all[0] == front[0] && all[1] == front[1];
    assert all[2..] == ChunkRegion(segments[1..]);
  }

  lemma FillSplits(s: Segment, tail: seq<nat>, n: nat)
    requires n <= |Meant(s) + tail|
    ensures var take := Builder.Least(|Meant(s)|, n);
            (n - take <= |tail|) && (Meant(s) + tail)[..n] == Meant(s)[..take] + tail[..n - take]
  {
  }

  lemma ScanOne(fci: seq<byte>, off: nat, left: nat, s: Segment, rest: Scanned)
    requires WellFormed(s) && Meant(s) != [] && left > 0 && off + 2 <= |fci|
    requires Read16(fci[off], fci[off + 1]) == WordOf(s)
    requires ScanFrom(fci, off + 2, left - Builder.Least(|Meant(s)|, left)) == Some(rest)
    ensures ScanFrom(fci, off, left) == Some(Scanned(rest.end, Meant(s)[..Builder.Least(|Meant(s)|, left)] + rest.symbols))
  {
    SegmentReads(s);
  }

  /** The scan takes exactly the segments that supply the statuses, and finds their symbols. */
  lemma {:induction false} RegionScans(fci: seq<byte>, off: nat, end: nat, segments: seq<Segment>, n: nat)
    requires Supplies(segments, n) && off + 2 * |segments| == end <= |fci|
    requires fci[off..end] == ChunkRegion(segments)
    ensures ScanFrom(fci, off, n) == Some(Scanned(end, Fill(segments)[..n]))
    decreases |segments|
  {
    if segments == [] {
    } else {
      FirstSegment(fci, off, end, segments);
      SuppliesTail(segments, n);
      var left := n - Builder.Least(|Meant(segments[0])|, n);
      RegionScans(fci, off + 2, end, segments[1..], left);
      RegionStep(fci, off, end, segments[0], Fill(segments[1..]), n, left);
    }
  }

  lemma RegionStep(fci: seq<byte>, off: nat, end: nat, s: Segment, tail: seq<nat>, n: nat, left: nat)
    requires WellFormed(s) && Meant(s) != [] && 0 < n <= |Meant(s) + tail|
    requires off + 2 <= end <= |fci| && Read16(fci[off], fci[off + 1]) == WordOf(s)
    requires left == n - Builder.Least(|Meant(s)|, n) && left <= |tail|
    requires ScanFrom(fci, off + 2, left) == Some(Scanned(end, tail[..left]))
    ensures ScanFrom(fci, off, n) == Some(Scanned(end, (Meant(s) + tail)[..n]))
  {
    ScanOne(fci, off, n, s, Scanned(end, tail[..left]));
    FillSplits(s, tail, n);
  }

  lemma FirstWordIs(fci: seq<byte>, off: nat) returns (s: Segment)
    requires off + 2 <= |fci|
    ensures WellFormed(s) && SegmentOctets(s) == fci[off..off + 2]
    ensures Meant(s) == Symbols(Read16(fci[off], fci[off + 1]))
  {
    var w := Read16(fci[off], fci[off + 1]);
    s := SegmentOf(w);
    WordIsSegment(w);
    SegmentReads(s);
    OctetsOfRead(fci[off], fci[off + 1]);
  }

  lemma OctetsOfRead(a: byte, b: byte)
    ensures Read16(a, b) / 256 == a && Read16(a, b) % 256 == b
  {
  }

  lemma ScanGoesOn(fci: seq<byte>, off: nat, n: nat, s: Segment)
    requires n > 0 && off + 2 <= |fci| && ScanFrom(fci, off, n).Some?
    requires Meant(s) == Symbols(Read16(fci[off], fci[off + 1]))
    ensures Meant(s) != []
    ensures ScanFrom(fci, off + 2, n - Builder.Least(|Meant(s)|, n)).Some?
    ensures ScanFrom(fci, off, n).value.end == ScanFrom(fci, off + 2, n - Builder.Least(|Meant(s)|, n)).value.end
  {
  }

  lemma RegionGrows(fci: seq<byte>, off: nat, end: nat, s: Segment, tail: seq<Segment>)
    requires WellFormed(s) && AllWellFormed(tail) && off + 2 <= end <= |fci|
    requires SegmentOctets(s) == fci[off..off + 2] && fci[off + 2..end] == ChunkRegion(tail)
    ensures AllWellFormed([s] + tail) && fci[off..end] == ChunkRegion([s] + tail)
  {
    assert ([s] + tail)[1..] == tail;
    assert fci[off..end] == fci[off..off + 2] + fci[off + 2..end];
  }

  /** Whatever the scan accepts is a region of segments that supply the statuses. */
  lemma {:induction false} ScannedIsRegion(fci: seq<byte>, off: nat, n: nat) returns (segments: seq<Segment>)
    requires off <= |fci| && ScanFrom(fci, off, n).Some?
    ensures var end := ScanFrom(fci, off, n).value.end;
            Supplies(segments, n) && off + 2 * |segments| == end && fci[off..end] == ChunkRegion(segments)
    decreases |fci| - off
  {
    if n == 0 {
      segments := [];
    } else {
      var s := FirstWordIs(fci, off);
      ScanGoesOn(fci, off, n, s);
      var tail := ScannedIsRegion(fci, off + 2, n - Builder.Least(|Meant(s)|, n));
      segments := [s] + tail;
      SuppliesMore(s, tail, n);
      RegionGrows(fci, off, off + 2 * |segments|, s, tail);
    }
  }

  // ── Deltas ────────────────────────────────────────────────────────────

  lemma OctetsRead(c: Code, rest: seq<byte>)
    requires InRange(c)
    ensures |Octets(c)| == DeltaBytes(SymbolOf(c)) && StatusOf(SymbolOf(c), Octets(c) + rest) == Seen(c)
  {
  }

  lemma SymbolsTail(cs: seq<Code>)
    requires cs != []
    ensures CodeSymbols(cs)[0] == SymbolOf(cs[0]) && CodeSymbols(cs)[1..] == CodeSymbols(cs[1..])
  {
  }

  lemma {:induction false} OctetsSuffice(cs: seq<Code>)
    requires AllInRange(cs)
    ensures Need(CodeSymbols(cs)) == |AllOctets(cs)|
    decreases |cs|
  {
    if cs != [] {
      NeedHead(CodeSymbols(cs));
      SymbolsTail(cs);
      OctetsRead(cs[0], []);
      OctetsSuffice(cs[1..]);
    }
  }

  /** Every packet's status under its sequence number, counting from `first` modulo 2^16. */
  function Report(first: u16, cs: seq<Code>): (items: seq<Item>)
    ensures |items| == |cs|
  {
    seq(|cs|, i requires 0 <= i < |cs| => Item((first + i) % 0x1_0000, Seen(cs[i])))
  }

  lemma ReportHead(first: u16, cs: seq<Code>)
    requires cs != []
    ensures Report(first, cs) == [Item(first, Seen(cs[0]))] + Report((first + 1) % 0x1_0000, cs[1..])
  {
    var next := (first + 1) % 0x1_0000;
    forall i | 0 < i < |cs|
      ensures Report(first, cs)[i] == Report(next, cs[1..])[i - 1]
    {
      WrapsAlike(first, i);
    }
  }

  lemma WrapsAlike(first: u16, i: nat)
    requires i > 0
    ensures (first + i) % 0x1_0000 == ((first + 1) % 0x1_0000 + (i - 1)) % 0x1_0000
  {
    if first + 1 == 0x1_0000 { assert (first + i) % 0x1_0000 == (i - 1) % 0x1_0000; }
  }

  lemma {:induction false} CodesDecode(cs: seq<Code>, first: u16)
    requires AllInRange(cs)
    ensures Need(CodeSymbols(cs)) <= |AllOctets(cs)|
    ensures Items(CodeSymbols(cs), AllOctets(cs), first) == Report(first, cs)
    decreases |cs|
  {
    OctetsSuffice(cs);
    if cs != [] {
      CodesDecode(cs[1..], NextSeq(first));
      OctetsRead(cs[0], AllOctets(cs[1..]));
      SymbolsTail(cs);
      assert AllOctets(cs)[DeltaBytes(SymbolOf(cs[0]))..] == AllOctets(cs[1..]);
      ReportHead(first, cs);
    }
  }

  /** The code a symbol and its delta octets stand for. */
  function CodeOf(symbol: nat, deltas: seq<byte>): (c: Code)
    requires DeltaBytes(symbol) <= |deltas|
    ensures InRange(c)
  {
    if symbol == 0 then Missing
    else if symbol == 1 then Small(deltas[0])
    else if symbol == 2 then
      var v := Read16(deltas[0], deltas[1]);
      Large(if v < 0x8000 then v else v - 0x1_0000)
    else Reserved
  }

  lemma CodeIsExact(symbol: nat, deltas: seq<byte>)
    requires symbol <= 3 && DeltaBytes(symbol) <= |deltas|
    ensures SymbolOf(CodeOf(symbol, deltas)) == symbol
    ensures Octets(CodeOf(symbol, deltas)) == deltas[..DeltaBytes(symbol)]
  {
  }

  /** Any delta octets that suffice for the symbols are those of some codes. */
  lemma {:induction false} DeltasAreCodes(symbols: seq<nat>, deltas: seq<byte>) returns (cs: seq<Code>)
    requires AllBelow(symbols, 4) && Need(symbols) <= |deltas|
    ensures AllInRange(cs) && CodeSymbols(cs) == symbols && AllOctets(cs) == deltas[..Need(symbols)]
    decreases |symbols|
  {
    if symbols == [] {
      cs := [];
    } else {
      NeedHead(symbols);
      var k := DeltaBytes(symbols[0]);
      var c := CodeOf(symbols[0], deltas);
      CodeIsExact(symbols[0], deltas);
      var tail := DeltasAreCodes(symbols[1..], deltas[k..]);
      cs := [c] + tail;
      CodesCons(c, tail, symbols);
      assert deltas[..k] + deltas[k..][..Need(symbols[1..])] == deltas[..Need(symbols)];
    }
  }

  lemma CodesCons(c: Code, tail: seq<Code>, symbols: seq<nat>)
    requires InRange(c) && AllInRange(tail)
    requires symbols != [] && SymbolOf(c) == symbols[0] && CodeSymbols(tail) == symbols[1..]
    ensures AllInRange([c] + tail) && CodeSymbols([c] + tail) == symbols
    ensures AllOctets([c] + tail) == Octets(c) + AllOctets(tail)
  {
    assert ([c] + tail)[1..] == tail;
    assert CodeSymbols([c] + tail) == [SymbolOf(c)] + CodeSymbols(tail);
  }

  // ── Bodies ────────────────────────────────────────────────────────────

  /** What a body says, how its chunks say it, and whatever octets stand behind it. */
  datatype Body = Body(
    baseSeq: u16,
    refTime: nat,
    fbCount: byte,
    segments: seq<Segment>,
    codes: seq<Code>,
    rest: seq<byte>)

  predicate Sayable(b: Body) {
    && b.refTime < 0x100_0000 && |b.codes| < 0x1_0000 && AllInRange(b.codes)
    && Supplies(b.segments, |b.codes|)
    && CodeSymbols(b.codes) == Fill(b.segments)[..|b.codes|]
  }

  function Head(b: Body): (s: seq<byte>)
    requires Sayable(b)
    ensures |s| == 8
  {
    [b.baseSeq / 256, b.baseSeq % 256, |b.codes| / 256, |b.codes| % 256,
     b.refTime / 0x1_0000, b.refTime / 256 % 256, b.refTime % 256, b.fbCount]
  }

  function WireOf(b: Body): seq<byte>
    requires Sayable(b)
  {
    Head(b) + (ChunkRegion(b.segments) + (AllOctets(b.codes) + b.rest))
  }

  lemma HeadReads(b: Body)
    requires Sayable(b)
    ensures var f := WireOf(b);
            && Read16(f[0], f[1]) == b.baseSeq && Read16(f[2], f[3]) == |b.codes|
            && Read24(f[4], f[5], f[6]) == b.refTime && f[7] == b.fbCount
  {
    var f, h := WireOf(b), Head(b);
    assert forall i :: 0 <= i < 8 ==> f[i] == h[i];
    assert b.refTime / 256 / 256 == b.refTime / 0x1_0000;
  }

  lemma BodySlices(b: Body)
    requires Sayable(b)
    ensures var f, end := WireOf(b), 8 + 2 * |b.segments|;
            && end + |AllOctets(b.codes)| <= |f|
            && f[8..end] == ChunkRegion(b.segments) && f[end..end + |AllOctets(b.codes)|] == AllOctets(b.codes)
  {
    MiddleSlices(Head(b), ChunkRegion(b.segments), AllOctets(b.codes), b.rest);
  }

  function Parsed(b: Body): Feedback
    requires Sayable(b)
  {
    Feedback(b.baseSeq, |b.codes|, b.refTime, b.fbCount, ChunkRegion(b.segments), AllOctets(b.codes))
  }

  lemma WireScans(b: Body)
    requires Sayable(b)
    ensures ScanFrom(WireOf(b), 8, |b.codes|) == Some(Scanned(8 + 2 * |b.segments|, CodeSymbols(b.codes)))
  {
    BodySlices(b);
    RegionScans(WireOf(b), 8, 8 + 2 * |b.segments|, b.segments, |b.codes|);
  }

  lemma FieldsRead(b: Body)
    requires Sayable(b)
    ensures var end := 8 + 2 * |b.segments|;
            && end + |AllOctets(b.codes)| <= |WireOf(b)|
            && BodyAt(WireOf(b), end, |AllOctets(b.codes)|) == Parsed(b)
  {
    HeadReads(b);
    BodySlices(b);
  }

  lemma WireParses(b: Body)
    requires Sayable(b)
    ensures ParseFci(WireOf(b)) == Some(Parsed(b))
  {
    HeadReads(b);
    FieldsRead(b);
    WireScans(b);
    OctetsSuffice(b.codes);
    ParsedWith(WireOf(b), |b.codes|, Scanned(8 + 2 * |b.segments|, CodeSymbols(b.codes)));
  }

  lemma RegionDecodes(b: Body)
    requires Sayable(b)
    ensures Parsed(b).statusCount <= |AllSymbols(Parsed(b).chunks)| && StatusSymbols(Parsed(b)) == CodeSymbols(b.codes)
  {
    var chunks := ChunkRegion(b.segments);
    assert chunks[0..|chunks|] == chunks;
    RegionScans(chunks, 0, |chunks|, b.segments, |b.codes|);
    ScannedIsPrefix(chunks, 0, |b.codes|);
  }

  /**
   * Every body laid out like this is accepted, whatever its mix of runs and
   * vectors and whatever follows it, and decodes to what it says.
   */
  lemma BodyReads(b: Body)
    requires Sayable(b)
    ensures ParseFci(WireOf(b)).Some?
    ensures var f := ParseFci(WireOf(b)).value;
            && f.baseSeq == b.baseSeq && f.statusCount == |b.codes|
            && f.referenceTime == b.refTime && f.feedbackCount == b.fbCount
            && f.statusCount <= |AllSymbols(f.chunks)| && Need(StatusSymbols(f)) == |f.deltas|
            && Items(StatusSymbols(f), f.deltas, f.baseSeq) == Report(b.baseSeq, b.codes)
  {
    WireParses(b);
    RegionDecodes(b);
    OctetsSuffice(b.codes);
    CodesDecode(b.codes, b.baseSeq);
  }

  // ── Nothing else is accepted ──────────────────────────────────────────

  lemma {:induction false} FillBelow(segments: seq<Segment>)
    requires AllWellFormed(segments)
    ensures AllBelow(Fill(segments), 4)
  {
    if segments != [] { FillBelow(segments[1..]); }
  }

  lemma HeadIsCut(fci: seq<byte>, b: Body)
    requires |fci| >= 8 && Sayable(b)
    requires b.baseSeq == Read16(fci[0], fci[1]) && |b.codes| == Read16(fci[2], fci[3])
    requires b.refTime == Read24(fci[4], fci[5], fci[6]) && b.fbCount == fci[7]
    ensures Head(b) == fci[..8]
  {
    ThreeOctets(fci[4], fci[5], fci[6]);
  }

  lemma ThreeOctets(a: byte, b: byte, c: byte)
    ensures Read24(a, b, c) / 0x1_0000 == a && Read24(a, b, c) / 256 % 256 == b && Read24(a, b, c) % 256 == c
  {
    assert Read24(a, b, c) / 256 == Read16(a, b);
    assert Read24(a, b, c) / 0x1_0000 == Read16(a, b) / 256;
  }

  lemma CutTogether(f: seq<byte>, i: nat, j: nat, k: nat)
    requires i <= j <= k <= |f|
    ensures f[..i] + (f[i..j] + (f[j..][..k - j] + f[k..])) == f
  {
  }

  lemma WireIsCut(fci: seq<byte>, b: Body, end: nat, last: nat)
    requires Sayable(b) && 8 <= end <= last <= |fci| && Head(b) == fci[..8]
    requires fci[8..end] == ChunkRegion(b.segments) && AllOctets(b.codes) == fci[end..][..last - end]
    requires b.rest == fci[last..]
    ensures WireOf(b) == fci
  {
    CutTogether(fci, 8, end, last);
  }

  lemma AcceptedParts(fci: seq<byte>)
    requires ParseFci(fci).Some?
    ensures |fci| >= 8
    ensures var r := ScanFrom(fci, 8, Read16(fci[2], fci[3]));
            r.Some? && r.value.end + Need(r.value.symbols) <= |fci|
  {
  }

  /** The region and the codes that the scanned octets are. */
  lemma ScannedParts(fci: seq<byte>, n: nat, r: Scanned) returns (segments: seq<Segment>, codes: seq<Code>)
    requires 8 <= |fci| && ScanFrom(fci, 8, n) == Some(r) && r.end + Need(r.symbols) <= |fci|
    ensures |codes| == n && AllInRange(codes) && Supplies(segments, n) && CodeSymbols(codes) == Fill(segments)[..n]
    ensures fci[8..r.end] == ChunkRegion(segments) && AllOctets(codes) == fci[r.end..][..Need(r.symbols)]
  {
    segments := ScannedIsRegion(fci, 8, n);
    RegionScans(fci, 8, r.end, segments, n);
    FillBelow(segments);
    codes := DeltasAreCodes(r.symbols, fci[r.end..]);
  }

  /** Every accepted body is laid out like this. */
  lemma AcceptedIsWire(fci: seq<byte>) returns (b: Body)
    requires ParseFci(fci).Some?
    ensures Sayable(b) && WireOf(b) == fci
  {
    AcceptedParts(fci);
    var n := Read16(fci[2], fci[3]);
    var r := ScanFrom(fci, 8, n).value;
    var segments, codes := ScannedParts(fci, n, r);
    b := Body(Read16(fci[0], fci[1]), Read24(fci[4], fci[5], fci[6]), fci[7], segments, codes, fci[r.end + Need(r.symbols)..]);
    HeadIsCut(fci, b);
    WireIsCut(fci, b, r.end, r.end + Need(r.symbols));
  }

  /** A body is accepted exactly when it is laid out like this. */
  lemma AcceptedIff(fci: seq<byte>)
    ensures ParseFci(fci).Some? <==> exists b :: Sayable(b) && WireOf(b) == fci
  {
    if ParseFci(fci).Some? {
      var b := AcceptedIsWire(fci);
    }
    forall b | Sayable(b) && WireOf(b) == fci
      ensures ParseFci(fci).Some?
    {
      BodyReads(b);
    }
  }
}
