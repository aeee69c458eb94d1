/** Which chunks the builder writes, in the format's own terms. */
module TwccGreedy {
  import opened Bits
  import opened Buffers
  import opened Bytes
  import opened TwccChunks
  import opened TwccChunkBuilder
  import opened TwccFeedback
  import opened TwccSegments
  import TwccBodies

  /** So many absent packets' symbols. */
  function Blank(n: nat): (s: seq<nat>)
    ensures |s| == n
  {
    seq(n, i => 0)
  }

  /** Some of the first 14 statuses has a delta that one octet cannot hold. */
  predicate LargeAhead(ss: seq<Status>) {
    exists i :: 0 <= i < |ss| && i < 14 && ss[i].Received? && !(0 <= ss[i].delta <= 255)
  }

  function Taken(ss: seq<Status>): (k: nat)
    ensures k <= |ss|
  {
    if LargeAhead(ss) then (if |ss| < 7 then |ss| else 7) else if |ss| < 14 then |ss| else 14
  }

  /** A two-bit vector of the next seven when a large delta is ahead, else a one-bit vector of the next 14; blanks fill the last one. */
  function NextSegment(ss: seq<Status>): Segment {
    var k := Taken(ss);
    if LargeAhead(ss) then Wide(SymbolsOf(ss[..k]) + Blank(7 - k)) else Narrow(SymbolsOf(ss[..k]) + Blank(14 - k))
  }

  lemma NarrowBlank(ss: seq<Status>, chunk: u16, i: nat)
    requires Fits(false, ss) && chunk == Packed(false, ss) && |ss| <= i < 14
    ensures NarrowSymbol(chunk, i) == 0
  {
    LowOne(Shr(chunk, 13 - i));
    BitOfShr(chunk, 13 - i, 0);
    PackedBit(false, ss, 13 - i);
  }

  lemma WideBlank(ss: seq<Status>, chunk: u16, i: nat)
    requires Fits(true, ss) && chunk == Packed(true, ss) && |ss| <= i < 7
    ensures WideSymbol(chunk, i) == 0
  {
    var p := 12 - 2 * i;
    LowTwo(Shr(chunk, p));
    BitOfShr(chunk, p, 0);
    BitOfShr(chunk, p, 1);
    PackedBit(true, ss, p);
    PackedBit(true, ss, p + 1);
  }

  lemma Flags(wide: bool, ss: seq<Status>, chunk: u16)
    requires Fits(wide, ss) && chunk == Packed(wide, ss)
    ensures IsVector(chunk) && (IsWide(chunk) <==> wide)
  {
    PackedBit(wide, ss, 15);
    PackedBit(wide, ss, 14);
    assert !wide ==> forall k :: 0 <= k < |ss| ==> !SetsBit(wide, ss, k, 14);
  }

  lemma PackedSymbols(wide: bool, ss: seq<Status>, chunk: u16)
    requires Fits(wide, ss) && chunk == Packed(wide, ss)
    ensures Symbols(chunk) == SymbolsOf(ss) + Blank((if wide then 7 else 14) - |ss|)
  {
    Flags(wide, ss, chunk);
    PackedReads(wide, ss, chunk);
    forall i | |ss| <= i < |Symbols(chunk)| ensures Symbols(chunk)[i] == 0 {
      if wide { WideBlank(ss, chunk, i); } else { NarrowBlank(ss, chunk, i); }
    }
    var s := Symbols(chunk);
    assert s == s[..|ss|] + s[|ss|..];
    assert s[|ss|..] == Blank(|s| - |ss|);
  }

  /** A vector word is the word of its symbols. */
  lemma VectorWord(chunk: u16)
    requires IsVector(chunk)
    ensures chunk == WordOf(if IsWide(chunk) then Wide(Symbols(chunk)) else Narrow(Symbols(chunk)))
  {
    var s := SegmentOf(chunk);
    WordIsSegment(chunk);
    SegmentReads(s);
    match s {
      case Run(symbol, length) => RunReads(symbol, length);
      case Narrow(symbols) => NarrowReads(symbols, chunk);
      case Wide(symbols) => WideReads(symbols, chunk);
    }
  }

  lemma ChoiceIs(ss: seq<Status>)
    requires ss != []
    ensures ChunkAt(ss) == Choice(Taken(ss), LargeAhead(ss))
  {
    var n := TwccChunkBuilder.Least(|ss|, 14);
    if LargeAhead(ss) {
      var i :| 0 <= i < |ss| && i < 14 && ss[i].Received? && !(0 <= ss[i].delta <= 255);
      assert Symbol(ss[..n][i]) == 2;
    }
  }

  /** The chunks written are those words, one after the other. */
  lemma WrittenChunks(ss: seq<Status>)
    requires ss != []
    ensures Taken(ss) > 0 && Chunks(ss) == [WordOf(NextSegment(ss))] + Chunks(ss[Taken(ss)..])
  {
    ChoiceIs(ss);
    ChoiceFits(ss);
    ChunksUnfold(ss);
    var wide, k := LargeAhead(ss), Taken(ss);
    PackedSymbols(wide, ss[..k], FirstOf(ss));
    Flags(wide, ss[..k], FirstOf(ss));
    VectorWord(FirstOf(ss));
  }

  // ── The whole body written ────────────────────────────────────────────

  function Segments(ss: seq<Status>): (r: seq<Segment>)
    ensures forall i :: 0 <= i < |r| ==> WellFormed(r[i])
    decreases |ss|
  {
    if ss == [] then []
    else
      SegmentFits(ss);
      WrittenChunks(ss);
      [NextSegment(ss)] + Segments(ss[Taken(ss)..])
  }

  lemma SegmentFits(ss: seq<Status>)
    requires ss != []
    ensures WellFormed(NextSegment(ss))
  {
    var k := Taken(ss);
    if !LargeAhead(ss) {
      forall i | 0 <= i < k ensures SymbolsOf(ss[..k])[i] < 2 { assert ss[..k][i] == ss[i]; }
    }
  }

  lemma {:induction false} ChunksAreSegments(ss: seq<Status>)
    ensures Words(Chunks(ss)) == TwccBodies.ChunkRegion(Segments(ss))
    decreases |ss|
  {
    if ss != [] {
      WrittenChunks(ss);
      SegmentFits(ss);
      ChunksAreSegments(ss[Taken(ss)..]);
      Below16(NextSegment(ss));
      RegionUnfold(NextSegment(ss), Segments(ss[Taken(ss)..]));
      WordsUnfold(WordOf(NextSegment(ss)), Chunks(ss[Taken(ss)..]));
    }
  }

  lemma RegionUnfold(s: Segment, tail: seq<Segment>)
    requires WellFormed(s) && TwccBodies.AllWellFormed(tail)
    ensures TwccBodies.AllWellFormed([s] + tail)
    ensures TwccBodies.ChunkRegion([s] + tail) == TwccBodies.SegmentOctets(s) + TwccBodies.ChunkRegion(tail)
  {
    assert ([s] + tail)[1..] == tail;
  }

  lemma WordsUnfold(w: u16, ws: seq<u16>)
    ensures Words([w] + ws) == [w / 256, w % 256] + Words(ws)
  {
    assert ([w] + ws)[1..] == ws;
  }

  /** What the format says of a status: one octet for a delta of 0 to 255, two for any other. */
  function CodeFor(s: Status): TwccBodies.Code {
    if s.NotReceived? then TwccBodies.Missing
    else if 0 <= s.delta <= 255 then TwccBodies.Small(s.delta)
    else TwccBodies.Large(s.delta)
  }

  function Codes(ss: seq<Status>): (cs: seq<TwccBodies.Code>)
    ensures |cs| == |ss| && forall i :: 0 <= i < |cs| ==> cs[i] == CodeFor(ss[i])
  {
    seq(|ss|, i requires 0 <= i < |ss| => CodeFor(ss[i]))
  }

  lemma {:induction false} DeltasAreOctets(ss: seq<Status>)
    requires AllEncodable(ss)
    ensures TwccBodies.AllInRange(Codes(ss)) && DeltasOf(ss) == TwccBodies.AllOctets(Codes(ss))
  {
    forall i | 0 <= i < |ss| ensures TwccBodies.InRange(Codes(ss)[i]) { assert Encodable(ss[i]); }
    if ss != [] {
      DeltasAreOctets(ss[1..]);
      assert Codes(ss)[1..] == Codes(ss[1..]);
      DeltaIs(ss[0]);
    }
  }

  lemma DeltaIs(s: Status)
    requires Encodable(s)
    ensures TwccBodies.InRange(CodeFor(s)) && DeltaOf(s) == TwccBodies.Octets(CodeFor(s))
  {
  }

  function HeadFor(r: Report): seq<byte> {
    [r.baseSeq / 256, r.baseSeq % 256, |r.statuses| / 256, |r.statuses| % 256,
     r.refTime / 0x1_0000, r.refTime / 256 % 256, r.refTime % 256, r.fbCount]
  }

  lemma HeadIs(r: Report)
    ensures FciHead(r) == HeadFor(r)
  {
  }

  lemma FewNulls(r: Report)
    ensures 0 <= Total(r) - Unpadded(r) < 4 && |Fci(r)| % 4 == 0
  {
    TotalFits(r);
    PacketLength(r);
  }

  /** The body that is written: the greedy segments, the deltas, and up to three nulls. */
  lemma WrittenBodyIs(r: Report) returns (nulls: seq<byte>)
    ensures |nulls| < 4 && forall i :: 0 <= i < |nulls| ==> nulls[i] == 0
    ensures TwccBodies.AllInRange(Codes(r.statuses)) && |Fci(r)| % 4 == 0
    ensures Fci(r) ==
            HeadFor(r) + (TwccBodies.ChunkRegion(Segments(r.statuses)) + (TwccBodies.AllOctets(Codes(r.statuses)) + nulls))
  {
    FewNulls(r);
    nulls := Zeros(Total(r) - Unpadded(r));
    HeadIs(r);
    ChunksAreSegments(r.statuses);
    DeltasAreOctets(r.statuses);
  }
}
