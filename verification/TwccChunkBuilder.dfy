/**
 * Packing statuses into chunks greedily, and deltas behind them, and why what
 * is read back is what was packed.
 */
module TwccChunkBuilder {
  import opened Bits
  import opened Bytes
  import opened Seqs
  import opened TwccChunks
  import opened Wrappers

  predicate IsSmall(d: int) {
    0 <= d <= 255
  }

  /** The wire symbol: 0 not received, 1 small delta, 2 large or negative delta. */
  function Symbol(s: Status): (r: nat)
    ensures r <= 2
  {
    match s
    case NotReceived => 0
    case Received(d) => if IsSmall(d) then 1 else 2
  }

  function SymbolsOf(ss: seq<Status>): (r: seq<nat>)
    ensures |r| == |ss|
  {
    seq(|ss|, i requires 0 <= i < |ss| => Symbol(ss[i]))
  }

  predicate HasLarge(ss: seq<Status>) {
    exists i :: 0 <= i < |ss| && Symbol(ss[i]) == 2
  }

  function Least(a: nat, b: nat): nat {
    if a <= b then a else b
  }

  /** How many of the statuses the next chunk takes, and whether its symbols have two bits. */
  datatype Choice = Choice(take: nat, wide: bool)

  /** A one-bit vector of up to 14 if none of those is large, else a two-bit vector of up to 7. */
  function ChunkAt(ss: seq<Status>): (c: Choice)
    ensures c.take <= |ss| && (ss != [] ==> c.take > 0)
  {
    var narrow := Least(|ss|, 14);
    if HasLarge(ss[..narrow]) then Choice(Least(|ss|, 7), true) else Choice(narrow, false)
  }

  const VECTOR: nat := 0x8000
  const WIDE: nat := 0x4000

  function Base(wide: bool): nat {
    if wide then Or(VECTOR, WIDE) else VECTOR
  }

  function Position(wide: bool, k: nat): nat
    requires k < if wide then 7 else 14
  {
    if wide then 12 - 2 * k else 13 - k
  }

  /** The chunk with these symbols put in from the top. */
  function Packed(wide: bool, ss: seq<Status>): nat
    requires |ss| <= if wide then 7 else 14
  {
    if ss == [] then Base(wide)
    else Or(Packed(wide, ss[..|ss| - 1]), Shl(Symbol(ss[|ss| - 1]), Position(wide, |ss| - 1)))
  }

  lemma FlagBits(i: nat)
    ensures Bit(VECTOR, i) <==> i == 15
    ensures Bit(WIDE, i) <==> i == 14
  {
    assert Shl(1, 15) == VECTOR && Shl(1, 14) == WIDE;
    BitOfShl(1, 15, i);
    BitOfShl(1, 14, i);
    if i >= 15 { BitOfOne(i - 15); }
    if i >= 14 { BitOfOne(i - 14); }
  }

  lemma BaseBits(wide: bool, i: nat)
    ensures Bit(Base(wide), i) <==> i == 15 || (wide && i == 14)
  {
    FlagBits(i);
    BitOfOr(VECTOR, WIDE, i);
  }

  lemma SymbolBits(s: Status, i: nat)
    ensures Bit(Symbol(s), i) <==> (i == 0 && Symbol(s) == 1) || (i == 1 && Symbol(s) == 2)
  {
    ZeroHasNoBits(i);
    BitOfOne(i);
    if Symbol(s) == 2 {
      if i > 0 { BitOfOne(i - 1); }
    }
  }

  lemma ShiftedBits(s: Status, at: nat, i: nat)
    ensures Bit(Shl(Symbol(s), at), i) <==> (i == at && Symbol(s) == 1) || (i == at + 1 && Symbol(s) == 2)
  {
    BitOfShl(Symbol(s), at, i);
    if i >= at { SymbolBits(s, i - at); }
  }

  /** Symbol k sets bit i. */
  predicate SetsBit(wide: bool, ss: seq<Status>, k: nat, i: nat)
    requires k < |ss| <= if wide then 7 else 14
  {
    (i == Position(wide, k) && Symbol(ss[k]) == 1) || (i == Position(wide, k) + 1 && Symbol(ss[k]) == 2)
  }

  ghost predicate SomeSetsBit(wide: bool, ss: seq<Status>, i: nat)
    requires |ss| <= if wide then 7 else 14
  {
    exists k :: 0 <= k < |ss| && SetsBit(wide, ss, k, i)
  }

  lemma LastSetsBit(wide: bool, ss: seq<Status>, i: nat)
    requires 0 < |ss| <= if wide then 7 else 14
    ensures SomeSetsBit(wide, ss, i) <==> SomeSetsBit(wide, ss[..|ss| - 1], i) || SetsBit(wide, ss, |ss| - 1, i)
  {
    var n := |ss| - 1;
    assert forall k :: 0 <= k < n ==> (SetsBit(wide, ss[..n], k, i) <==> SetsBit(wide, ss, k, i));
  }

  /** The bits of a packed chunk: its flags, and the two bits of each symbol at its place. */
  lemma {:induction false} PackedBit(wide: bool, ss: seq<Status>, i: nat)
    requires |ss| <= if wide then 7 else 14
    ensures Bit(Packed(wide, ss), i) <==> i == 15 || (wide && i == 14) || SomeSetsBit(wide, ss, i)
  {
    BaseBits(wide, i);
    if ss != [] {
      var n := |ss| - 1;
      PackedBit(wide, ss[..n], i);
      LastSetsBit(wide, ss, i);
      BitOfOr(Packed(wide, ss[..n]), Shl(Symbol(ss[n]), Position(wide, n)), i);
      ShiftedBits(ss[n], Position(wide, n), i);
    }
  }

  lemma {:induction false} PackedBelow(wide: bool, ss: seq<Status>)
    requires |ss| <= if wide then 7 else 14
    ensures Packed(wide, ss) < Pow2(16)
  {
    if ss != [] {
      var n := |ss| - 1;
      PackedBelow(wide, ss[..n]);
      ShlBelow(Symbol(ss[n]), Position(wide, n), 2);
      Pow2Grows(2 + Position(wide, n), 16);
      OrBelow(Packed(wide, ss[..n]), Shl(Symbol(ss[n]), Position(wide, n)), 16);
    } else {
      Pow2Of16();
      OrBelow(VECTOR, WIDE, 16);
    }
  }

  predicate Fits(wide: bool, ss: seq<Status>) {
    if wide then |ss| <= 7 else |ss| <= 14 && !HasLarge(ss)
  }

  /** Places do not overlap: the two bits at symbol i's place are its own. */
  lemma WidePlace(ss: seq<Status>, i: nat)
    requires i < |ss| <= 7
    ensures SomeSetsBit(true, ss, 12 - 2 * i) <==> Symbol(ss[i]) == 1
    ensures SomeSetsBit(true, ss, 13 - 2 * i) <==> Symbol(ss[i]) == 2
  {
    assert SetsBit(true, ss, i, 12 - 2 * i) <==> Symbol(ss[i]) == 1;
    assert SetsBit(true, ss, i, 13 - 2 * i) <==> Symbol(ss[i]) == 2;
  }

  lemma NarrowPlace(ss: seq<Status>, i: nat)
    requires i < |ss| && Fits(false, ss)
    ensures SomeSetsBit(false, ss, 13 - i) <==> Symbol(ss[i]) == 1
  {
    assert SetsBit(false, ss, i, 13 - i) <==> Symbol(ss[i]) == 1;
  }

  lemma NarrowRead(ss: seq<Status>, chunk: u16, i: nat)
    requires Fits(false, ss) && chunk == Packed(false, ss) && i < |ss|
    ensures NarrowSymbol(chunk, i) == Symbol(ss[i])
  {
    LowOne(Shr(chunk, 13 - i));
    BitOfShr(chunk, 13 - i, 0);
    PackedBit(false, ss, 13 - i);
    NarrowPlace(ss, i);
  }

  lemma WideRead(ss: seq<Status>, chunk: u16, i: nat)
    requires Fits(true, ss) && chunk == Packed(true, ss) && i < |ss|
    ensures WideSymbol(chunk, i) == Symbol(ss[i])
  {
    var p := 12 - 2 * i;
    LowTwo(Shr(chunk, p));
    BitOfShr(chunk, p, 0);
    BitOfShr(chunk, p, 1);
    PackedBit(true, ss, p);
    PackedBit(true, ss, p + 1);
    WidePlace(ss, i);
  }

  /** A packed chunk starts with the symbols that were put in. */
  lemma PackedReads(wide: bool, ss: seq<Status>, chunk: u16)
    requires Fits(wide, ss) && chunk == Packed(wide, ss)
    ensures |Symbols(chunk)| == if wide then 7 else 14
    ensures Symbols(chunk)[..|ss|] == SymbolsOf(ss)
  {
    PackedBit(wide, ss, 15);
    PackedBit(wide, ss, 14);
    assert !wide ==> forall k :: 0 <= k < |ss| ==> !SetsBit(wide, ss, k, 14);
    forall i | 0 <= i < |ss| ensures Symbols(chunk)[i] == Symbol(ss[i]) {
      if wide { WideRead(ss, chunk, i); } else { NarrowRead(ss, chunk, i); }
    }
  }

  lemma ChoiceFits(ss: seq<Status>)
    ensures Fits(ChunkAt(ss).wide, ss[..ChunkAt(ss).take])
  {
  }

  // ── All chunks, and the deltas ────────────────────────────────────────

  function Chunk(wide: bool, ss: seq<Status>): u16
    requires |ss| <= if wide then 7 else 14
  {
    PackedBelow(wide, ss);
    Pow2Of16();
    Packed(wide, ss)
  }

  function Chunks(ss: seq<Status>): seq<u16>
    decreases |ss|
  {
    if ss == [] then []
    else
      var c := ChunkAt(ss);
      [Chunk(c.wide, ss[..c.take])] + Chunks(ss[c.take..])
  }

  function Words(ws: seq<u16>): (b: seq<byte>)
    ensures |b| == 2 * |ws|
  {
    if ws == [] then [] else Be16(ws[0]) + Words(ws[1..])
  }

  predicate Encodable(s: Status) {
    s.Received? ==> -0x8000 <= s.delta < 0x8000
  }

  predicate AllEncodable(ss: seq<Status>) {
    forall i :: 0 <= i < |ss| ==> Encodable(ss[i])
  }

  function Unsigned16(d: int): u16
    requires -0x8000 <= d < 0x8000
  {
    if d < 0 then d + 0x1_0000 else d
  }

  function DeltaOf(s: Status): (b: seq<byte>)
    requires Encodable(s)
    ensures |b| == DeltaBytes(Symbol(s))
  {
    if s.NotReceived? then []
    else if IsSmall(s.delta) then [s.delta]
    else Be16(Unsigned16(s.delta))
  }

  function DeltasOf(ss: seq<Status>): seq<byte>
    requires AllEncodable(ss)
  {
    if ss == [] then [] else DeltaOf(ss[0]) + DeltasOf(ss[1..])
  }

  lemma ScanOne(fci: seq<byte>, off: nat, left: nat, chunk: u16, take: nat, rest: Scanned)
    requires off + 2 <= |fci| && Read16(fci[off], fci[off + 1]) == chunk
    requires 0 < take <= left && take == Least(|Symbols(chunk)|, left)
    requires ScanFrom(fci, off + 2, left - take) == Some(rest)
    ensures ScanFrom(fci, off, left) == Some(Scanned(rest.end, Symbols(chunk)[..take] + rest.symbols))
  {
  }

  /** The first greedy chunk: the scan takes it whole and finds the symbols put in. */
  lemma FirstChunk(ss: seq<Status>)
    requires ss != []
    ensures var c := ChunkAt(ss);
            var chunk := Chunk(c.wide, ss[..c.take]);
            && c.take == Least(|Symbols(chunk)|, |ss|)
            && Symbols(chunk)[..c.take] == SymbolsOf(ss[..c.take])
  {
    ChoiceFits(ss);
    var c := ChunkAt(ss);
    PackedReads(c.wide, ss[..c.take], Chunk(c.wide, ss[..c.take]));
  }

  lemma SymbolsSplit(ss: seq<Status>, k: nat)
    requires k <= |ss|
    ensures SymbolsOf(ss[..k]) + SymbolsOf(ss[k..]) == SymbolsOf(ss)
  {
  }

  function FirstOf(ss: seq<Status>): u16 {
    Chunk(ChunkAt(ss).wide, ss[..ChunkAt(ss).take])
  }

  function LaterOf(ss: seq<Status>): seq<Status> {
    ss[ChunkAt(ss).take..]
  }

  lemma ChunksUnfold(ss: seq<Status>)
    requires ss != []
    ensures Chunks(ss) == [FirstOf(ss)] + Chunks(LaterOf(ss)) && |LaterOf(ss)| < |ss|
  {
  }

  lemma ChunksStep(fci: seq<byte>, off: nat, ss: seq<Status>)
    requires ss != [] && off + 2 <= |fci| && Read16(fci[off], fci[off + 1]) == FirstOf(ss)
    requires ScanFrom(fci, off + 2, |LaterOf(ss)|) ==
             Some(Scanned(off + 2 + 2 * |Chunks(LaterOf(ss))|, SymbolsOf(LaterOf(ss))))
    ensures ScanFrom(fci, off, |ss|) == Some(Scanned(off + 2 * |Chunks(ss)|, SymbolsOf(ss)))
  {
    ChunksUnfold(ss);
    FirstChunk(ss);
    var end := off + 2 + 2 * |Chunks(LaterOf(ss))|;
    ScanOne(fci, off, |ss|, FirstOf(ss), ChunkAt(ss).take, Scanned(end, SymbolsOf(LaterOf(ss))));
    SymbolsSplit(ss, ChunkAt(ss).take);
  }

  /** The scan takes each greedy chunk whole, and finds the symbols put in. */
  lemma {:induction false} ChunksScan(fci: seq<byte>, off: nat, ss: seq<Status>)
    requires off + 2 * |Chunks(ss)| <= |fci|
    requires fci[off..off + 2 * |Chunks(ss)|] == Words(Chunks(ss))
    ensures ScanFrom(fci, off, |ss|) == Some(Scanned(off + 2 * |Chunks(ss)|, SymbolsOf(ss)))
    decreases |ss|
  {
    if ss != [] {
      ChunksUnfold(ss);
      FirstWord(fci, off, FirstOf(ss), Chunks(LaterOf(ss)));
      ChunksScan(fci, off + 2, LaterOf(ss));
      ChunksStep(fci, off, ss);
    }
  }

  lemma FirstWord(fci: seq<byte>, off: nat, w: u16, ws: seq<u16>)
    requires off + 2 * |[w] + ws| <= |fci|
    requires fci[off..off + 2 * |[w] + ws|] == Words([w] + ws)
    ensures Read16(fci[off], fci[off + 1]) == w
    ensures fci[off + 2..off + 2 + 2 * |ws|] == Words(ws)
  {
    var all := fci[off..off + 2 * |[w] + ws|];
    assert ([w] + ws)[1..] == ws;
    assert all == Be16(w) + Words(ws);
    assert all[2..] == Words(ws);
    assert fci[off] == all[0] && fci[off + 1] == all[1];
    Read16OfBe16(w);
  }

  lemma SignedOfUnsigned(d: int)
    requires -0x8000 <= d < 0x8000
    ensures Signed16(Be16(Unsigned16(d))[0], Be16(Unsigned16(d))[1]) == d
  {
    Read16OfBe16(Unsigned16(d));
  }

  lemma StatusReads(s: Status, rest: seq<byte>)
    requires Encodable(s)
    ensures StatusOf(Symbol(s), DeltaOf(s) + rest) == s
  {
    if s.Received? && !IsSmall(s.delta) { SignedOfUnsigned(s.delta); }
  }

  lemma {:induction false} DeltasSuffice(ss: seq<Status>)
    requires AllEncodable(ss)
    ensures Need(SymbolsOf(ss)) == |DeltasOf(ss)|
    decreases |ss|
  {
    if ss != [] {
      NeedHead(SymbolsOf(ss));
      assert SymbolsOf(ss)[1..] == SymbolsOf(ss[1..]);
      DeltasSuffice(ss[1..]);
    }
  }

  function SeqAt(first: u16, i: nat): u16 {
    (first + i) % 0x1_0000
  }

  /** Each status under its own sequence number, counting from `first` with wrap-around. */
  function Numbered(first: u16, ss: seq<Status>): (items: seq<Item>)
    ensures |items| == |ss|
  {
    seq(|ss|, i requires 0 <= i < |ss| => Item(SeqAt(first, i), ss[i]))
  }

  lemma {:induction false} DeltasRead(ss: seq<Status>, first: u16)
    requires AllEncodable(ss)
    ensures Need(SymbolsOf(ss)) <= |DeltasOf(ss)|
    ensures Items(SymbolsOf(ss), DeltasOf(ss), first) == Numbered(first, ss)
    decreases |ss|
  {
    DeltasSuffice(ss);
    if ss != [] {
      DeltasRead(ss[1..], NextSeq(first));
      StatusReads(ss[0], DeltasOf(ss[1..]));
      assert SymbolsOf(ss)[1..] == SymbolsOf(ss[1..]);
      assert DeltasOf(ss)[DeltaBytes(Symbol(ss[0]))..] == DeltasOf(ss[1..]);
      NumberedHead(first, ss);
    }
  }

  lemma NumberedHead(first: u16, ss: seq<Status>)
    requires ss != []
    ensures Numbered(first, ss) == [Item(first, ss[0])] + Numbered(NextSeq(first), ss[1..])
  {
    forall i | 0 < i < |ss|
      ensures Numbered(first, ss)[i] == Numbered(NextSeq(first), ss[1..])[i - 1]
    {
      SeqAtNext(first, i);
    }
  }

  lemma SeqAtNext(first: u16, i: nat)
    requires i > 0
    ensures SeqAt(first, i) == SeqAt(NextSeq(first), i - 1)
  {
    if first + 1 == 0x1_0000 {
      assert (first + i) % 0x1_0000 == (i - 1) % 0x1_0000;
    }
  }
}
