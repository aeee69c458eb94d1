/**
 * Transport-wide congestion-control feedback: the packet-status symbols that
 * chunks stand for, the receive deltas they call for, and when a body is
 * accepted.
 */
module TwccChunks {
  import opened Bits
  import opened Bytes
  import opened Wrappers

  datatype Status = NotReceived | Received(delta: int)

  datatype Item = Item(seqNo: u16, status: Status)

  /** Is bit 15 set: a status vector rather than a run? */
  predicate IsVector(chunk: u16) {
    Bit(chunk, 15)
  }

  /** Bit 14 of a vector: two-bit symbols. */
  predicate IsWide(chunk: u16) {
    Bit(chunk, 14)
  }

  function RunLength(chunk: u16): nat {
    Low(chunk, 13)
  }

  function RunSymbol(chunk: u16): nat {
    Low(Shr(chunk, 13), 2)
  }

  function WideSymbol(chunk: u16, i: nat): nat
    requires i < 7
  {
    Low(Shr(chunk, 12 - 2 * i), 2)
  }

  function NarrowSymbol(chunk: u16, i: nat): nat
    requires i < 14
  {
    Low(Shr(chunk, 13 - i), 1)
  }

  /** The symbols of one chunk, in order. */
  function Symbols(chunk: u16): (s: seq<nat>)
    ensures |s| == if !IsVector(chunk) then RunLength(chunk) else if IsWide(chunk) then 7 else 14
  {
    if !IsVector(chunk) then seq(RunLength(chunk), i => RunSymbol(chunk))
    else if IsWide(chunk) then seq(7, i requires 0 <= i < 7 => WideSymbol(chunk, i))
    else seq(14, i requires 0 <= i < 14 => NarrowSymbol(chunk, i))
  }

  /** Delta bytes a symbol calls for; 3 is reserved and calls for none. */
  function DeltaBytes(symbol: nat): nat {
    if symbol == 1 then 1 else if symbol == 2 then 2 else 0
  }

  function Need(symbols: seq<nat>): nat {
    if symbols == [] then 0 else Need(symbols[..|symbols| - 1]) + DeltaBytes(symbols[|symbols| - 1])
  }

  lemma {:induction false} NeedSplits(a: seq<nat>, b: seq<nat>)
    ensures Need(a + b) == Need(a) + Need(b)
  {
    if b == [] {
      assert a + b == a;
    } else {
      assert (a + b)[..|a + b| - 1] == a + b[..|b| - 1];
      NeedSplits(a, b[..|b| - 1]);
    }
  }

  /** All symbols of a chunk region; an odd last byte is no chunk. */
  function AllSymbols(chunks: seq<byte>): seq<nat> {
    if |chunks| < 2 then [] else Symbols(Read16(chunks[0], chunks[1])) + AllSymbols(chunks[2..])
  }

  /** The end of the chunks that account for `left` statuses from `off` on, and their symbols. */
  datatype Scanned = Scanned(end: nat, symbols: seq<nat>)

  function ScanFrom(fci: seq<byte>, off: nat, left: nat): (r: Option<Scanned>)
    requires off <= |fci|
    ensures r.Some? ==> off <= r.value.end <= |fci| && |r.value.symbols| == left
    decreases |fci| - off
  {
    if left == 0 then Some(Scanned(off, []))
    else if off + 2 > |fci| then None
    else
      var symbols := Symbols(Read16(fci[off], fci[off + 1]));
      if symbols == [] then None
      else
        var take := if |symbols| <= left then |symbols| else left;
        var rest := ScanFrom(fci, off + 2, left - take);
        if rest.None? then None else Some(Scanned(rest.value.end, symbols[..take] + rest.value.symbols))
  }

  /** What the scan accounts for is how the accepted chunk region starts. */
  lemma {:induction false} ScannedIsPrefix(fci: seq<byte>, off: nat, left: nat)
    requires off <= |fci| && ScanFrom(fci, off, left).Some?
    ensures var r := ScanFrom(fci, off, left).value;
            r.symbols <= AllSymbols(fci[off..r.end])
    decreases |fci| - off
  {
    if left > 0 {
      var r := ScanFrom(fci, off, left).value;
      var symbols := Symbols(Read16(fci[off], fci[off + 1]));
      var take := if |symbols| <= left then |symbols| else left;
      ScannedIsPrefix(fci, off + 2, left - take);
      assert fci[off..r.end][2..] == fci[off + 2..r.end];
      PrefixJoin(symbols, take, ScanFrom(fci, off + 2, left - take).value.symbols, AllSymbols(fci[off + 2..r.end]));
    }
  }

  lemma PrefixJoin(symbols: seq<nat>, take: nat, rest: seq<nat>, all: seq<nat>)
    requires take <= |symbols| && rest <= all && (take == |symbols| || rest == [])
    ensures symbols[..take] + rest <= symbols + all
  {
  }

  // ── Statuses ──────────────────────────────────────────────────────────

  /** The signed value of a two-byte field. */
  function Signed16(hi: byte, lo: byte): int {
    var v := Read16(hi, lo);
    if v < 0x8000 then v else v - 0x1_0000
  }

  function StatusOf(symbol: nat, deltas: seq<byte>): Status
    requires DeltaBytes(symbol) <= |deltas|
  {
    if symbol == 1 then Received(deltas[0])
    else if symbol == 2 then Received(Signed16(deltas[0], deltas[1]))
    else NotReceived
  }

  function NextSeq(s: u16): u16 {
    (s + 1) % 0x1_0000
  }

  /** One item for each symbol, sequence numbers counting up from `first` with wrap-around. */
  function Items(symbols: seq<nat>, deltas: seq<byte>, first: u16): (items: seq<Item>)
    requires Need(symbols) <= |deltas|
    ensures |items| == |symbols|
    decreases |symbols|
  {
    if symbols == [] then []
    else
      NeedHead(symbols);
      [Item(first, StatusOf(symbols[0], deltas))] + Items(symbols[1..], deltas[DeltaBytes(symbols[0])..], NextSeq(first))
  }

  lemma NeedHead(symbols: seq<nat>)
    requires symbols != []
    ensures Need(symbols) == DeltaBytes(symbols[0]) + Need(symbols[1..])
  {
    assert symbols == [symbols[0]] + symbols[1..];
    assert [symbols[0]][..0] == [];
    NeedSplits([symbols[0]], symbols[1..]);
  }

  // ── The body of a feedback block ──────────────────────────────────────

  /** An accepted body: its fields, the chunk region, and exactly the delta bytes it calls for. */
  datatype Feedback = Feedback(
    baseSeq: u16,
    statusCount: u16,
    referenceTime: nat,
    feedbackCount: byte,
    chunks: seq<byte>,
    deltas: seq<byte>)

  function Read24(a: byte, b: byte, c: byte): nat {
    0x1_0000 * a + 256 * b + c
  }

  /** The body with its chunks ending at `end` and `need` delta bytes behind them. */
  function BodyAt(fci: seq<byte>, end: nat, need: nat): Feedback
    requires 8 <= end && end + need <= |fci|
  {
    Feedback(Read16(fci[0], fci[1]), Read16(fci[2], fci[3]), Read24(fci[4], fci[5], fci[6]), fci[7],
             fci[8..end], fci[end..end + need])
  }

  function ParseFci(fci: seq<byte>): Option<Feedback> {
    if |fci| < 8 then None
    else
      var r := ScanFrom(fci, 8, Read16(fci[2], fci[3]));
      if r.None? || |fci| - r.value.end < Need(r.value.symbols) then None
      else Some(BodyAt(fci, r.value.end, Need(r.value.symbols)))
  }

  lemma ParsedWith(f: seq<byte>, count: nat, scanned: Scanned)
    requires |f| >= 8 && Read16(f[2], f[3]) == count && ScanFrom(f, 8, count) == Some(scanned)
    requires |f| - scanned.end >= Need(scanned.symbols)
    ensures ParseFci(f) == Some(BodyAt(f, scanned.end, Need(scanned.symbols)))
  {
  }

  /** The symbols an accepted body's statuses come from. */
  function StatusSymbols(f: Feedback): seq<nat>
    requires f.statusCount <= |AllSymbols(f.chunks)|
  {
    AllSymbols(f.chunks)[..f.statusCount]
  }

  /** The accepted chunk region has a symbol for every status, and the deltas are exactly what those call for. */
  lemma AcceptedIsExact(fci: seq<byte>)
    requires ParseFci(fci).Some?
    ensures var f := ParseFci(fci).value;
            && f.statusCount <= |AllSymbols(f.chunks)|
            && Need(StatusSymbols(f)) == |f.deltas|
  {
    var count := Read16(fci[2], fci[3]);
    ScannedIsPrefix(fci, 8, count);
    var r := ScanFrom(fci, 8, count).value;
    assert AllSymbols(fci[8..r.end])[..count] == r.symbols;
  }
}
