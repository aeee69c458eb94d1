/**
 * Reading transport-wide feedback: the scan that accepts a body, and the lazy
 * iterator that takes its chunks and deltas apart afterwards.
 */
module TwccDecoder {
  import opened Bits
  import opened Bytes
  import opened Seqs
  import opened TwccChunks
  import opened Wrappers

  // ── The validating scan ───────────────────────────────────────────────

  /** The delta bytes of the first `take` symbols of a chunk. */
  method CountDeltas(chunk: u16, take: nat) returns (n: nat)
    requires take <= |Symbols(chunk)|
    ensures n == Need(Symbols(chunk)[..take])
  {
    if !IsVector(chunk) {
      n := take * DeltaBytes(RunSymbol(chunk));
      RunNeeds(Symbols(chunk)[..take], RunSymbol(chunk));
      return;
    }
    n := 0;
    for i := 0 to take
      invariant n == Need(Symbols(chunk)[..i])
    {
      assert Symbols(chunk)[..i + 1][..i] == Symbols(chunk)[..i];
      var symbol := if IsWide(chunk) then WideSymbol(chunk, i) else NarrowSymbol(chunk, i);
      n := n + DeltaBytes(symbol);
    }
  }

  lemma {:induction false} RunNeeds(symbols: seq<nat>, symbol: nat)
    requires forall i :: 0 <= i < |symbols| ==> symbols[i] == symbol
    ensures Need(symbols) == |symbols| * DeltaBytes(symbol)
  {
    if symbols != [] {
      RunNeeds(symbols[..|symbols| - 1], symbol);
    }
  }

  /** The result of a scan that goes on after these symbols. */
  ghost function After(done: seq<nat>, r: Option<Scanned>): Option<Scanned> {
    if r.None? then None else Some(Scanned(r.value.end, done + r.value.symbols))
  }

  lemma AfterMore(a: seq<nat>, b: seq<nat>, r: Option<Scanned>)
    ensures After(a + b, r) == After(a, After(b, r))
  {
    if r.Some? { Assoc(a, b, r.value.symbols); }
  }

  lemma AfterNothing(r: Option<Scanned>)
    ensures After([], r) == r
  {
    if r.Some? { assert [] + r.value.symbols == r.value.symbols; }
  }

  /** The symbols the chunk at `off` gives towards `left` statuses. */
  ghost function Taken(fci: seq<byte>, off: nat, left: nat): seq<nat>
    requires off + 2 <= |fci|
  {
    var symbols := Symbols(Read16(fci[off], fci[off + 1]));
    symbols[..if |symbols| <= left then |symbols| else left]
  }

  /** Statuses accounted for, or where to go on, and delta bytes. */
  datatype Measure = Measure(count: nat, bytes: nat)

  /** Reads one chunk towards `left` statuses: how many it gives and the delta bytes they call for. */
  method ScanChunk(fci: seq<byte>, off: nat, left: nat) returns (r: Option<Measure>)
    requires off <= |fci| && left > 0
    ensures r.None? ==> ScanFrom(fci, off, left).None?
    ensures r.Some? ==>
              && off + 2 <= |fci| && 0 < r.value.count <= left
              && r.value == Measure(|Taken(fci, off, left)|, Need(Taken(fci, off, left)))
              && ScanFrom(fci, off, left) == After(Taken(fci, off, left), ScanFrom(fci, off + 2, left - r.value.count))
  {
    if off + 2 > |fci| {
      return None;
    }
    var chunk := Read16(fci[off], fci[off + 1]);
    var symbols := Symbols(chunk);
    if !IsVector(chunk) && RunLength(chunk) == 0 {
      return None;
    }
    var take := if |symbols| <= left then |symbols| else left;
    var n := CountDeltas(chunk, take);
    r := Some(Measure(take, n));
  }

  lemma ScanOn(all: Option<Scanned>, done: seq<nat>, taken: seq<nat>, r: Option<Scanned>, rest: Option<Scanned>)
    requires all == After(done, r) && r == After(taken, rest)
    ensures all == After(done + taken, rest)
    ensures Need(done + taken) == Need(done) + Need(taken)
  {
    AfterMore(done, taken, rest);
    NeedSplits(done, taken);
  }

  lemma ScanEnds(fci: seq<byte>, off: nat, all: Option<Scanned>, done: seq<nat>)
    requires off <= |fci| && all == After(done, ScanFrom(fci, off, 0))
    ensures all == Some(Scanned(off, done))
  {
    assert done + [] == done;
  }

  /**
   * Walks chunks until `count` statuses are accounted for. Every accepted
   * region ends where the specification says, with the deltas it calls for.
   */
  method Scan(fci: seq<byte>, count: nat) returns (r: Option<Measure>)
    requires 8 <= |fci|
    ensures r.Some? <==> ScanFrom(fci, 8, count).Some?
    ensures r.Some? ==> r.value == Measure(ScanFrom(fci, 8, count).value.end, Need(ScanFrom(fci, 8, count).value.symbols))
  {
    var off: nat, left: nat, deltaBytes: nat := 8, count, 0;
    ghost var all := ScanFrom(fci, 8, count);
    ghost var done: seq<nat> := [];
    AfterNothing(all);
    while left > 0
      invariant off <= |fci| && deltaBytes == Need(done)
      invariant all == After(done, ScanFrom(fci, off, left))
      decreases |fci| - off
    {
      var step := ScanChunk(fci, off, left);
      if step.None? {
        return None;
      }
      ghost var taken := Taken(fci, off, left);
      ScanOn(all, done, taken, ScanFrom(fci, off, left), ScanFrom(fci, off + 2, left - step.value.count));
      done := done + taken;
      off, left, deltaBytes := off + 2, left - step.value.count, deltaBytes + step.value.bytes;
    }
    ScanEnds(fci, off, all, done);
    r := Some(Measure(off, deltaBytes));
  }

  method FromBlock(fci: seq<byte>) returns (r: Option<Feedback>)
    ensures r == ParseFci(fci)
  {
    if |fci| < 8 {
      return None;
    }
    var count := Read16(fci[2], fci[3]);
    var scanned := Scan(fci, count);
    if scanned.None? {
      return None;
    }
    var off, deltaBytes := scanned.value.count, scanned.value.bytes;
    if |fci| - off < deltaBytes {
      return None;
    }
    r := Some(BodyAt(fci, off, deltaBytes));
  }

  // ── The lazy iterator ─────────────────────────────────────────────────

  class TwccPackets {
    const chunks: seq<byte>
    const deltas: seq<byte>
    var chunkOff: nat
    var deltaOff: nat
    var remaining: nat
    var seqNo: u16
    var chunk: u16
    var symsLeft: nat
    var isVec: bool
    var vecWide: bool

    /** The loaded chunk and what is left of it. */
    ghost predicate ChunkValid()
      reads `chunkOff, `chunk, `symsLeft, `isVec, `vecWide
    {
      && chunkOff <= |chunks|
      && symsLeft <= |Symbols(chunk)|
      && (symsLeft > 0 ==> (isVec <==> IsVector(chunk)) && (isVec ==> (vecWide <==> IsWide(chunk))))
    }

    /** The symbols still to come: the rest of the loaded chunk, then every later chunk. */
    ghost function Upcoming(): seq<nat>
      reads `chunkOff, `chunk, `symsLeft, `isVec, `vecWide
      requires ChunkValid()
    {
      Symbols(chunk)[|Symbols(chunk)| - symsLeft..] + AllSymbols(chunks[chunkOff..])
    }

    ghost predicate Valid()
      reads this
    {
      ChunkValid() && Suffice(Upcoming(), remaining, deltas, deltaOff)
    }

    /** The items still to come. */
    ghost function Rest(): seq<Item>
      reads this
      requires Valid()
    {
      ItemsFrom(Upcoming(), remaining, deltas, deltaOff, seqNo)
    }

    constructor (f: Feedback)
      requires f.statusCount <= |AllSymbols(f.chunks)| && Need(StatusSymbols(f)) == |f.deltas|
      ensures Valid()
      ensures Rest() == Items(StatusSymbols(f), f.deltas, f.baseSeq)
      ensures deltas == f.deltas && remaining == f.statusCount
    {
      chunks, deltas := f.chunks, f.deltas;
      chunkOff, deltaOff, remaining, seqNo := 0, 0, f.statusCount, f.baseSeq;
      chunk, symsLeft, isVec, vecWide := 0, 0, false, false;
      new;
      assert Symbols(chunk)[|Symbols(chunk)|..] == [];
      assert chunks[0..] == chunks && deltas[0..] == deltas;
      assert Upcoming() == AllSymbols(chunks);
    }

    /** Loads the next chunk in place of an exhausted one; false when the chunk bytes have run out. */
    method LoadOne() returns (ok: bool)
      requires ChunkValid() && symsLeft == 0
      modifies `chunkOff, `chunk, `symsLeft, `isVec, `vecWide
      ensures ChunkValid() && Upcoming() == old(Upcoming())
      ensures if ok then chunkOff == old(chunkOff) + 2 else symsLeft == 0 && Upcoming() == []
    {
      NoneLeft(chunk, chunks[chunkOff..]);
      if chunkOff + 1 >= |chunks| {
        return false;
      }
      NextChunk(chunks, chunkOff);
      chunk := Read16(chunks[chunkOff], chunks[chunkOff + 1]);
      chunkOff := chunkOff + 2;
      if !IsVector(chunk) {
        isVec := false;
        symsLeft := RunLength(chunk);
      } else {
        isVec := true;
        vecWide := IsWide(chunk);
        symsLeft := if vecWide then 7 else 14;
      }
      assert Symbols(chunk)[|Symbols(chunk)| - symsLeft..] == Symbols(chunk);
      ok := true;
    }

    /** Loads chunks until one has symbols; false when the chunk bytes have run out. */
    method Load() returns (ok: bool)
      requires ChunkValid()
      modifies `chunkOff, `chunk, `symsLeft, `isVec, `vecWide
      ensures ChunkValid() && Upcoming() == old(Upcoming())
      ensures ok <==> symsLeft > 0
      ensures !ok ==> Upcoming() == []
    {
      while symsLeft == 0
        invariant ChunkValid() && Upcoming() == old(Upcoming())
        decreases |chunks| - chunkOff
      {
        ok := LoadOne();
        if !ok {
          return;
        }
      }
      ok := true;
    }

    /** Takes the top symbol off the loaded chunk. */
    method Peel() returns (symbol: nat)
      requires ChunkValid() && symsLeft > 0
      modifies `symsLeft
      ensures ChunkValid()
      ensures old(Upcoming()) == [symbol] + Upcoming()
    {
      PeelHead(Symbols(chunk), symsLeft, AllSymbols(chunks[chunkOff..]));
      symsLeft := symsLeft - 1;
      if !isVec {
        return RunSymbol(chunk);
      }
      var total := if vecWide then 7 else 14;
      var idx := total - 1 - symsLeft;
      symbol := if vecWide then WideSymbol(chunk, idx) else NarrowSymbol(chunk, idx);
    }

    method NextSymbol() returns (r: Option<nat>)
      requires ChunkValid()
      modifies `chunkOff, `chunk, `symsLeft, `isVec, `vecWide
      ensures ChunkValid()
      ensures r.None? <==> old(Upcoming()) == []
      ensures r.Some? ==> old(Upcoming()) == [r.value] + Upcoming()
    {
      var ok := Load();
      if !ok {
        return None;
      }
      var symbol := Peel();
      r := Some(symbol);
    }

    /** The status a symbol stands for, taking its delta bytes. */
    method TakeStatus(symbol: nat) returns (status: Status)
      requires deltaOff + DeltaBytes(symbol) <= |deltas|
      modifies `deltaOff
      ensures status == StatusOf(symbol, deltas[old(deltaOff)..])
      ensures deltaOff == old(deltaOff) + DeltaBytes(symbol)
    {
      status := NotReceived;
      if symbol == 1 {
        status := Received(deltas[deltaOff]);
        deltaOff := deltaOff + 1;
      } else if symbol == 2 {
        status := Received(Signed16(deltas[deltaOff], deltas[deltaOff + 1]));
        deltaOff := deltaOff + 2;
      }
    }

    /** Spends one status, now that its symbol is known. */
    method Spend(symbol: nat) returns (item: Item)
      requires ChunkValid() && remaining > 0
      requires Suffice(Upcoming(), remaining - 1, deltas, deltaOff + DeltaBytes(symbol))
      modifies `remaining, `seqNo, `deltaOff
      ensures Valid() && remaining == old(remaining) - 1
      ensures item == Item(old(seqNo), StatusOf(symbol, deltas[old(deltaOff)..]))
      ensures Rest() == ItemsFrom(old(Upcoming()), old(remaining) - 1, deltas, old(deltaOff) + DeltaBytes(symbol), NextSeq(old(seqNo)))
    {
      var current := seqNo;
      remaining := remaining - 1;
      seqNo := NextSeq(seqNo);
      var status := TakeStatus(symbol);
      item := Item(current, status);
    }

    method Advance() returns (item: Item)
      requires Valid() && remaining > 0
      modifies this
      ensures Valid() && remaining == old(remaining) - 1
      ensures old(Rest()) == [item] + Rest()
    {
      ghost var was := Upcoming();
      var symbol := NextSymbol();
      if symbol.None? {
        assert false;
      } else {
        NextItem(was, Upcoming(), symbol.value, remaining, deltas, deltaOff, seqNo);
        item := Spend(symbol.value);
      }
    }

    method Next() returns (r: Option<Item>)
      requires Valid()
      modifies this
      ensures Valid()
      ensures r.None? <==> old(Rest()) == []
      ensures r.Some? ==> old(Rest()) == [r.value] + Rest() && remaining == old(remaining) - 1
      ensures r.None? ==> deltaOff == |deltas| && Rest() == []
    {
      if remaining == 0 {
        assert Upcoming()[..0] == [];
        return None;
      }
      var item := Advance();
      r := Some(item);
    }
  }

  lemma PeelHead(symbols: seq<nat>, left: nat, rest: seq<nat>)
    requires 0 < left <= |symbols|
    ensures symbols[|symbols| - left..] + rest == [symbols[|symbols| - left]] + (symbols[|symbols| - (left - 1)..] + rest)
  {
  }

  lemma NoneLeft(chunk: u16, rest: seq<byte>)
    ensures Symbols(chunk)[|Symbols(chunk)|..] + AllSymbols(rest) == AllSymbols(rest)
    ensures |rest| < 2 ==> AllSymbols(rest) == []
  {
  }

  lemma NextChunk(chunks: seq<byte>, off: nat)
    requires off + 1 < |chunks|
    ensures AllSymbols(chunks[off..]) == Symbols(Read16(chunks[off], chunks[off + 1])) + AllSymbols(chunks[off + 2..])
  {
    assert chunks[off..][2..] == chunks[off + 2..];
  }

  /** Enough symbols for what remains, and exactly the delta bytes those call for. */
  ghost predicate Suffice(upcoming: seq<nat>, remaining: nat, deltas: seq<byte>, off: nat) {
    off <= |deltas| && remaining <= |upcoming| && Need(upcoming[..remaining]) == |deltas| - off
  }

  ghost function ItemsFrom(upcoming: seq<nat>, remaining: nat, deltas: seq<byte>, off: nat, seqNo: u16): seq<Item>
    requires Suffice(upcoming, remaining, deltas, off)
  {
    Items(upcoming[..remaining], deltas[off..], seqNo)
  }

  lemma NextItem(was: seq<nat>, now: seq<nat>, symbol: nat, n: nat, deltas: seq<byte>, off: nat, seqNo: u16)
    requires was == [symbol] + now && n > 0 && Suffice(was, n, deltas, off)
    ensures off + DeltaBytes(symbol) <= |deltas|
    ensures Suffice(now, n - 1, deltas, off + DeltaBytes(symbol))
    ensures ItemsFrom(was, n, deltas, off, seqNo) ==
            [Item(seqNo, StatusOf(symbol, deltas[off..]))]
            + ItemsFrom(now, n - 1, deltas, off + DeltaBytes(symbol), NextSeq(seqNo))
  {
    assert was[..n][1..] == now[..n - 1] && was[..n][0] == symbol;
    NeedHead(was[..n]);
    assert deltas[off..][DeltaBytes(symbol)..] == deltas[off + DeltaBytes(symbol)..];
  }

  /** Drains an accepted body: one item for each status, none missing, no delta byte over. */
  method Packets(f: Feedback) returns (items: seq<Item>)
    requires f.statusCount <= |AllSymbols(f.chunks)| && Need(StatusSymbols(f)) == |f.deltas|
    ensures items == Items(StatusSymbols(f), f.deltas, f.baseSeq)
    ensures |items| == f.statusCount
  {
    var it := new TwccPackets(f);
    items := [];
    ghost var all := it.Rest();
    var more := true;
    while more
      invariant fresh(it) && it.Valid()
      invariant all == items + it.Rest()
      invariant !more ==> it.Rest() == []
      decreases it.remaining, more
    {
      ghost var rest := it.Rest();
      var item := it.Next();
      if item.None? {
        more := false;
      } else {
        Assoc(items, [item.value], it.Rest());
        items := items + [item.value];
      }
    }
  }
}
