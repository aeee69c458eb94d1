/** The two passes of the builder over a caller's buffer: measure, then write in place. */
module TwccWriter {
  import opened Bits
  import opened Buffers
  import opened Bytes
  import opened RtcpBlocks
  import opened Seqs
  import opened TwccChunks
  import opened TwccChunkBuilder
  import opened TwccFeedback
  import opened Wrappers

  // ── The size pass ─────────────────────────────────────────────────────

  /** The delta bytes of the statuses, or None if some delta does not fit 16 bits. */
  method MeasureDeltas(ss: seq<Status>) returns (r: Option<nat>)
    ensures r.Some? <==> AllEncodable(ss)
    ensures r.Some? ==> r.value == |DeltasOf(ss)|
  {
    var n := 0;
    for i := 0 to |ss|
      invariant AllEncodable(ss[..i])
      invariant n == Need(SymbolsOf(ss[..i]))
    {
      if ss[i].Received? && !IsSmall(ss[i].delta) && !(-0x8000 <= ss[i].delta < 0x8000) {
        return None;
      }
      assert SymbolsOf(ss[..i + 1])[..i] == SymbolsOf(ss[..i]);
      n := n + DeltaBytes(Symbol(ss[i]));
    }
    assert ss[..|ss|] == ss;
    DeltasSuffice(ss);
    r := Some(n);
  }

  method ChunkCount(ss: seq<Status>) returns (n: nat)
    ensures n == |Chunks(ss)|
  {
    n := 0;
    var i := 0;
    assert ss[0..] == ss;
    while i < |ss|
      invariant i <= |ss|
      invariant n + |Chunks(ss[i..])| == |Chunks(ss)|
    {
      ChunksUnfold(ss[i..]);
      assert LaterOf(ss[i..]) == ss[i + ChunkAt(ss[i..]).take..];
      i := i + ChunkAt(ss[i..]).take;
      n := n + 1;
    }
  }

  // ── The write pass ────────────────────────────────────────────────────

  /** Puts the symbols into the chunk one after another; the chunk's own width bit says where. */
  method PackChunk(wide: bool, ss: seq<Status>) returns (chunk: u16)
    requires |ss| <= if wide then 7 else 14
    requires !wide ==> !HasLarge(ss)
    ensures chunk == Chunk(wide, ss)
  {
    var c: nat := Base(wide);
    for k := 0 to |ss|
      invariant c == Packed(wide, ss[..k])
    {
      WidthBit(wide, ss[..k]);
      PackedMore(wide, ss, k);
      var at := if Bit(c, 14) then 12 - 2 * k else 13 - k;
      c := Or(c, Shl(Symbol(ss[k]), at));
    }
    assert ss[..|ss|] == ss;
    PackedBelow(wide, ss);
    Pow2Of16();
    chunk := c;
  }

  lemma PackedMore(wide: bool, ss: seq<Status>, k: nat)
    requires k < |ss| <= if wide then 7 else 14
    ensures Packed(wide, ss[..k + 1]) == Or(Packed(wide, ss[..k]), Shl(Symbol(ss[k]), Position(wide, k)))
  {
    assert ss[..k + 1][..k] == ss[..k];
  }

  lemma WidthBit(wide: bool, ss: seq<Status>)
    requires |ss| <= if wide then 7 else 14
    requires !wide ==> !HasLarge(ss)
    ensures Bit(Packed(wide, ss), 14) <==> wide
  {
    PackedBit(wide, ss, 14);
    if !wide { assert forall k :: 0 <= k < |ss| ==> !SetsBit(wide, ss, k, 14); }
  }

  method WriteChunks(out: array<byte>, start: nat, ss: seq<Status>) returns (w: nat)
    requires start + 2 * |Chunks(ss)| <= out.Length
    modifies out
    ensures w == start + 2 * |Chunks(ss)|
    ensures out[..w] == old(out[..start]) + Words(Chunks(ss))
    ensures forall k :: w <= k < out.Length ==> out[k] == old(out[k])
  {
    w := start;
    var i := 0;
    ghost var done: seq<byte> := [];
    ghost var all := Words(Chunks(ss));
    assert ss[0..] == ss;
    while i < |ss|
      invariant i <= |ss| && w == start + |done|
      invariant all == done + Words(Chunks(ss[i..]))
      invariant out[..w] == old(out[..start]) + done
      invariant forall k :: w <= k < out.Length ==> out[k] == old(out[k])
    {
      var c := ChunkAt(ss[i..]);
      NextChunkWord(ss, i, c);
      ChoiceFits(ss[i..]);
      var chunk := PackChunk(c.wide, ss[i..][..c.take]);
      ghost var rest := Words(Chunks(ss[i + c.take..]));
      Assoc(done, Be16(chunk), rest);
      Assoc(old(out[..start]), done, Be16(chunk));
      w := Append(out, w, Be16(chunk));
      done := done + Be16(chunk);
      i := i + c.take;
    }
  }

  lemma NextChunkWord(ss: seq<Status>, i: nat, c: Choice)
    requires i < |ss| && c == ChunkAt(ss[i..])
    ensures i + c.take <= |ss|
    ensures Words(Chunks(ss[i..])) == Be16(Chunk(c.wide, ss[i..][..c.take])) + Words(Chunks(ss[i + c.take..]))
  {
    ChunksUnfold(ss[i..]);
    assert ss[i..][c.take..] == ss[i + c.take..];
  }

  lemma NextDelta(ss: seq<Status>, i: nat)
    requires AllEncodable(ss) && i < |ss|
    ensures DeltasOf(ss[i..]) == DeltaOf(ss[i]) + DeltasOf(ss[i + 1..])
  {
    assert ss[i..][1..] == ss[i + 1..];
  }

  method WriteDelta(out: array<byte>, w: nat, s: Status) returns (w': nat)
    requires Encodable(s) && w + |DeltaOf(s)| <= out.Length
    modifies out
    ensures w' == w + |DeltaOf(s)|
    ensures out[..w'] == old(out[..w]) + DeltaOf(s)
    ensures forall k :: w' <= k < out.Length ==> out[k] == old(out[k])
  {
    if s.NotReceived? {
      w' := w;
    } else if IsSmall(s.delta) {
      w' := Append(out, w, [s.delta]);
    } else {
      w' := Append(out, w, Be16(Unsigned16(s.delta)));
    }
  }

  method WriteDeltas(out: array<byte>, start: nat, ss: seq<Status>) returns (w: nat)
    requires AllEncodable(ss) && start + |DeltasOf(ss)| <= out.Length
    modifies out
    ensures w == start + |DeltasOf(ss)|
    ensures out[..w] == old(out[..start]) + DeltasOf(ss)
    ensures forall k :: w <= k < out.Length ==> out[k] == old(out[k])
  {
    w := start;
    ghost var done: seq<byte> := [];
    ghost var all := DeltasOf(ss);
    assert ss[0..] == ss;
    for i := 0 to |ss|
      invariant w == start + |done|
      invariant all == done + DeltasOf(ss[i..])
      invariant out[..w] == old(out[..start]) + done
      invariant forall k :: w <= k < out.Length ==> out[k] == old(out[k])
    {
      NextDelta(ss, i);
      Assoc(done, DeltaOf(ss[i]), DeltasOf(ss[i + 1..]));
      Assoc(old(out[..start]), done, DeltaOf(ss[i]));
      w := WriteDelta(out, w, ss[i]);
      done := done + DeltaOf(ss[i]);
    }
  }

  /** The twenty bytes before the chunks. */
  function Front(r: Report): (s: seq<byte>)
    ensures |s| == 20
  {
    TotalFits(r);
    Header(FMT_TWCC, RTPFB, Total(r)) + Be32(r.senderSsrc) + Be32(r.mediaSsrc) + FciHead(r)
  }

  lemma FrontThenRest(h: seq<byte>, a: seq<byte>, b: seq<byte>, f: seq<byte>, c: seq<byte>, d: seq<byte>, z: seq<byte>)
    ensures h + a + b + f + c + d + z == h + (a + (b + (f + (c + (d + z)))))
  {
  }

  lemma PacketIs(r: Report)
    ensures Packet(r) == Front(r) + ChunkBytes(r) + DeltasOf(r.statuses) + Zeros(Total(r) - Unpadded(r))
  {
    TotalFits(r);
    FrontThenRest(Header(FMT_TWCC, RTPFB, Total(r)), Be32(r.senderSsrc), Be32(r.mediaSsrc), FciHead(r),
                  ChunkBytes(r), DeltasOf(r.statuses), Zeros(Total(r) - Unpadded(r)));
  }

  method WriteFront(out: array<byte>, r: Report)
    requires out.Length >= 20
    modifies out
    ensures out[..20] == Front(r)
    ensures forall k :: 20 <= k < out.Length ==> out[k] == old(out[k])
  {
    TotalFits(r);
    var w := Append(out, 0, Header(FMT_TWCC, RTPFB, Total(r)));
    w := Append(out, w, Be32(r.senderSsrc));
    w := Append(out, w, Be32(r.mediaSsrc));
    w := Append(out, w, FciHead(r));
  }

  method WritePacket(out: array<byte>, r: Report)
    requires out.Length >= Total(r)
    modifies out
    ensures out[..Total(r)] == Packet(r)
    ensures forall k :: Total(r) <= k < out.Length ==> out[k] == old(out[k])
  {
    TotalFits(r);
    WriteFront(out, r);
    var w := WriteChunks(out, 20, r.statuses);
    w := WriteDeltas(out, w, r.statuses);
    w := Append(out, w, Zeros(Total(r) - w));
    PacketIs(r);
  }

  /**
   * Fails without touching the buffer on too many statuses, a reference time over
   * 24 bits, a delta over 16 bits, or a buffer shorter than the packet, whose
   * length the error then names; otherwise writes exactly the packet.
   */
  method Build(out: array<byte>, d: Draft) returns (r: Result<nat, RtcpError>)
    modifies out
    ensures |d.statuses| > 0xFFFF ==> r == Err(CountOverflow(|d.statuses|, 0xFFFF))
    ensures |d.statuses| <= 0xFFFF && !Expressible(d) ==> r == Err(Invalid)
    ensures Expressible(d) && out.Length < Total(d) ==> r == Err(BufferTooSmall(Total(d), out.Length))
    ensures Expressible(d) && out.Length >= Total(d) ==> r == Ok(Total(d)) && out[..Total(d)] == Packet(d)
    ensures r.Err? ==> out[..] == old(out[..])
    ensures r.Ok? ==> forall k :: r.value <= k < out.Length ==> out[k] == old(out[k])
  {
    if |d.statuses| > 0xFFFF {
      return Err(CountOverflow(|d.statuses|, 0xFFFF));
    }
    if d.refTime > 0xFF_FFFF {
      return Err(Invalid);
    }
    var deltaBytes := MeasureDeltas(d.statuses);
    if deltaBytes.None? {
      return Err(Invalid);
    }
    var chunks := ChunkCount(d.statuses);
    var total := Padded(HEADER_LEN + FEEDBACK_HEADER_LEN + 8 + 2 * chunks + deltaBytes.value);
    if out.Length < total {
      return Err(BufferTooSmall(total, out.Length));
    }
    WritePacket(out, d);
    r := Ok(total);
  }
}
