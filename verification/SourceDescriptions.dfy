/**
 * Source-description blocks: chunks of items, each chunk ended by a null octet
 * and zero-padded to a multiple of four octets from its start.
 */
module SourceDescriptions {
  import opened Buffers
  import opened Bytes
  import opened Seqs
  import opened Wrappers

  /** A chunk as the iterator yields it: its items are left as octets. */
  datatype SdesChunk = SdesChunk(ssrc: u32, items: seq<byte>)

  // ── Reading ───────────────────────────────────────────────────────────

  /** The position behind the null that ends an item list, unless the list is cut off. */
  function ItemsEnd(payload: seq<byte>, p: nat): (end: Option<nat>)
    ensures end.Some? ==> p < end.value <= |payload|
    decreases if p <= |payload| then |payload| - p else 0
  {
    if p >= |payload| then None
    else if payload[p] == 0 then Some(p + 1)
    else if p + 1 >= |payload| then None
    else
      var next := p + 2 + payload[p + 1];
      if next > |payload| then None else ItemsEnd(payload, next)
  }

  function ChunksFrom(payload: seq<byte>, pos: nat, remaining: nat): seq<SdesChunk>
    decreases remaining
  {
    if remaining == 0 || pos + 4 > |payload| then []
    else
      match ItemsEnd(payload, pos + 4)
      case None => []
      case Some(end) =>
        [SdesChunk(Word(payload, pos), payload[pos + 4..end - 1])]
        + ChunksFrom(payload, pos + Padded(end - pos), remaining - 1)
  }

  /** The walk takes the chunk whose items end at `end`. */
  lemma WalkTakesChunk(payload: seq<byte>, pos: nat, remaining: nat, end: nat, next: nat)
    requires remaining > 0 && pos + 4 <= |payload| && ItemsEnd(payload, pos + 4) == Some(end)
    requires next == pos + Padded(end - pos)
    ensures ChunksFrom(payload, pos, remaining) ==
            [SdesChunk(Word(payload, pos), payload[pos + 4..end - 1])] + ChunksFrom(payload, next, remaining - 1)
  {
  }

  class SdesChunks {
    const payload: seq<byte>
    var pos: nat
    var remaining: nat

    /** What is still to come. */
    ghost function Upcoming(): seq<SdesChunk>
      reads this
    {
      ChunksFrom(payload, pos, remaining)
    }

    constructor (payload: seq<byte>, count: nat)
      ensures Upcoming() == ChunksFrom(payload, 0, count)
    {
      this.payload, pos, remaining := payload, 0, count;
    }

    /** Walks one item list: type, length, value, until a null type. */
    method Skip(from: nat) returns (end: Option<nat>)
      ensures end == ItemsEnd(payload, from)
    {
      var p := from;
      while p < |payload| && payload[p] != 0
        invariant ItemsEnd(payload, p) == ItemsEnd(payload, from)
        decreases if p <= |payload| then |payload| - p else 0
      {
        if p + 1 >= |payload| || p + 2 + payload[p + 1] > |payload| {
          return None;
        }
        p := p + 2 + payload[p + 1];
      }
      end := if p < |payload| then Some(p + 1) else None;
    }

    method Next() returns (r: Option<SdesChunk>)
      modifies `pos, `remaining
      ensures r.None? ==> old(Upcoming()) == [] && Upcoming() == []
      ensures r.Some? ==> old(Upcoming()) == [r.value] + Upcoming()
    {
      if remaining == 0 || pos + 4 > |payload| {
        return None;
      }
      var end := Skip(pos + 4);
      if end.None? {
        return None;
      }
      r := Take(end.value);
    }

    /** Takes the chunk whose items end at `end` and goes on behind its padding. */
    method Take(end: nat) returns (r: Option<SdesChunk>)
      requires remaining > 0 && pos + 4 <= |payload| && ItemsEnd(payload, pos + 4) == Some(end)
      modifies `pos, `remaining
      ensures r.Some? && old(Upcoming()) == [r.value] + Upcoming()
    {
      var next := pos + Padded(end - pos);
      WalkTakesChunk(payload, pos, remaining, end, next);
      r := Some(SdesChunk(Word(payload, pos), payload[pos + 4..end - 1]));
      remaining, pos := remaining - 1, next;
    }
  }

  // ── Writing ───────────────────────────────────────────────────────────

  const CNAME := 1

  datatype Field = Field(kind: byte, value: seq<byte>)

  /** A type that does not read as the end of the list, and a value its length octet can count. */
  predicate ItemFits(i: Field) {
    i.kind != 0 && |i.value| <= 255
  }

  predicate AllFit(items: seq<Field>) {
    forall i :: 0 <= i < |items| ==> ItemFits(items[i])
  }

  function ItemBytes(i: Field): seq<byte>
    requires ItemFits(i)
  {
    var len: nat := |i.value|;
    [i.kind, len] + i.value
  }

  function ItemsBytes(items: seq<Field>): seq<byte>
    requires AllFit(items)
  {
    if items == [] then [] else ItemBytes(items[0]) + ItemsBytes(items[1..])
  }

  datatype Source = Source(ssrc: u32, items: seq<Field>)

  predicate SourcesFit(sources: seq<Source>) {
    forall i :: 0 <= i < |sources| ==> AllFit(sources[i].items)
  }

  function SourceBytes(s: Source): (b: seq<byte>)
    requires AllFit(s.items)
    ensures |b| == Padded(5 + |ItemsBytes(s.items)|)
  {
    var items := ItemsBytes(s.items);
    Be32(s.ssrc) + (items + Zeros(Padded(5 + |items|) - 4 - |items|))
  }

  function SourcesBytes(sources: seq<Source>): seq<byte>
    requires SourcesFit(sources)
  {
    if sources == [] then [] else SourceBytes(sources[0]) + SourcesBytes(sources[1..])
  }

  /** The chunk that a source should read back as. */
  function ChunkOf(s: Source): SdesChunk
    requires AllFit(s.items)
  {
    SdesChunk(s.ssrc, ItemsBytes(s.items))
  }

  function ChunksOf(sources: seq<Source>): (cs: seq<SdesChunk>)
    requires SourcesFit(sources)
  {
    if sources == [] then [] else [ChunkOf(sources[0])] + ChunksOf(sources[1..])
  }

  // ── What is written is what is read ───────────────────────────────────

  lemma ItemSkipped(payload: seq<byte>, pre: seq<byte>, i: Field, rest: seq<byte>)
    requires ItemFits(i) && payload == pre + (ItemBytes(i) + rest)
    ensures ItemsEnd(payload, |pre|) == ItemsEnd(payload, |pre| + |ItemBytes(i)|)
  {
    assert payload[|pre|] == i.kind && payload[|pre| + 1] == |i.value|;
  }

  lemma {:induction false} ItemsAreSkipped(payload: seq<byte>, pre: seq<byte>, items: seq<Field>, zeros: nat, rest: seq<byte>)
    requires AllFit(items) && zeros > 0 && payload == pre + (ItemsBytes(items) + (Zeros(zeros) + rest))
    ensures ItemsEnd(payload, |pre|) == Some(|pre| + |ItemsBytes(items)| + 1)
    decreases |items|
  {
    if items == [] {
      assert payload[|pre|] == Zeros(zeros)[0];
    } else {
      var first, more := ItemBytes(items[0]), ItemsBytes(items[1..]);
      var after := more + (Zeros(zeros) + rest);
      Unnest(pre, first, more, Zeros(zeros) + rest);
      ItemSkipped(payload, pre, items[0], after);
      ItemsAreSkipped(payload, pre + first, items[1..], zeros, rest);
    }
  }

  /** Chunk `c` stands at `pos`. */
  ghost predicate StandsAt(payload: seq<byte>, pos: nat, c: SdesChunk) {
    var end := pos + 4 + |c.items|;
    && end <= |payload| && Word(payload, pos) == c.ssrc && payload[pos + 4..end] == c.items
    && ItemsEnd(payload, pos + 4) == Some(end + 1)
  }

  lemma OneChunk(payload: seq<byte>, pos: nat, remaining: nat, c: SdesChunk, next: nat, left: nat, rest: seq<SdesChunk>)
    requires left + 1 == remaining && StandsAt(payload, pos, c) && next == pos + Padded(5 + |c.items|)
    requires ChunksFrom(payload, next, left) == rest
    ensures ChunksFrom(payload, pos, remaining) == [c] + rest
  {
    var size := 5 + |c.items|;
    WalkTakesChunk(payload, pos, remaining, pos + size, next);
  }

  /** The zero octets behind a source's items. */
  function Zeroed(s: Source): (z: seq<byte>)
    requires AllFit(s.items)
  {
    Zeros(Padded(5 + |ItemsBytes(s.items)|) - 4 - |ItemsBytes(s.items)|)
  }

  lemma SourceLaidOut(payload: seq<byte>, pre: seq<byte>, s: Source, rest: seq<byte>)
    requires AllFit(s.items) && payload == pre + (SourceBytes(s) + rest)
    ensures payload == (pre + Be32(s.ssrc)) + (ItemsBytes(s.items) + (Zeroed(s) + rest))
    ensures |pre| + 4 <= |payload| && Word(payload, |pre|) == s.ssrc
  {
    var items := ItemsBytes(s.items);
    UnnestMore(pre, Be32(s.ssrc), items, Zeroed(s), rest);
    WordWritten(pre, s.ssrc, items + (Zeroed(s) + rest));
  }

  lemma SourceStands(payload: seq<byte>, pre: seq<byte>, s: Source, rest: seq<byte>)
    requires AllFit(s.items) && payload == pre + (SourceBytes(s) + rest)
    ensures StandsAt(payload, |pre|, ChunkOf(s))
  {
    var items, head := ItemsBytes(s.items), pre + Be32(s.ssrc);
    SourceLaidOut(payload, pre, s, rest);
    ItemsAreSkipped(payload, head, s.items, |Zeroed(s)|, rest);
    Between(head, items, Zeroed(s) + rest);
  }

  /** Any sources laid end to end read back as their chunks, in order, as many as the count says. */
  lemma {:induction false} SourcesReadBack(payload: seq<byte>, pre: seq<byte>, sources: seq<Source>, rest: seq<byte>)
    requires SourcesFit(sources) && payload == pre + (SourcesBytes(sources) + rest)
    ensures ChunksFrom(payload, |pre|, |sources|) == ChunksOf(sources)
    decreases |sources|
  {
    if sources != [] {
      var first, more := SourceBytes(sources[0]), SourcesBytes(sources[1..]);
      Unnest(pre, first, more, rest);
      SourceStands(payload, pre, sources[0], more + rest);
      SourcesReadBack(payload, pre + first, sources[1..], rest);
      OneChunk(payload, |pre|, |sources|, ChunkOf(sources[0]),
               |pre + first|, |sources[1..]|, ChunksOf(sources[1..]));
    }
  }
}
