/**
 * STUN messages (RFC 5389 section 6) octet by octet: which datagrams parse, what
 * the attribute iterator finds in them, and what the two checksums cover.
 */
module StunWire {
  import Buffers
  import opened Bytes
  import opened IceTable
  import opened Octets
  import opened Seqs
  import opened StunMessages
  import opened Wrappers

  /** An attribute on the wire, filled up to a multiple of four with any octets. */
  datatype Item = Item(kind: u16, value: seq<byte>, pad: seq<byte>)

  predicate ItemFits(i: Item) {
    |i.value| < 0x1_0000 && |i.pad| < 4 && (|i.value| + |i.pad|) % 4 == 0
  }

  predicate AllFit(items: seq<Item>) {
    forall i :: 0 <= i < |items| ==> ItemFits(items[i])
  }

  function ItemOctets(i: Item): (s: seq<byte>)
    requires ItemFits(i)
    ensures |s| == 4 + (|i.value| + |i.pad|)
  {
    [i.kind / 256, i.kind % 256, |i.value| / 256, |i.value| % 256] + (i.value + i.pad)
  }

  function ItemsOctets(items: seq<Item>): seq<byte>
    requires AllFit(items)
  {
    if items == [] then [] else ItemOctets(items[0]) + ItemsOctets(items[1..])
  }

  predicate Sayable(kind: nat, tid: seq<byte>, items: seq<Item>) {
    kind < 0x4000 && |tid| == 12 && AllFit(items) && |ItemsOctets(items)| < 0x1_0000
  }

  function MessageOctets(kind: nat, tid: seq<byte>, items: seq<Item>): seq<byte>
    requires Sayable(kind, tid, items)
  {
    var n := |ItemsOctets(items)|;
    [kind / 256, kind % 256, n / 256, n % 256, 0x21, 0x12, 0xA4, 0x42] + tid + ItemsOctets(items)
  }

  /** What the iterator should find, the first item standing at `off`. */
  function Listed(items: seq<Item>, off: nat): seq<Found>
    requires AllFit(items)
  {
    if items == [] then []
    else [Found(items[0].kind, off, items[0].value)] + Listed(items[1..], off + |ItemOctets(items[0])|)
  }

  // ── Attributes ────────────────────────────────────────────────────────

  lemma OctetsJoin(x: nat)
    requires x < 0x1_0000
    ensures Read16(x / 256, x % 256) == x
  {
  }

  lemma PadIs(n: nat, pad: nat)
    requires pad < 4 && (n + pad) % 4 == 0
    ensures Buffers.Padded(n) == n + pad
  {
  }

  lemma ItemCut(pre: seq<byte>, i: Item, post: seq<byte>, raw: seq<byte>)
    requires ItemFits(i) && raw == pre + (ItemOctets(i) + post)
    ensures var off := |pre|;
            && Read16(raw[off], raw[off + 1]) == i.kind && Read16(raw[off + 2], raw[off + 3]) == |i.value|
            && raw[off + 4..off + 4 + |i.value|] == i.value
  {
    OctetsJoin(i.kind);
    OctetsJoin(|i.value|);
    Cut(pre, ItemOctets(i)[..4], i.value, i.pad, post, raw);
  }

  lemma Cut(pre: seq<byte>, head: seq<byte>, value: seq<byte>, pad: seq<byte>, post: seq<byte>, raw: seq<byte>)
    requires |head| == 4 && raw == pre + ((head + (value + pad)) + post)
    ensures var off := |pre|;
            && raw[off] == head[0] && raw[off + 1] == head[1] && raw[off + 2] == head[2] && raw[off + 3] == head[3]
            && raw[off + 4..off + 4 + |value|] == value
  {
    UnnestMore(pre, head, value, pad, post);
    Between(pre + head, value, pad + post);
  }

  lemma ItemRead(pre: seq<byte>, i: Item, post: seq<byte>, raw: seq<byte>, off: nat, next: nat)
    requires ItemFits(i) && raw == pre + (ItemOctets(i) + post) && off == |pre| && next == off + |ItemOctets(i)|
    ensures Framed(raw, off) <==> Framed(raw, next)
    ensures Attributes(raw, off) == [Found(i.kind, off, i.value)] + Attributes(raw, next)
  {
    ItemCut(pre, i, post, raw);
    PadIs(|i.value|, |i.pad|);
  }

  lemma {:induction false} ItemsRead(pre: seq<byte>, items: seq<Item>, raw: seq<byte>, off: nat)
    requires AllFit(items) && raw == pre + ItemsOctets(items) && off == |pre|
    ensures Framed(raw, off) && Attributes(raw, off) == Listed(items, off)
    decreases |items|
  {
    if items == [] {
      NothingMore(raw, off);
    } else {
      var next := off + |ItemOctets(items[0])|;
      ItemsUnfold(pre, items, raw);
      ItemRead(pre, items[0], ItemsOctets(items[1..]), raw, off, next);
      ItemsRead(pre + ItemOctets(items[0]), items[1..], raw, next);
      ListedOne(items, off, next);
    }
  }

  lemma ItemsUnfold(pre: seq<byte>, items: seq<Item>, raw: seq<byte>)
    requires items != [] && AllFit(items) && raw == pre + ItemsOctets(items)
    ensures raw == pre + (ItemOctets(items[0]) + ItemsOctets(items[1..]))
    ensures raw == (pre + ItemOctets(items[0])) + ItemsOctets(items[1..])
  {
    Assoc(pre, ItemOctets(items[0]), ItemsOctets(items[1..]));
  }

  lemma NothingMore(raw: seq<byte>, off: nat)
    requires off == |raw|
    ensures Framed(raw, off) && Attributes(raw, off) == []
  {
  }

  lemma ListedOne(items: seq<Item>, off: nat, next: nat)
    requires items != [] && AllFit(items) && next == off + |ItemOctets(items[0])|
    ensures Listed(items, off) == [Found(items[0].kind, off, items[0].value)] + Listed(items[1..], next)
  {
  }

  lemma OctetsApart(hi: byte, lo: byte)
    ensures Read16(hi, lo) / 256 == hi && Read16(hi, lo) % 256 == lo
  {
  }

  lemma ItemAt(raw: seq<byte>, off: nat, next: nat) returns (i: Item)
    requires off + 4 <= next <= |raw| && next == off + 4 + Buffers.Padded(Read16(raw[off + 2], raw[off + 3]))
    ensures ItemFits(i) && ItemOctets(i) == raw[off..next]
  {
    var n: nat := Read16(raw[off + 2], raw[off + 3]);
    i := Item(Read16(raw[off], raw[off + 1]), raw[off + 4..off + 4 + n], raw[off + 4 + n..next]);
    OctetsApart(raw[off], raw[off + 1]);
    OctetsApart(raw[off + 2], raw[off + 3]);
    assert raw[off + 4..off + 4 + n] + raw[off + 4 + n..next] == raw[off + 4..next];
    assert [raw[off], raw[off + 1], raw[off + 2], raw[off + 3]] + raw[off + 4..next] == raw[off..next];
  }

  lemma ItemsMore(i: Item, rest: seq<Item>)
    requires ItemFits(i) && AllFit(rest)
    ensures AllFit([i] + rest) && ItemsOctets([i] + rest) == ItemOctets(i) + ItemsOctets(rest)
  {
    assert ([i] + rest)[1..] == rest;
  }

  lemma {:induction false} FramedIsItems(raw: seq<byte>, off: nat) returns (items: seq<Item>)
    requires off <= |raw| && Framed(raw, off)
    ensures AllFit(items) && ItemsOctets(items) == raw[off..]
    decreases |raw| - off
  {
    if off == |raw| {
      items := [];
    } else {
      var next := off + 4 + Buffers.Padded(Read16(raw[off + 2], raw[off + 3]));
      var i := ItemAt(raw, off, next);
      var rest := FramedIsItems(raw, next);
      items := [i] + rest;
      ItemsMore(i, rest);
      assert raw[off..next] + raw[next..] == raw[off..];
    }
  }

  // ── Messages ──────────────────────────────────────────────────────────

  function Head8(kind: nat, n: nat): (s: seq<byte>)
    requires kind < 0x4000 && n < 0x1_0000
    ensures |s| == 8
  {
    [kind / 256, kind % 256, n / 256, n % 256, 0x21, 0x12, 0xA4, 0x42]
  }

  lemma HeadCut(kind: nat, n: nat, tid: seq<byte>, more: seq<byte>, d: seq<byte>)
    requires kind < 0x4000 && n < 0x1_0000 && |tid| == 12 && d == Head8(kind, n) + tid + more
    ensures Read16(d[0], d[1]) == kind && Read16(d[2], d[3]) == n && d[0] < 64
    ensures d[4..8] == [0x21, 0x12, 0xA4, 0x42] && d[8..20] == tid
  {
    OctetsJoin(kind);
    OctetsJoin(n);
  }

  lemma FourMore(a: nat, b: nat)
    requires a % 4 == 0 && b % 4 == 0
    ensures (4 + a + b) % 4 == 0
  {
  }

  lemma {:induction false} WholeWords(items: seq<Item>)
    requires AllFit(items)
    ensures |ItemsOctets(items)| % 4 == 0
  {
    if items != [] {
      WholeWords(items[1..]);
      FourMore(|items[0].value| + |items[0].pad|, |ItemsOctets(items[1..])|);
    }
  }

  lemma ParsesAs(d: seq<byte>, raw: seq<byte>, n: nat, kind: nat, tid: seq<byte>)
    requires |raw| == 20 + n && n % 4 == 0 && raw <= d && d[0] < 64 && Framed(raw, 20)
    requires Read16(d[0], d[1]) == kind && Read16(d[2], d[3]) == n
    requires d[4..8] == [0x21, 0x12, 0xA4, 0x42] && raw[8..20] == tid
    ensures Parse(d) == Ok(Message(raw, kind, tid))
  {
    assert d[..20 + n] == raw;
  }

  /** Every message of this shape parses, whatever follows it, and the iterator finds its items in order. */
  lemma MessageReads(kind: nat, tid: seq<byte>, items: seq<Item>, rest: seq<byte>, raw: seq<byte>)
    requires Sayable(kind, tid, items) && raw == MessageOctets(kind, tid, items)
    ensures Parse(raw + rest) == Ok(Message(raw, kind, tid))
    ensures Attributes(raw, 20) == Listed(items, 20)
  {
    var body := ItemsOctets(items);
    var head := Head8(kind, |body|) + tid;
    HeadCut(kind, |body|, tid, body, raw);
    HeadCut(kind, |body|, tid, body + rest, raw + rest);
    ItemsRead(head, items, raw, 20);
    WholeWords(items);
    ParsesAs(raw + rest, raw, |body|, kind, tid);
  }

  lemma HeadIsCut(raw: seq<byte>, n: nat)
    requires |raw| >= 20 && raw[0] < 64 && raw[4..8] == [0x21, 0x12, 0xA4, 0x42] && n == Read16(raw[2], raw[3])
    ensures Read16(raw[0], raw[1]) < 0x4000
    ensures Head8(Read16(raw[0], raw[1]), n) + raw[8..20] + raw[20..] == raw
  {
    OctetsApart(raw[0], raw[1]);
    OctetsApart(raw[2], raw[3]);
    assert raw[4] == raw[4..8][0] && raw[5] == raw[4..8][1] && raw[6] == raw[4..8][2] && raw[7] == raw[4..8][3];
  }

  /** What parsing a datagram finds out about its octets. */
  lemma ParsedHas(d: seq<byte>, m: Message)
    requires Parse(d) == Ok(m)
    ensures |m.raw| >= 20 && m.raw <= d && m.raw[0] < 64 && m.raw[4..8] == [0x21, 0x12, 0xA4, 0x42]
    ensures |m.raw| == 20 + Read16(m.raw[2], m.raw[3]) && Framed(m.raw, 20)
    ensures m.kind == Read16(m.raw[0], m.raw[1]) && m.tid == m.raw[8..20]
  {
    var n := Read16(d[2], d[3]);
    assert m.raw == d[..20 + n];
    assert m.raw[4..8] == d[4..8];
  }

  /** Every datagram that parses starts with such a message. */
  lemma ParsedIsMessage(d: seq<byte>, m: Message) returns (items: seq<Item>)
    requires Parse(d) == Ok(m)
    ensures Sayable(m.kind, m.tid, items) && m.raw == MessageOctets(m.kind, m.tid, items) && m.raw <= d
  {
    ParsedHas(d, m);
    items := FramedIsItems(m.raw, 20);
    HeadIsCut(m.raw, |ItemsOctets(items)|);
  }

  /** A datagram parses exactly when it starts with such a message. */
  lemma ParsesIff(d: seq<byte>)
    ensures Parse(d).Ok? <==> exists kind, tid, items :: Sayable(kind, tid, items) && MessageOctets(kind, tid, items) <= d
  {
    if Parse(d).Ok? {
      var items := ParsedIsMessage(d, Parse(d).value);
    }
    forall kind, tid, items | Sayable(kind, tid, items) && MessageOctets(kind, tid, items) <= d
      ensures Parse(d).Ok?
    {
      var raw := MessageOctets(kind, tid, items);
      MessageReads(kind, tid, items, d[|raw|..], raw);
      assert raw + d[|raw|..] == d;
    }
  }

  // ── Checksums ─────────────────────────────────────────────────────────

  /** The i-th item is the first of its kind. */
  ghost predicate FirstItem(items: seq<Item>, i: int, kind: u16) {
    0 <= i < |items| && items[i].kind == kind && forall j :: 0 <= j < i ==> items[j].kind != kind
  }

  ghost predicate NoItem(items: seq<Item>, kind: u16) {
    forall j :: 0 <= j < |items| ==> items[j].kind != kind
  }

  lemma {:induction false} FirstListed(items: seq<Item>, i: int, kind: u16, off: nat)
    requires AllFit(items) && FirstItem(items, i, kind)
    ensures FirstOf(Listed(items, off), kind) == Some(Found(kind, off + |ItemsOctets(items[..i])|, items[i].value))
    decreases |items|
  {
    var next := off + |ItemOctets(items[0])|;
    ListedOne(items, off, next);
    if i == 0 {
      assert items[..0] == [];
    } else {
      FirstListed(items[1..], i - 1, kind, next);
      assert items[1..][..i - 1] == items[..i][1..];
      ItemsMore(items[0], items[..i][1..]);
      assert [items[0]] + items[..i][1..] == items[..i];
    }
  }

  lemma {:induction false} NoneListed(items: seq<Item>, kind: u16, off: nat)
    requires AllFit(items) && NoItem(items, kind)
    ensures FirstOf(Listed(items, off), kind) == None
    decreases |items|
  {
    if items != [] {
      ListedOne(items, off, off + |ItemOctets(items[0])|);
      NoneListed(items[1..], kind, off + |ItemOctets(items[0])|);
    }
  }

  lemma {:induction false} ItemsSplit(items: seq<Item>, i: nat)
    requires AllFit(items) && i <= |items|
    ensures ItemsOctets(items) == ItemsOctets(items[..i]) + ItemsOctets(items[i..])
    decreases i
  {
    if i == 0 {
      assert items[..0] == [] && items[0..] == items;
    } else {
      ItemsSplit(items[1..], i - 1);
      assert items[1..][..i - 1] == items[..i][1..] && items[1..][i - 1..] == items[i..];
      ItemsMore(items[0], items[..i][1..]);
      assert [items[0]] + items[..i][1..] == items[..i];
      Assoc(ItemOctets(items[0]), ItemsOctets(items[..i][1..]), ItemsOctets(items[i..]));
    }
  }

  /** Where an item of a message stands, and what stands before it. */
  lemma ItemPlace(kind: nat, tid: seq<byte>, items: seq<Item>, i: nat, raw: seq<byte>, at: nat)
    requires Sayable(kind, tid, items) && i < |items| && raw == MessageOctets(kind, tid, items)
    requires at == 20 + |ItemsOctets(items[..i])|
    ensures at <= |raw| == 20 + |ItemsOctets(items)|
    ensures raw[..at] == Head8(kind, |ItemsOctets(items)|) + tid + ItemsOctets(items[..i])
    ensures |raw| - at == |ItemsOctets(items[i..])|
  {
    ItemsSplit(items, i);
    FrontOf(Head8(kind, |ItemsOctets(items)|) + tid, ItemsOctets(items[..i]), ItemsOctets(items[i..]));
  }

  lemma FrontOf(a: seq<byte>, b: seq<byte>, c: seq<byte>)
    ensures (a + (b + c))[..|a| + |b|] == a + b
  {
  }

  lemma FoundFirst(kind: nat, tid: seq<byte>, items: seq<Item>, i: int, k: u16, raw: seq<byte>)
    requires Sayable(kind, tid, items) && FirstItem(items, i, k) && raw == MessageOctets(kind, tid, items)
    ensures Get(Message(raw, kind, tid), k) == Some(Found(k, 20 + |ItemsOctets(items[..i])|, items[i].value))
  {
    MessageReads(kind, tid, items, [], raw);
    FirstListed(items, i, k, 20);
  }

  lemma FoundNone(kind: nat, tid: seq<byte>, items: seq<Item>, k: u16, raw: seq<byte>)
    requires Sayable(kind, tid, items) && NoItem(items, k) && raw == MessageOctets(kind, tid, items)
    ensures Get(Message(raw, kind, tid), k) == None
  {
    MessageReads(kind, tid, items, [], raw);
    NoneListed(items, k, 20);
  }

  lemma FirstOrNone(items: seq<Item>, kind: u16) returns (i: int)
    ensures i == -1 ==> NoItem(items, kind)
    ensures i != -1 ==> FirstItem(items, i, kind)
  {
    i := -1;
    for j := 0 to |items|
      invariant i == -1 ==> forall k :: 0 <= k < j ==> items[k].kind != kind
      invariant i != -1 ==> FirstItem(items, i, kind)
    {
      if i == -1 && items[j].kind == kind { i := j; }
    }
  }

  /** The integrity value in this item is right: it covers all before it, the length counting up to its end. */
  ghost predicate Covers(c: Checks, key: seq<byte>, kind: nat, tid: seq<byte>, items: seq<Item>, i: int)
    requires Sayable(kind, tid, items) && 0 <= i < |items|
  {
    var before := ItemsOctets(items[..i]);
    var n := (|before| + 24) % 0x1_0000;
    && |items[i].value| == 20
    && c.hmac(key, [kind / 256, kind % 256, n / 256, n % 256, 0x21, 0x12, 0xA4, 0x42] + tid + before) == items[i].value
  }

  lemma SignedOctets(kind: nat, n: nat, len: nat, tid: seq<byte>, before: seq<byte>, raw: seq<byte>)
    requires kind < 0x4000 && n < 0x1_0000 && len < 0x1_0000 && |tid| == 12 && |raw| >= 20 + |before|
    requires raw[..20 + |before|] == Head8(kind, len) + tid + before
    ensures raw[..2] + Be16(n) + raw[4..20 + |before|] == Head8(kind, n) + tid + before
  {
    var front := raw[..20 + |before|];
    assert raw[..2] == front[..2] && raw[4..20 + |before|] == front[4..];
  }

  lemma IntegrityAt(c: Checks, key: seq<byte>, kind: nat, tid: seq<byte>, items: seq<Item>, i: int, raw: seq<byte>)
    requires Sayable(kind, tid, items) && FirstItem(items, i, 0x0008) && raw == MessageOctets(kind, tid, items)
    ensures IntegrityValid(c, Message(raw, kind, tid), key) <==> Covers(c, key, kind, tid, items, i)
  {
    var before := ItemsOctets(items[..i]);
    var at := 20 + |before|;
    FoundFirst(kind, tid, items, i, 0x0008, raw);
    ItemPlace(kind, tid, items, i, raw, at);
    SignedOctets(kind, (|before| + 24) % 0x1_0000, |ItemsOctets(items)|, tid, before, raw);
  }

  /** A message verifies under a key exactly when its first MESSAGE-INTEGRITY is right for what precedes it. */
  lemma IntegrityIff(c: Checks, key: seq<byte>, kind: nat, tid: seq<byte>, items: seq<Item>, raw: seq<byte>)
    requires Sayable(kind, tid, items) && raw == MessageOctets(kind, tid, items)
    ensures IntegrityValid(c, Message(raw, kind, tid), key) <==>
              exists i :: FirstItem(items, i, 0x0008) && Covers(c, key, kind, tid, items, i)
  {
    var i := FirstOrNone(items, 0x0008);
    if i == -1 {
      FoundNone(kind, tid, items, 0x0008, raw);
    } else {
      IntegrityAt(c, key, kind, tid, items, i, raw);
    }
  }

  /** The value is the checksum of all before it, masked with 0x5354554E. */
  ghost predicate Prints(c: Checks, kind: nat, tid: seq<byte>, items: seq<Item>, i: int)
    requires Sayable(kind, tid, items) && 0 <= i < |items|
  {
    var n := |ItemsOctets(items)|;
    var x := c.crc([kind / 256, kind % 256, n / 256, n % 256, 0x21, 0x12, 0xA4, 0x42] + tid + ItemsOctets(items[..i]));
    && |items[i].value| == 4
    && items[i].value ==
       Xor([x / 0x100_0000, x / 0x1_0000 % 256, x / 256 % 256, x % 256], [0x53, 0x54, 0x55, 0x4E])
  }

  lemma LastItem(items: seq<Item>, i: nat)
    requires AllFit(items) && i < |items| && |items[i].value| == 4
    ensures |ItemsOctets(items[i..])| == 8 <==> i == |items| - 1
  {
    var rest := items[i..];
    assert rest == [items[i]] + items[i + 1..];
    ItemsMore(items[i], items[i + 1..]);
    if i + 1 < |items| { assert ItemsOctets(items[i + 1..]) == ItemOctets(items[i + 1]) + ItemsOctets(items[i + 1..][1..]); }
  }

  lemma FingerprintAt(c: Checks, kind: nat, tid: seq<byte>, items: seq<Item>, i: int, raw: seq<byte>)
    requires Sayable(kind, tid, items) && FirstItem(items, i, 0x8028) && raw == MessageOctets(kind, tid, items)
    ensures FingerprintValid(c, Message(raw, kind, tid)) <==> i == |items| - 1 && Prints(c, kind, tid, items, i)
  {
    FoundFirst(kind, tid, items, i, 0x8028, raw);
    ItemPlace(kind, tid, items, i, raw, 20 + |ItemsOctets(items[..i])|);
    if |items[i].value| == 4 { LastItem(items, i); }
  }

  /** A fingerprint is in order when there is none, or the first is the last item and right. */
  lemma FingerprintIff(c: Checks, kind: nat, tid: seq<byte>, items: seq<Item>, raw: seq<byte>)
    requires Sayable(kind, tid, items) && raw == MessageOctets(kind, tid, items)
    ensures FingerprintValid(c, Message(raw, kind, tid)) <==>
              || NoItem(items, 0x8028)
              || exists i :: FirstItem(items, i, 0x8028) && i == |items| - 1 && Prints(c, kind, tid, items, i)
  {
    var i := FirstOrNone(items, 0x8028);
    if i == -1 {
      FoundNone(kind, tid, items, 0x8028, raw);
    } else {
      FingerprintAt(c, kind, tid, items, i, raw);
    }
  }

  // ── Addresses and responses ───────────────────────────────────────────

  /** Family 1 or 2, the port masked with the cookie's first half, the address with the cookie and the transaction id. */
  lemma MappedOctets(a: Addr, tid: Tid)
    requires WellFormed(a)
    ensures MappedValue(a, tid) ==
            [0, if a.V4? then 1 else 2] + Xor([0x21, 0x12], [a.port / 256, a.port % 256])
            + Xor(([0x21, 0x12, 0xA4, 0x42] + tid)[..|a.ip|], a.ip)
  {
    assert COOKIE[..2] == [0x21, 0x12];
  }

  function Fill(n: nat): nat {
    (4 - n % 4) % 4
  }

  lemma FillIs(n: nat)
    ensures Fill(n) < 4 && (n + Fill(n)) % 4 == 0 && Buffers.Padded(n) - n == Fill(n)
  {
  }

  /** An attribute as the builder writes it: filled with nulls. */
  function AsWritten(a: Attr): (i: Item)
    ensures ItemFits(i)
  {
    FillIs(|a.value|);
    Item(a.kind, a.value, Nulls(Fill(|a.value|)))
  }

  function AllWritten(attrs: seq<Attr>): (items: seq<Item>)
    ensures |items| == |attrs| && AllFit(items)
  {
    seq(|attrs|, i requires 0 <= i < |attrs| => AsWritten(attrs[i]))
  }

  lemma EncodedIs(a: Attr)
    ensures Encode(a) == ItemOctets(AsWritten(a))
  {
    FillIs(|a.value|);
    assert Buffers.Zeros(Buffers.Padded(|a.value|) - |a.value|) == Nulls(Fill(|a.value|));
  }

  lemma {:induction false} BodyIs(attrs: seq<Attr>)
    ensures Body(attrs) == ItemsOctets(AllWritten(attrs))
  {
    if attrs != [] {
      EncodedIs(attrs[0]);
      BodyIs(attrs[1..]);
      assert AllWritten(attrs) == [AsWritten(attrs[0])] + AllWritten(attrs[1..]);
      ItemsMore(AsWritten(attrs[0]), AllWritten(attrs[1..]));
    }
  }

  /** What the builder writes is such a message. */
  lemma WireIs(kind: u16, tid: Tid, attrs: seq<Attr>)
    requires kind < 0x4000 && |Body(attrs)| <= 0xFFFF
    ensures Sayable(kind, tid, AllWritten(attrs)) && Wire(kind, tid, attrs) == MessageOctets(kind, tid, AllWritten(attrs))
  {
    BodyIs(attrs);
  }
}
