/**
 * What a subscriber gets of the source's extension elements, in terms of the
 * two legs' id maps alone: which survive, in what order, under which ids, with
 * which values, and what is added behind them.
 */
module RtpRelay {
  import opened Wrappers
  import opened Buffers
  import opened Bytes
  import opened RtpPackets
  import opened RtpRewrite
  import opened RtpRewriteTheorem
  import opened RtpForwarding

  /** The element is of a kind that the outgoing leg has negotiated. */
  predicate Kept(rw: Rewrite, e: Element, kind: KnownExt) {
    && e.id in rw.inMap.byId && rw.inMap.byId[e.id] == kind
    && Negotiated(rw, kind)
  }

  predicate Negotiated(rw: Rewrite, kind: KnownExt) {
    kind in rw.outMap.idByKind && rw.outMap.idByKind[kind] != 0
  }

  predicate Survivor(rw: Rewrite, e: Element) {
    e.id in rw.inMap.byId && Negotiated(rw, rw.inMap.byId[e.id])
  }

  /** How many of the first i source elements survive: the place of element i among those that do. */
  function KeptBefore(rw: Rewrite, es: seq<Element>, i: nat): nat
    requires i <= |es|
  {
    if i == 0 then 0 else KeptBefore(rw, es, i - 1) + if Survivor(rw, es[i - 1]) then 1 else 0
  }

  ghost predicate SomeKept(rw: Rewrite, es: seq<Element>, kind: KnownExt) {
    exists i :: 0 <= i < |es| && Kept(rw, es[i], kind)
  }

  /** A surviving element's outgoing form: its kind's new id; TWCC and MID stamped when asked for, else the value kept. */
  ghost predicate Relays(rw: Rewrite, e: Element, kind: KnownExt, out: Element)
    requires Negotiated(rw, kind)
  {
    && out.id == rw.outMap.idByKind[kind]
    && (kind == Twcc && rw.twccSeq.Some? ==> out.value == [rw.twccSeq.value / 256, rw.twccSeq.value % 256])
    && (kind == Mid && rw.mid.Some? ==> out.value == rw.mid.value)
    && ((kind == Twcc ==> rw.twccSeq.None?) && (kind == Mid ==> rw.mid.None?) ==> out.value == e.value)
  }

  ghost predicate AddsTwcc(rw: Rewrite, es: seq<Element>) {
    rw.twccSeq.Some? && Negotiated(rw, Twcc) && !SomeKept(rw, es, Twcc)
  }

  ghost predicate AddsMid(rw: Rewrite, es: seq<Element>) {
    rw.mid.Some? && Negotiated(rw, Mid) && !SomeKept(rw, es, Mid)
  }

  /** The survivors in order and, behind them, a TWCC and a MID element if asked for and not among them. */
  ghost predicate Relayed(rw: Rewrite, es: seq<Element>, out: seq<Element>) {
    var n := KeptBefore(rw, es, |es|);
    && |out| == n + (if AddsTwcc(rw, es) then 1 else 0) + (if AddsMid(rw, es) then 1 else 0)
    && (forall i, kind :: 0 <= i < |es| && Kept(rw, es[i], kind) ==>
          KeptBefore(rw, es, i) < n && Relays(rw, es[i], kind, out[KeptBefore(rw, es, i)]))
    && (AddsTwcc(rw, es) ==>
          out[n] == Element(rw.outMap.idByKind[Twcc], [rw.twccSeq.value / 256, rw.twccSeq.value % 256]))
    && (AddsMid(rw, es) ==> out[|out| - 1] == Element(rw.outMap.idByKind[Mid], rw.mid.value))
  }

  // ── The plan is that list ─────────────────────────────────────────────

  lemma SurvivesIff(rw: Rewrite, e: Element, kind: KnownExt)
    ensures Survives(rw, e) == Some(kind) <==> Kept(rw, e, kind)
    ensures Survives(rw, e).Some? <==> Survivor(rw, e)
  {
  }

  lemma {:induction false} CarriesIff(rw: Rewrite, es: seq<Element>, kind: KnownExt)
    ensures Carries(rw, es, kind) <==> SomeKept(rw, es, kind)
  {
    if es != [] {
      var n := |es| - 1;
      CarriesIff(rw, es[..n], kind);
      SurvivesIff(rw, es[n], kind);
      assert forall i :: 0 <= i < n ==> (Kept(rw, es[..n][i], kind) <==> Kept(rw, es[i], kind));
    }
  }

  lemma {:induction false} KeptInFront(rw: Rewrite, es: seq<Element>, n: nat, i: nat)
    requires i <= n <= |es|
    ensures KeptBefore(rw, es[..n], i) == KeptBefore(rw, es, i)
  {
    if i > 0 { KeptInFront(rw, es, n, i - 1); }
  }

  lemma {:induction false} KeptGrows(rw: Rewrite, es: seq<Element>, i: nat, j: nat)
    requires i <= j <= |es|
    ensures KeptBefore(rw, es, i) <= KeptBefore(rw, es, j)
    decreases j
  {
    if i < j { KeptGrows(rw, es, i, j - 1); }
  }

  lemma {:induction false} MapAllSize(rw: Rewrite, es: seq<Element>)
    ensures |MapAll(rw, es)| == KeptBefore(rw, es, |es|)
  {
    if es != [] {
      var n := |es| - 1;
      MapAllSize(rw, es[..n]);
      KeptInFront(rw, es, n, n);
    }
  }

  lemma MappedRelays(rw: Rewrite, e: Element, kind: KnownExt)
    requires Kept(rw, e, kind)
    ensures |Mapped(rw, e)| == 1 && Relays(rw, e, kind, Mapped(rw, e)[0])
  {
  }

  lemma {:induction false} MapAllRelays(rw: Rewrite, es: seq<Element>, i: nat, kind: KnownExt)
    requires i < |es| && Kept(rw, es[i], kind)
    ensures KeptBefore(rw, es, i) < |MapAll(rw, es)|
    ensures Relays(rw, es[i], kind, MapAll(rw, es)[KeptBefore(rw, es, i)])
    decreases |es|
  {
    var n := |es| - 1;
    KeptInFront(rw, es, n, i);
    if i < n {
      MapAllRelays(rw, es[..n], i, kind);
    } else {
      MapAllSize(rw, es[..n]);
      MappedRelays(rw, es[n], kind);
    }
  }

  lemma PlannedIsRelayed(rw: Rewrite, es: seq<Element>)
    ensures Relayed(rw, es, Planned(rw, es))
  {
    CarriesIff(rw, es, Twcc);
    CarriesIff(rw, es, Mid);
    MapAllSize(rw, es);
    forall i, kind | 0 <= i < |es| && Kept(rw, es[i], kind)
      ensures KeptBefore(rw, es, i) < |MapAll(rw, es)|
      ensures Relays(rw, es[i], kind, Planned(rw, es)[KeptBefore(rw, es, i)])
    {
      MapAllRelays(rw, es, i, kind);
    }
  }

  // ── The forwarded packet ──────────────────────────────────────────────

  /** Does some element need the two-byte form? */
  ghost predicate NeedsTwoByte(es: seq<Element>) {
    exists i :: 0 <= i < |es| && (es[i].id > 14 || |es[i].value| > 16)
  }

  lemma {:induction false} MaxesAreReached(es: seq<Element>)
    ensures MaxId(es) > 14 || MaxLen(es) > 16 <==> NeedsTwoByte(es)
  {
    if es != [] {
      var n := |es| - 1;
      MaxesAreReached(es[..n]);
      assert NeedsTwoByte(es) <==> NeedsTwoByte(es[..n]) || es[n].id > 14 || |es[n].value| > 16 by {
        assert es == es[..n] + [es[n]];
      }
    }
  }

  /** The block stays two-byte with its application bits, becomes two-byte when an element needs it, or is one-byte. */
  ghost predicate FormIsRight(p: RtpPacket, q: RtpPacket, out: seq<Element>) {
    if out == [] then q.ext.None?
    else
      q.ext.Some?
      && q.ext.value.profile ==
         if p.UsesTwoByteForm() then p.ext.value.profile else if NeedsTwoByte(out) then 0x1000 else 0xBEDE
  }

  lemma ViewForm(rw: Rewrite, p: RtpPacket)
    requires ViewFits(p)
    ensures FormIsRight(p, View(OutShape(rw, p), Output(rw, p)), Planned(rw, p.Extensions()))
  {
    MaxesAreReached(Planned(rw, p.Extensions()));
  }

  /**
   * For every parsed packet and every expressible rewriting, the forwarded packet
   * carries the relayed elements, in the right form of block, and the payload
   * type asked for or the source's.
   */
  lemma ForwardedIsRelayed(rw: Rewrite, p: RtpPacket)
    requires p.Valid() && ViewFits(p) && Expressible(rw, p)
    ensures Parse(Output(rw, p)).Ok?
    ensures var q := Parse(Output(rw, p)).value;
            && ViewFits(q)
            && Relayed(rw, p.Extensions(), q.Extensions())
            && FormIsRight(p, q, q.Extensions())
            && q.PayloadType() == (if rw.payloadType.Some? then rw.payloadType.value % 128 else p.PayloadType())
  {
    ForwardingIsFaithfulIffExpressible(rw, p);
    PlannedIsRelayed(rw, p.Extensions());
    OutputFields(rw, p);
    ViewForm(rw, p);
  }

  lemma {:induction false} PlaceHasSource(rw: Rewrite, es: seq<Element>, m: nat, n: nat) returns (i: nat)
    requires n <= |es| && m < KeptBefore(rw, es, n)
    ensures i < n && Survivor(rw, es[i]) && KeptBefore(rw, es, i) == m
  {
    if Survivor(rw, es[n - 1]) && KeptBefore(rw, es, n - 1) == m {
      i := n - 1;
    } else {
      i := PlaceHasSource(rw, es, m, n - 1);
    }
  }

  /** There is one such list. */
  lemma RelayedIsUnique(rw: Rewrite, es: seq<Element>, a: seq<Element>, b: seq<Element>)
    requires Relayed(rw, es, a) && Relayed(rw, es, b)
    ensures a == b
  {
    forall m | 0 <= m < |a|
      ensures a[m] == b[m]
    {
      if m < KeptBefore(rw, es, |es|) {
        var i := PlaceHasSource(rw, es, m, |es|);
        assert Kept(rw, es[i], rw.inMap.byId[es[i].id]);
      }
    }
  }

  /** What a subscriber is promised, field by field. */
  ghost predicate Delivers(rw: Rewrite, p: RtpPacket, q: RtpPacket)
    requires ViewFits(p) && ViewFits(q)
  {
    && q.SequenceNumber() == rw.sequenceNumber && q.Timestamp() == rw.timestamp && q.Ssrc() == rw.ssrc
    && q.PayloadType() == (if rw.payloadType.Some? then rw.payloadType.value % 128 else p.PayloadType())
    && q.Marker() == p.Marker() && q.Csrcs() == p.Csrcs() && q.Payload() == p.Payload()
    && q.HasPadding() == p.HasPadding() && q.padding == p.padding
    && Relayed(rw, p.Extensions(), q.Extensions())
  }

  /** The output always parses, and delivers what was promised exactly when the rewriting is expressible. */
  lemma DeliversIffExpressible(rw: Rewrite, p: RtpPacket)
    requires p.Valid() && ViewFits(p)
    ensures Parse(Output(rw, p)).Ok? && ViewFits(Parse(Output(rw, p)).value)
    ensures Delivers(rw, p, Parse(Output(rw, p)).value) <==> Expressible(rw, p)
  {
    ForwardingIsFaithfulIffExpressible(rw, p);
    PlannedIsRelayed(rw, p.Extensions());
    var q := Parse(Output(rw, p)).value;
    if Relayed(rw, p.Extensions(), q.Extensions()) {
      RelayedIsUnique(rw, p.Extensions(), q.Extensions(), Planned(rw, p.Extensions()));
    }
  }

  /** No other negotiated kind has this kind's outgoing id. */
  ghost predicate OwnId(rw: Rewrite, kind: KnownExt) {
    forall other :: Negotiated(rw, other) && Negotiated(rw, kind) && other != kind ==>
      rw.outMap.idByKind[other] != rw.outMap.idByKind[kind]
  }

  /** Whatever stands at a place of the relayed list is a survivor's form or one of the two added elements. */
  lemma RelayedOrigin(rw: Rewrite, es: seq<Element>, out: seq<Element>, m: nat) returns (kind: KnownExt)
    requires Relayed(rw, es, out) && m < |out|
    ensures Negotiated(rw, kind) && out[m].id == rw.outMap.idByKind[kind]
    ensures kind == Twcc && rw.twccSeq.Some? ==> out[m].value == [rw.twccSeq.value / 256, rw.twccSeq.value % 256]
    ensures kind == Mid && rw.mid.Some? ==> out[m].value == rw.mid.value
  {
    var n := KeptBefore(rw, es, |es|);
    if m < n {
      var i := PlaceHasSource(rw, es, m, |es|);
      kind := rw.inMap.byId[es[i].id];
      assert Kept(rw, es[i], kind);
    } else if m == n && AddsTwcc(rw, es) {
      kind := Twcc;
    } else {
      kind := Mid;
    }
  }

  /**
   * Of a forwarded packet, every element under the outgoing TWCC id holds the
   * sequence number asked for, and every one under the outgoing MID id the MID,
   * whatever the source put there.
   */
  lemma StampsAreCurrent(rw: Rewrite, p: RtpPacket, e: Element)
    requires p.Valid() && ViewFits(p) && Expressible(rw, p)
    requires Parse(Output(rw, p)).Ok? && ViewFits(Parse(Output(rw, p)).value)
    requires e in Parse(Output(rw, p)).value.Extensions()
    ensures rw.twccSeq.Some? && Negotiated(rw, Twcc) && OwnId(rw, Twcc) && e.id == rw.outMap.idByKind[Twcc] ==>
              e.value == [rw.twccSeq.value / 256, rw.twccSeq.value % 256]
    ensures rw.mid.Some? && Negotiated(rw, Mid) && OwnId(rw, Mid) && e.id == rw.outMap.idByKind[Mid] ==>
              e.value == rw.mid.value
  {
    ForwardedIsRelayed(rw, p);
    var out := Parse(Output(rw, p)).value.Extensions();
    var m :| 0 <= m < |out| && out[m] == e;
    var kind := RelayedOrigin(rw, p.Extensions(), out, m);
  }

  /** The octets of elements with headers of this size. */
  function Octets(es: seq<Element>, header: nat): nat {
    if es == [] then 0 else header + |es[0].value| + Octets(es[1..], header)
  }

  lemma {:induction false} OctetsOneMore(es: seq<Element>, e: Element, header: nat)
    ensures Octets(es + [e], header) == Octets(es, header) + header + |e.value|
  {
    if es == [] {
      assert ([] + [e])[1..] == [];
    } else {
      OctetsOneMore(es[1..], e, header);
      assert (es + [e])[1..] == es[1..] + [e];
    }
  }

  lemma {:induction false} DataAndHeaders(es: seq<Element>, header: nat)
    ensures DataBytes(es) + |es| * header == Octets(es, header)
  {
    if es != [] {
      var n := |es| - 1;
      DataAndHeaders(es[..n], header);
      OctetsOneMore(es[..n], es[n], header);
      assert es == es[..n] + [es[n]];
      assert |es| * header == n * header + header;
    }
  }

  /** So many octets are no more than these elements need: a block header, and the elements padded to words. */
  ghost predicate JustHolds(n: int, p: RtpPacket, out: seq<Element>) {
    if out == [] then n == 0
    else
      var octets := Octets(out, if p.UsesTwoByteForm() || NeedsTwoByte(out) then 2 else 1);
      n % 4 == 0 && octets <= n - 4 < octets + 4
  }

  lemma PlanJustHolds(p: RtpPacket, plan: seq<Element>)
    ensures JustHolds(if plan == [] then 0 else 4 + ExtDataLen(p, plan), p, plan)
  {
    MaxesAreReached(plan);
    DataAndHeaders(plan, if GoesTwoByte(p, plan) then 2 else 1);
  }

  lemma OutputSize(rw: Rewrite, p: RtpPacket)
    requires ViewFits(p)
    ensures var plan := Planned(rw, p.Extensions());
            |Output(rw, p)| - 12 - |p.Csrcs()| - |p.Body()| == if plan == [] then 0 else 4 + ExtDataLen(p, plan)
  {
  }

  lemma SoMany(n: int, p: RtpPacket, plan: seq<Element>)
    requires n == if plan == [] then 0 else 4 + ExtDataLen(p, plan)
    ensures JustHolds(n, p, plan)
  {
    PlanJustHolds(p, plan);
  }

  lemma OutputJustHolds(rw: Rewrite, p: RtpPacket)
    requires ViewFits(p)
    ensures JustHolds(|Output(rw, p)| - 12 - |p.Csrcs()| - |p.Body()|, p, Planned(rw, p.Extensions()))
  {
    OutputSize(rw, p);
    SoMany(|Output(rw, p)| - 12 - |p.Csrcs()| - |p.Body()|, p, Planned(rw, p.Extensions()));
  }

  lemma ForwardedElements(rw: Rewrite, p: RtpPacket)
    requires p.Valid() && ViewFits(p) && Expressible(rw, p)
    ensures Parse(Output(rw, p)).Ok? && ViewFits(Parse(Output(rw, p)).value)
    ensures Parse(Output(rw, p)).value.Extensions() == Planned(rw, p.Extensions())
  {
    ForwardingIsFaithfulIffExpressible(rw, p);
  }

  /** The forwarded packet is no longer than its header, its elements padded to words, and its payload. */
  lemma ForwardedSize(rw: Rewrite, p: RtpPacket)
    requires p.Valid() && ViewFits(p) && Expressible(rw, p)
    ensures Parse(Output(rw, p)).Ok? && ViewFits(Parse(Output(rw, p)).value)
    ensures JustHolds(|Output(rw, p)| - 12 - |p.Csrcs()| - |p.Body()|, p, Parse(Output(rw, p)).value.Extensions())
  {
    OutputJustHolds(rw, p);
    ForwardedElements(rw, p);
  }

  /** What is written when TWCC and MID are both synthesised. */
  lemma BothWritten(rw: Rewrite, es: seq<Element>, twoByte: bool, head: seq<byte>, mid: seq<byte>)
    requires TwccInserted(rw, es) && MidInserted(rw, es)
    requires head == ElementHeader(TwccElement(rw), twoByte) && mid == Encode(MidElement(rw), twoByte)
    ensures |mid| >= 2 ==> Written(rw, es, twoByte) == EncodeAll(MapAll(rw, es), twoByte) + head + mid
    ensures |mid| == 1 ==>
              Written(rw, es, twoByte) == EncodeAll(MapAll(rw, es), twoByte) + head + (mid + [rw.twccSeq.value % 256])
  {
    var value := TwccElement(rw).value;
    if |mid| == 1 { assert value[1..] == [rw.twccSeq.value % 256]; }
    if |mid| >= 2 { assert Overlay(mid, value) == mid; }
  }

  lemma TwccHead(rw: Rewrite, twcc: byte)
    requires rw.twccSeq.Some? && rw.outMap.Id(Twcc) == Some(twcc)
    ensures ElementHeader(TwccElement(rw), true) == [twcc, 2] && ElementHeader(TwccElement(rw), false) == [twcc % 16 * 16 + 1]
  {
  }

  lemma MidOctets(rw: Rewrite, mid: byte)
    requires rw.mid.Some? && rw.outMap.Id(Mid) == Some(mid) && |rw.mid.value| <= 255
    ensures Encode(MidElement(rw), true) == [mid, |rw.mid.value|] + rw.mid.value
    ensures 1 <= |rw.mid.value| <= 16 ==>
              Encode(MidElement(rw), false) == [mid % 16 * 16 + (|rw.mid.value| - 1)] + rw.mid.value
    ensures rw.mid.value == [] ==> Encode(MidElement(rw), false) == [mid % 16 * 16]
  {
    var n := |rw.mid.value|;
    assert n % 256 == n;
    if 1 <= n <= 16 { MidHead(mid, n); }
  }

  lemma MidHead(id: byte, n: nat)
    requires 1 <= n <= 16
    ensures (id % 16 * 16 + (n - 1) % 16) % 256 == id % 16 * 16 + (n - 1)
  {
  }

  /**
   * The octets of a TWCC and a MID element synthesised together: the MID stands
   * directly behind the TWCC header, on top of its value, of which only an empty
   * MID in the one-byte form leaves the last octet to be seen.
   */
  lemma OverlapSays(rw: Rewrite, es: seq<Element>, twcc: byte, mid: byte)
    requires TwccInserted(rw, es) && MidInserted(rw, es)
    requires rw.outMap.Id(Twcc) == Some(twcc) && rw.outMap.Id(Mid) == Some(mid) && |rw.mid.value| <= 255
    ensures Written(rw, es, true) == EncodeAll(MapAll(rw, es), true) + [twcc, 2] + ([mid, |rw.mid.value|] + rw.mid.value)
    ensures 1 <= |rw.mid.value| <= 16 ==>
              Written(rw, es, false) ==
              EncodeAll(MapAll(rw, es), false) + [twcc % 16 * 16 + 1] + ([mid % 16 * 16 + (|rw.mid.value| - 1)] + rw.mid.value)
    ensures rw.mid.value == [] ==>
              Written(rw, es, false) ==
              EncodeAll(MapAll(rw, es), false) + [twcc % 16 * 16 + 1] + ([mid % 16 * 16] + [rw.twccSeq.value % 256])
  {
    TwccHead(rw, twcc);
    MidOctets(rw, mid);
    BothWritten(rw, es, true, [twcc, 2], Encode(MidElement(rw), true));
    BothWritten(rw, es, false, [twcc % 16 * 16 + 1], Encode(MidElement(rw), false));
  }
}
