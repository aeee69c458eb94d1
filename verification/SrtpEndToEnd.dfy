/**
 * Sender and receiver together: what one context protects over any run of media
 * and control packets, the other one recovers, however the network drops,
 * reorders, repeats or forges.
 */
module SrtpEndToEnd {
  import opened Wrappers
  import opened Bytes
  import opened IndexWindows
  import opened SrtpPacket
  import opened SrtpStreams
  import Send = SrtpSend
  import Receive = SrtpReceive

  /** An emission is its packet protected at its index; media packets carry the low 16 bits of theirs. */
  ghost predicate Carries(k: Keys, e: Send.Emission)
    requires IdealKeys(k)
  {
    if e.rtcp then
      && |e.packet| >= SRTCP_HEADER_LEN && e.packet[0] / 64 == 2 && e.index < E_BIT
      && e.ssrc == RtcpSsrc(e.packet)
      && e.wire == ProtectRtcp(k.profile, k.rtcp, e.packet, e.index, true)
    else
      && e.index < INDEX_SPACE && RtpHeader(e.packet).Ok?
      && var h := RtpHeader(e.packet).value;
         && h.ssrc == e.ssrc && h.seqNo == e.index % SEQ_SPACE
         && e.wire == ProtectRtp(k.profile, k.rtp, e.packet, h, e.index)
  }

  lemma SendIndexCarriesSeqNo(w: Window, seqNo: u16)
    requires w.highest.Some? ==> w.highest.value < INDEX_SPACE
    ensures w.SendIndex(seqNo).Some? ==> w.SendIndex(seqNo).value % SEQ_SPACE == seqNo
  {
    if w.highest.Some? { SendIndexExhausted(w, seqNo); }
  }

  lemma StepCarries(k: Keys, t: Table, call: Send.Call)
    requires IdealKeys(k) && Send.IndicesInRange(t)
    requires Send.Step(k, t, call).1.Ok?
    ensures Carries(k, Send.Step(k, t, call).1.value)
  {
    if call.Rtp? {
      var h := RtpHeader(call.packet).value;
      SendIndexCarriesSeqNo(Lookup(t, h.ssrc).rtp, h.seqNo);
    }
  }

  lemma {:induction false} RunCarries(k: Keys, calls: seq<Send.Call>)
    requires IdealKeys(k)
    ensures forall e :: e in Send.Run(k, calls).1 ==> Carries(k, e)
  {
    if calls != [] {
      var front, call := calls[..|calls| - 1], calls[|calls| - 1];
      RunCarries(k, front);
      var t := Send.Run(k, front).0;
      if Send.Step(k, t, call).1.Ok? { StepCarries(k, t, call); }
    }
  }

  /** What the network hands over: an emission by its position in the sender's run, or injected octets. */
  datatype Pick = Sent(i: nat) | Injected(control: bool, buf: seq<byte>)

  function AsDelivery(es: seq<Send.Emission>, pick: Pick): Receive.Delivery
    requires pick.Sent? ==> pick.i < |es|
  {
    match pick
    case Sent(i) =>
      var e := es[i];
      if e.rtcp then Receive.Control(e.packet, e.index, true) else Receive.Media(e.packet, e.index)
    case Injected(control, buf) =>
      if control then Receive.ForgedControl(buf) else Receive.ForgedMedia(buf)
  }

  function Wire(es: seq<Send.Emission>, pick: Pick): seq<byte>
    requires pick.Sent? ==> pick.i < |es|
  {
    if pick.Sent? then es[pick.i].wire else pick.buf
  }

  predicate AsControl(es: seq<Send.Emission>, pick: Pick)
    requires pick.Sent? ==> pick.i < |es|
  {
    if pick.Sent? then es[pick.i].rtcp else pick.control
  }

  /** The network picks among the emissions; what it injects does not authenticate. */
  ghost predicate Possible(k: Keys, es: seq<Send.Emission>, pick: Pick)
    requires IdealKeys(k)
  {
    if pick.Sent? then pick.i < |es| else Receive.Deliverable(k, AsDelivery(es, pick))
  }

  ghost predicate AllPossible(k: Keys, es: seq<Send.Emission>, picks: seq<Pick>)
    requires IdealKeys(k)
  {
    forall n :: 0 <= n < |picks| ==> Possible(k, es, picks[n])
  }

  function Deliveries(es: seq<Send.Emission>, picks: seq<Pick>): (ds: seq<Receive.Delivery>)
    requires forall pick :: pick in picks && pick.Sent? ==> pick.i < |es|
    ensures |ds| == |picks|
    ensures forall n :: 0 <= n < |picks| ==> ds[n] == AsDelivery(es, picks[n])
  {
    seq(|picks|, n requires 0 <= n < |picks| =>
      assert picks[n] in picks;
      AsDelivery(es, picks[n]))
  }

  /** A new receiver's table after the octet strings of the picks have arrived in order. */
  function TableAfter(k: Keys, es: seq<Send.Emission>, picks: seq<Pick>): Table
    requires IdealKeys(k)
    requires forall pick :: pick in picks && pick.Sent? ==> pick.i < |es|
  {
    if picks == [] then map[]
    else
      var front, last := picks[..|picks| - 1], picks[|picks| - 1];
      Receive.ReceiveAs(k, TableAfter(k, es, front), AsControl(es, last), Wire(es, last)).0
  }

  lemma PickIsDelivery(k: Keys, es: seq<Send.Emission>, pick: Pick)
    requires IdealKeys(k) && Possible(k, es, pick)
    requires forall e :: e in es ==> Carries(k, e)
    ensures Receive.Deliverable(k, AsDelivery(es, pick))
    ensures Receive.OnWire(k, AsDelivery(es, pick)) == Wire(es, pick)
    ensures Receive.IsControl(AsDelivery(es, pick)) == AsControl(es, pick)
  {
    if pick.Sent? { assert Carries(k, es[pick.i]); }
  }

  lemma AllDeliverable(k: Keys, es: seq<Send.Emission>, picks: seq<Pick>)
    requires IdealKeys(k) && AllPossible(k, es, picks)
    requires forall e :: e in es ==> Carries(k, e)
    ensures Receive.AllDeliverable(k, Deliveries(es, picks))
  {
    forall n | 0 <= n < |picks|
      ensures Receive.Deliverable(k, Deliveries(es, picks)[n])
    {
      PickIsDelivery(k, es, picks[n]);
    }
  }

  lemma {:induction false} TableAfterIs(k: Keys, es: seq<Send.Emission>, picks: seq<Pick>)
    requires IdealKeys(k) && AllPossible(k, es, picks)
    requires forall e :: e in es ==> Carries(k, e)
    ensures Receive.AllDeliverable(k, Deliveries(es, picks))
    ensures Receive.After(k, Deliveries(es, picks)) == TableAfter(k, es, picks)
  {
    AllDeliverable(k, es, picks);
    if picks != [] {
      var front, last := picks[..|picks| - 1], picks[|picks| - 1];
      TableAfterIs(k, es, front);
      PickIsDelivery(k, es, last);
      var ds := Deliveries(es, picks);
      assert ds[..|ds| - 1] == Deliveries(es, front);
    }
  }

  predicate SameStream(a: Send.Emission, b: Send.Emission) {
    a.ssrc == b.ssrc && a.rtcp == b.rtcp
  }

  /** No earlier pick was the same emission, and none of its SSRC and kind was 64 or more ahead of it. */
  predicate FirstAndRecent(es: seq<Send.Emission>, before: seq<Pick>, i: nat)
    requires i < |es|
    requires forall pick :: pick in before && pick.Sent? ==> pick.i < |es|
  {
    forall m :: 0 <= m < |before| && before[m].Sent? ==>
      before[m].i != i
      && (SameStream(es[before[m].i], es[i]) ==> es[before[m].i].index < es[i].index + REPLAY_WINDOW)
  }

  /** The sender never spends an index twice, so within a stream an index is an emission. */
  lemma IndexIsEmission(k: Keys, calls: seq<Send.Call>, i: nat, j: nat)
    requires IdealKeys(k)
    requires var es := Send.Run(k, calls).1;
             i < |es| && j < |es| && SameStream(es[i], es[j]) && es[i].index == es[j].index
    ensures i == j
  {
    Send.RunRemembers(k, calls);
  }

  /** The indices delivered in the stream of an emission are those of the picks before. */
  lemma DeliveredArePicked(k: Keys, es: seq<Send.Emission>, before: seq<Pick>, e: Send.Emission, index: nat)
    requires IdealKeys(k) && AllPossible(k, es, before) && Carries(k, e)
    requires forall e :: e in es ==> Carries(k, e)
    ensures index in Receive.Delivered(Deliveries(es, before), e.rtcp, e.ssrc) <==>
            exists m :: 0 <= m < |before| && before[m].Sent?
                        && SameStream(es[before[m].i], e) && es[before[m].i].index == index
  {
    var ds := Deliveries(es, before);
    forall m | 0 <= m < |before|
      ensures Receive.IsFor(ds[m], e.rtcp, e.ssrc) <==> before[m].Sent? && SameStream(es[before[m].i], e)
    {
      if before[m].Sent? {
        assert Possible(k, es, before[m]);
        assert Carries(k, es[before[m].i]);
      }
    }
    if m :| 0 <= m < |before| && before[m].Sent? && SameStream(es[before[m].i], e) && es[before[m].i].index == index {
      assert Receive.IsFor(ds[m], e.rtcp, e.ssrc) && ds[m].index == index;
    }
  }

  /** In terms of positions: an index is new exactly when the emission is. */
  lemma AcceptableMeansFirst(k: Keys, calls: seq<Send.Call>, before: seq<Pick>, i: nat)
    requires IdealKeys(k)
    requires var es := Send.Run(k, calls).1; AllPossible(k, es, before) && i < |es|
    ensures var es := Send.Run(k, calls).1;
            Receive.Acceptable(Deliveries(es, before), AsDelivery(es, Sent(i))) <==> FirstAndRecent(es, before, i)
  {
    var es := Send.Run(k, calls).1;
    RunCarries(k, calls);
    var e, ds := es[i], Deliveries(es, before);
    assert Carries(k, e);
    forall index: nat
      ensures index in Receive.Delivered(ds, e.rtcp, e.ssrc) <==>
              exists m :: 0 <= m < |before| && before[m].Sent?
                          && SameStream(es[before[m].i], e) && es[before[m].i].index == index
    {
      DeliveredArePicked(k, es, before, e, index);
    }
    forall m | 0 <= m < |before| && before[m].Sent? && SameStream(es[before[m].i], e)
      ensures es[before[m].i].index in Receive.Delivered(ds, e.rtcp, e.ssrc)
      ensures es[before[m].i].index == e.index ==> before[m].i == i
    {
      if es[before[m].i].index == e.index { IndexIsEmission(k, calls, before[m].i, i); }
    }
  }

  /**
   * For any run of a sender and any timely choice of deliveries, media and
   * control packets mixed, the receiver returns the packet of the n-th delivered
   * emission exactly when that emission arrives for the first time and fewer
   * than 64 behind the highest index of its SSRC and kind, calls every other
   * emission a replay, and returns nothing for what was injected.
   */
  lemma WhatIsSentIsDeliveredOnce(k: Keys, calls: seq<Send.Call>, picks: seq<Pick>, n: nat)
    requires IdealKeys(k)
    requires var es := Send.Run(k, calls).1;
             AllPossible(k, es, picks) && Receive.TimelyRun(Deliveries(es, picks)) && n < |picks|
    ensures var es := Send.Run(k, calls).1;
            var r := Receive.ReceiveAs(k, TableAfter(k, es, picks[..n]), AsControl(es, picks[n]), Wire(es, picks[n])).1;
            match picks[n]
            case Injected(_, _) => r.Err?
            case Sent(i) => r == if FirstAndRecent(es, picks[..n], i) then Ok(es[i].packet) else Err(Replayed)
  {
    var es := Send.Run(k, calls).1;
    RunCarries(k, calls);
    AllDeliverable(k, es, picks);
    var ds := Deliveries(es, picks);
    assert ds[..n] == Deliveries(es, picks[..n]);
    Receive.DeliveredExactlyOnce(k, ds, n);
    TableAfterIs(k, es, picks[..n]);
    PickIsDelivery(k, es, picks[n]);
    if picks[n].Sent? { AcceptableMeansFirst(k, calls, picks[..n], picks[n].i); }
  }
}
