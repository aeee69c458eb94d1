/**
 * Parsing the rewritten packet: exactly when it carries the promised header
 * fields, CSRCs, payload and extension elements.
 */
module RtpRewriteTheorem {
  import opened Wrappers
  import opened Bytes
  import opened Seqs
  import opened Buffers
  import opened RtpPackets
  import opened RtpRewrite

  /** The packet a subscriber should see. */
  ghost predicate Faithful(rw: Rewrite, p: RtpPacket, q: RtpPacket)
    requires ViewFits(p) && ViewFits(q)
  {
    && q.SequenceNumber() == rw.sequenceNumber
    && q.Timestamp() == rw.timestamp
    && q.Ssrc() == rw.ssrc
    && q.PayloadType() == (if rw.payloadType.Some? then rw.payloadType.value % 128 else p.PayloadType())
    && q.Marker() == p.Marker()
    && q.Csrcs() == p.Csrcs()
    && q.HasPadding() == p.HasPadding()
    && q.padding == p.padding
    && q.Payload() == p.Payload()
    && q.Extensions() == Planned(rw, p.Extensions())
  }

  /** Can the element form in use say how long the value is? */
  predicate LengthFits(e: Element, twoByte: bool) {
    |e.value| <= 255 && (!twoByte ==> |e.value| >= 1)
  }

  /**
   * What a caller can check: TWCC and MID are not both synthesised, a MID that
   * goes out has an expressible length, and the block length fits its field.
   */
  ghost predicate Expressible(rw: Rewrite, p: RtpPacket)
    requires ViewFits(p)
  {
    var es := p.Extensions();
    var plan := Planned(rw, es);
    && !(TwccInserted(rw, es) && MidInserted(rw, es))
    && (rw.mid.Some? && rw.outMap.Id(Mid).Some? ==> LengthFits(MidElement(rw), GoesTwoByte(p, plan)))
    && ExtDataLen(p, plan) / 4 < 0x1_0000
  }

  // ------------------------------------------------------------------------
  // Decoding what was encoded
  // ------------------------------------------------------------------------

  ghost predicate Encodable(e: Element, twoByte: bool) {
    e.id != 0 && LengthFits(e, twoByte) && (!twoByte ==> e.id <= 14 && |e.value| <= 16)
  }

  lemma {:induction false} ZerosHoldNoElements(n: nat, twoByte: bool)
    ensures Elements(Zeros(n), twoByte) == []
  {
    if n > 0 {
      assert Zeros(n)[1..] == Zeros(n - 1);
      ZerosHoldNoElements(n - 1, twoByte);
    }
  }

  lemma OneByteHeader(id: nat, len: nat)
    requires 1 <= id <= 14 && 1 <= len <= 16
    ensures var h := (id % 16 * 16 + (if len % 256 == 0 then 0 else len % 256 - 1) % 16) % 256;
            h / 16 == id && h % 16 + 1 == len
  {
    assert id % 16 == id && len % 256 == len && (len - 1) % 16 == len - 1;
    var h := 16 * id + (len - 1);
    assert h % 256 == h && h / 16 == id && h % 16 == len - 1;
  }

  lemma FirstOfEncoded(e: Element, twoByte: bool, rest: seq<byte>)
    requires Encodable(e, twoByte)
    ensures FirstElement(Encode(e, twoByte) + rest, twoByte) == Found(e, |Encode(e, twoByte)|)
  {
    var data := Encode(e, twoByte) + rest;
    var n := |e.value|;
    if twoByte {
      assert data[0] == e.id && data[1] == n;
      assert data[2..2 + n] == e.value;
    } else {
      OneByteHeader(e.id, n);
      assert data[0] == ElementHeader(e, twoByte)[0];
      assert data[1..1 + n] == e.value;
    }
  }

  lemma DecodeOne(e: Element, twoByte: bool, rest: seq<byte>)
    requires Encodable(e, twoByte)
    ensures Elements(Encode(e, twoByte) + rest, twoByte) == [e] + Elements(rest, twoByte)
  {
    FirstOfEncoded(e, twoByte, rest);
    assert (Encode(e, twoByte) + rest)[|Encode(e, twoByte)|..] == rest;
  }

  /** Decoding an encoded list gives the list back, then whatever follows it. */
  lemma {:induction false} DecodeEncoded(es: seq<Element>, twoByte: bool, rest: seq<byte>)
    requires forall i :: 0 <= i < |es| ==> Encodable(es[i], twoByte)
    ensures Elements(EncodeAll(es, twoByte) + rest, twoByte) == es + Elements(rest, twoByte)
    decreases |es|
  {
    if es == [] {
      assert EncodeAll(es, twoByte) + rest == rest;
    } else {
      var n := |es| - 1;
      var front, last := EncodeAll(es[..n], twoByte), Encode(es[n], twoByte);
      Assoc(front, last, rest);
      DecodeEncoded(es[..n], twoByte, last + rest);
      DecodeOne(es[n], twoByte, rest);
      var tail := Elements(rest, twoByte);
      LastIntoTail(es, tail);
    }
  }

  // ------------------------------------------------------------------------
  // The planned elements
  // ------------------------------------------------------------------------

  lemma {:induction false} MaxesBound(es: seq<Element>, i: nat)
    requires i < |es|
    ensures es[i].id <= MaxId(es) && |es[i].value| <= MaxLen(es)
  {
    var n := |es| - 1;
    if i < n {
      MaxesBound(es[..n], i);
      assert es[..n][i] == es[i];
    }
  }

  /** The only planned value that can have an inexpressible length is the MID. */
  lemma {:induction false} MappedFits(rw: Rewrite, es: seq<Element>, twoByte: bool, i: nat)
    requires i < |MapAll(rw, es)|
    requires forall k :: 0 <= k < |es| ==> LengthFits(es[k], twoByte)
    ensures var e := MapAll(rw, es)[i];
            && e.id != 0
            && (LengthFits(e, twoByte) || (rw.mid.Some? && rw.outMap.Id(Mid).Some? && e == MidElement(rw)))
  {
    var n := |es| - 1;
    if i < |MapAll(rw, es[..n])| {
      MappedFits(rw, es[..n], twoByte, i);
    }
  }

  /** Source elements have lengths that the outgoing form can express too. */
  lemma SourceFits(p: RtpPacket, plan: seq<Element>, k: nat)
    requires ViewFits(p) && k < |p.Extensions()| && plan != []
    ensures LengthFits(p.Extensions()[k], GoesTwoByte(p, plan))
  {
    var data := p.buf[p.ext.value.off..p.ext.value.off + p.ext.value.len];
    ElementsAreExpressible(data, p.ext.value.profile != PROFILE_ONE_BYTE);
    assert !IsTwoByteProfile(PROFILE_ONE_BYTE);
  }

  lemma PlannedFits(rw: Rewrite, p: RtpPacket, i: nat)
    requires ViewFits(p) && i < |Planned(rw, p.Extensions())|
    ensures var plan := Planned(rw, p.Extensions());
            var two := GoesTwoByte(p, plan);
            && plan[i].id != 0
            && (LengthFits(plan[i], two) || (rw.mid.Some? && rw.outMap.Id(Mid).Some? && plan[i] == MidElement(rw)))
            && (!two ==> plan[i].id <= 14 && |plan[i].value| <= 16)
  {
    var es := p.Extensions();
    var plan := Planned(rw, es);
    var two := GoesTwoByte(p, plan);
    MaxesBound(plan, i);
    if i < |MapAll(rw, es)| {
      forall k | 0 <= k < |es|
        ensures LengthFits(es[k], two)
      {
        SourceFits(p, plan, k);
      }
      MappedFits(rw, es, two, i);
      assert plan[i] == MapAll(rw, es)[i];
    } else {
      InsertedFits(rw, es, two, i);
    }
  }

  lemma InsertedFits(rw: Rewrite, es: seq<Element>, two: bool, i: nat)
    requires |MapAll(rw, es)| <= i < |Planned(rw, es)|
    ensures var e := Planned(rw, es)[i];
            && e.id != 0
            && (LengthFits(e, two) || (rw.mid.Some? && rw.outMap.Id(Mid).Some? && e == MidElement(rw)))
  {
    var n := |MapAll(rw, es)|;
    if TwccInserted(rw, es) && i == n {
      assert Planned(rw, es)[i] == TwccElement(rw) && |Be16(rw.twccSeq.value)| == 2;
    } else {
      assert Planned(rw, es)[i] == MidElement(rw);
    }
  }

  /** When the MID goes out it is one of the planned elements. */
  lemma {:induction false} CarriedMidIsMapped(rw: Rewrite, es: seq<Element>)
    requires rw.mid.Some? && Carries(rw, es, Mid)
    ensures rw.outMap.Id(Mid).Some? && MidElement(rw) in MapAll(rw, es)
  {
    var n := |es| - 1;
    if Survives(rw, es[n]) != Some(Mid) {
      CarriedMidIsMapped(rw, es[..n]);
    } else {
      assert Mapped(rw, es[n]) == [MidElement(rw)];
      assert MapAll(rw, es)[|MapAll(rw, es[..n])|] == MidElement(rw);
    }
  }

  lemma MidIsPlanned(rw: Rewrite, es: seq<Element>)
    requires rw.mid.Some? && rw.outMap.Id(Mid).Some?
    ensures MidElement(rw) in Planned(rw, es)
  {
    if Carries(rw, es, Mid) {
      CarriedMidIsMapped(rw, es);
    } else {
      var plan := Planned(rw, es);
      assert plan[|plan| - 1] == MidElement(rw);
    }
  }

  // ------------------------------------------------------------------------
  // The element area decodes to the plan, or cannot
  // ------------------------------------------------------------------------

  function Area(rw: Rewrite, p: RtpPacket): seq<Element>
    requires ViewFits(p)
  {
    var es := p.Extensions();
    Elements(ExtArea(rw, p, es), GoesTwoByte(p, Planned(rw, es)))
  }

  lemma AreaDecodes(rw: Rewrite, p: RtpPacket)
    requires ViewFits(p) && Expressible(rw, p)
    ensures Area(rw, p) == Planned(rw, p.Extensions())
  {
    var es := p.Extensions();
    var plan := Planned(rw, es);
    var two := GoesTwoByte(p, plan);
    PlanIsEncodable(rw, p);
    WrittenIsEncoded(rw, es, two);
    WrittenFits(rw, p, es);
    var n := ExtDataLen(p, plan) - |Written(rw, es, two)|;
    PaddedPlanDecodes(plan, two, n);
    assert ExtArea(rw, p, es) == EncodeAll(plan, two) + Zeros(n);
  }

  lemma PaddedPlanDecodes(plan: seq<Element>, two: bool, n: nat)
    requires forall i :: 0 <= i < |plan| ==> Encodable(plan[i], two)
    ensures Elements(EncodeAll(plan, two) + Zeros(n), two) == plan
  {
    DecodeEncoded(plan, two, Zeros(n));
    ZerosHoldNoElements(n, two);
    assert plan + [] == plan;
  }

  lemma PlanIsEncodable(rw: Rewrite, p: RtpPacket)
    requires ViewFits(p)
    requires var plan := Planned(rw, p.Extensions());
             rw.mid.Some? && rw.outMap.Id(Mid).Some? ==> LengthFits(MidElement(rw), GoesTwoByte(p, plan))
    ensures var plan := Planned(rw, p.Extensions());
            forall i :: 0 <= i < |plan| ==> Encodable(plan[i], GoesTwoByte(p, plan))
  {
    var plan := Planned(rw, p.Extensions());
    forall i | 0 <= i < |plan|
      ensures Encodable(plan[i], GoesTwoByte(p, plan))
    {
      PlannedFits(rw, p, i);
    }
  }

  lemma WrittenIsEncoded(rw: Rewrite, es: seq<Element>, two: bool)
    requires !(TwccInserted(rw, es) && MidInserted(rw, es))
    ensures Written(rw, es, two) == EncodeAll(Planned(rw, es), two)
  {
    var mapped := MapAll(rw, es);
    if TwccInserted(rw, es) {
      assert Planned(rw, es) == mapped + [TwccElement(rw)];
      EncodeOneMore(mapped, TwccElement(rw), two);
      assert |Be16(rw.twccSeq.value)| == 2;
      assert Encode(TwccElement(rw), two) == ElementHeader(TwccElement(rw), two) + TwccElement(rw).value;
    } else if MidInserted(rw, es) {
      assert Planned(rw, es) == mapped + [MidElement(rw)];
      EncodeOneMore(mapped, MidElement(rw), two);
    } else {
      assert Planned(rw, es) == mapped;
    }
  }

  lemma InexpressibleLengthIsLost(rw: Rewrite, p: RtpPacket)
    requires ViewFits(p) && rw.mid.Some? && rw.outMap.Id(Mid).Some?
    requires !LengthFits(MidElement(rw), GoesTwoByte(p, Planned(rw, p.Extensions())))
    ensures Area(rw, p) != Planned(rw, p.Extensions())
  {
    var es := p.Extensions();
    var two := GoesTwoByte(p, Planned(rw, es));
    ElementsAreExpressible(ExtArea(rw, p, es), two);
    MidIsPlanned(rw, es);
  }

  /** Where the first element of an area has its value: behind a nonzero header octet. */
  ghost predicate ValueAt(data: seq<byte>, two: bool, v: seq<byte>, at: nat) {
    var header := if two then 2 else 1;
    header <= at && at + |v| <= |data| && v == data[at..at + |v|] && data[at - header] != 0
  }

  lemma {:induction false} FirstValueAt(data: seq<byte>, two: bool) returns (at: nat)
    requires Elements(data, two) != []
    ensures ValueAt(data, two, Elements(data, two)[0].value, at)
    decreases |data|
  {
    match FirstElement(data, two)
    case Skip =>
      var rest := data[1..];
      var k := FirstValueAt(rest, two);
      ValueOneLater(data, two, Elements(rest, two)[0].value, k);
      at := k + 1;
    case Found(e, size) =>
      at := size - |e.value|;
  }

  lemma ValueOneLater(data: seq<byte>, two: bool, v: seq<byte>, k: nat)
    requires data != [] && ValueAt(data[1..], two, v, k)
    ensures ValueAt(data, two, v, k + 1)
  {
    assert data[1..][k..k + |v|] == data[k + 1..k + 1 + |v|];
  }

  /** A string cannot be its own proper tail followed by zeros unless it is all zeros. */
  lemma {:induction false} ShiftedIntoItself(v: seq<byte>, tail: seq<byte>, shift: nat, j: nat)
    requires shift > 0
    requires forall i :: |v| <= i < |tail| ==> tail[i] == 0
    requires |v| + shift <= |tail|
    requires forall i :: 0 <= i < |v| ==> tail[i] == v[i] && v[i] == tail[i + shift]
    requires j < |tail|
    ensures tail[j] == 0
    decreases |tail| - j
  {
    if j < |v| { ShiftedIntoItself(v, tail, shift, j + shift); }
  }

  /** After a MID value and zeros, no element can hold that same MID value again. */
  lemma OverlaidMidIsLost(mid: seq<byte>, skip: nat, zeros: nat, two: bool)
    requires skip <= |mid|
    requires Elements((mid + Zeros(zeros))[skip..], two) != []
    ensures Elements((mid + Zeros(zeros))[skip..], two)[0].value != mid
  {
    var all := mid + Zeros(zeros);
    var tail := all[skip..];
    var at := FirstValueAt(tail, two);
    var header := if two then 2 else 1;
    if Elements(tail, two)[0].value == mid {
      forall i | 0 <= i < |mid|
        ensures all[i] == mid[i] && mid[i] == all[i + (skip + at)]
      {
        assert mid[i] == tail[at..at + |mid|][i] == tail[at + i] == all[skip + (at + i)];
      }
      var j := skip + at - header;
      assert tail[at - header] == all[j];
      ShiftedIntoItself(mid, all, skip + at, j);
    }
  }

  /** What an area decodes to when a MID element lies on the two octets of a TWCC value. */
  lemma OverlaidArea(mapped: seq<Element>, twcc: Element, over: seq<byte>, two: bool, zeros: seq<byte>)
    requires forall i :: 0 <= i < |mapped| ==> Encodable(mapped[i], two)
    requires Encodable(twcc, two) && |twcc.value| == 2 && |over| >= 2
    ensures Elements(EncodeAll(mapped, two) + ElementHeader(twcc, two) + over + zeros, two) ==
            mapped + ([Element(twcc.id, over[..2])] + Elements(over[2..] + zeros, two))
  {
    var head := ElementHeader(twcc, two);
    var seen := Element(twcc.id, over[..2]);
    var rest := over[2..] + zeros;
    assert head == ElementHeader(seen, two);
    SplitMiddle(EncodeAll(mapped, two), head, over, zeros, 2);
    DecodeEncoded(mapped, two, Encode(seen, two) + rest);
    DecodeOne(seen, two, rest);
  }

  lemma OverlaidIsLost(mapped: seq<Element>, twcc: Element, mid: Element, two: bool, n: nat)
    requires forall i :: 0 <= i < |mapped| ==> Encodable(mapped[i], two)
    requires Encodable(twcc, two) && |twcc.value| == 2 && Encodable(mid, two)
    ensures Elements(EncodeAll(mapped, two) + ElementHeader(twcc, two) + Encode(mid, two) + Zeros(n), two) !=
            mapped + ([twcc] + [mid])
  {
    var over := Encode(mid, two);
    var skip := if two then 0 else 1;
    var rest := over[2..] + Zeros(n);
    OverlaidArea(mapped, twcc, over, two, Zeros(n));
    BehindTwoOctets(mid, two, Zeros(n));
    if mapped + ([Element(twcc.id, over[..2])] + Elements(rest, two)) == mapped + ([twcc] + [mid]) {
      SameTails(mapped, Element(twcc.id, over[..2]), twcc, Elements(rest, two), [mid]);
      OverlaidMidIsLost(mid.value, skip, n, two);
    }
  }

  lemma BehindTwoOctets(mid: Element, two: bool, zeros: seq<byte>)
    requires Encodable(mid, two)
    ensures |Encode(mid, two)| >= 2
    ensures Encode(mid, two)[2..] + zeros == (mid.value + zeros)[if two then 0 else 1..]
  {
  }

  /** With both synthesised, the MID lies on the TWCC value and the list is never the plan. */
  lemma BothSynthesisedIsLost(rw: Rewrite, p: RtpPacket)
    requires ViewFits(p)
    requires TwccInserted(rw, p.Extensions()) && MidInserted(rw, p.Extensions())
    requires LengthFits(MidElement(rw), GoesTwoByte(p, Planned(rw, p.Extensions())))
    ensures Area(rw, p) != Planned(rw, p.Extensions())
  {
    var es := p.Extensions();
    var plan := Planned(rw, es);
    var two := GoesTwoByte(p, plan);
    var mapped, twcc, mid := MapAll(rw, es), TwccElement(rw), MidElement(rw);
    PlanIsEncodable(rw, p);
    assert plan == mapped + ([twcc] + [mid]);
    PlanParts(mapped, twcc, mid, two, plan);
    WrittenFits(rw, p, es);
    assert Overlay(Encode(mid, two), twcc.value) == Encode(mid, two);
    OverlaidIsLost(mapped, twcc, mid, two, ExtDataLen(p, plan) - |Written(rw, es, two)|);
  }

  lemma PlanParts(mapped: seq<Element>, a: Element, b: Element, two: bool, plan: seq<Element>)
    requires plan == mapped + ([a] + [b])
    requires forall i :: 0 <= i < |plan| ==> Encodable(plan[i], two)
    ensures forall i :: 0 <= i < |mapped| ==> Encodable(mapped[i], two)
    ensures Encodable(a, two) && Encodable(b, two)
  {
    assert forall i :: 0 <= i < |mapped| ==> plan[i] == mapped[i];
    assert plan[|mapped|] == a && plan[|mapped| + 1] == b;
  }
}
