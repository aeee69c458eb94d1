/** The two-pass, in-place rendering of a forwarded packet, proved to write exactly `Output`. */
module RtpRewriter {
  import opened Wrappers
  import opened Bytes
  import opened Buffers
  import opened Seqs
  import opened RtpPackets
  import opened RtpRewrite

  /** What the sizing pass learns of a list of elements. */
  datatype Sizes = Sizes(count: nat, dataBytes: nat, maxId: nat, maxLen: nat) {
    function Add(id: nat, len: nat): Sizes {
      Sizes(count + 1, dataBytes + len, if id > maxId then id else maxId, if len > maxLen then len else maxLen)
    }
  }

  ghost function SizesOf(es: seq<Element>): Sizes {
    Sizes(|es|, DataBytes(es), MaxId(es), MaxLen(es))
  }

  lemma SizesOfOneMore(es: seq<Element>, e: Element)
    ensures SizesOf(es + [e]) == SizesOf(es).Add(e.id, |e.value|)
  {
    SizeOfOneMore(es, e);
  }

  lemma MapOneMore(rw: Rewrite, es: seq<Element>, e: Element)
    ensures MapAll(rw, es + [e]) == MapAll(rw, es) + Mapped(rw, e)
    ensures forall k :: Carries(rw, es + [e], k) == (Carries(rw, es, k) || Survives(rw, e) == Some(k))
  {
    assert (es + [e])[..|es|] == es;
  }

  /** The sizes after one source element more. */
  function AddMapped(rw: Rewrite, s: Sizes, e: Element): Sizes {
    match Survives(rw, e)
    case None => s
    case Some(kind) => s.Add(rw.outMap.Id(kind).value, |ValueFor(rw, kind, e.value)|)
  }

  lemma AddMappedIsRight(rw: Rewrite, es: seq<Element>, e: Element)
    ensures AddMapped(rw, SizesOf(MapAll(rw, es)), e) == SizesOf(MapAll(rw, es + [e]))
  {
    MapOneMore(rw, es, e);
    match Survives(rw, e)
    case None => assert MapAll(rw, es) + [] == MapAll(rw, es);
    case Some(kind) => SizesOfOneMore(MapAll(rw, es), Mapped(rw, e)[0]);
  }

  /** Pass 1: sizes of the surviving elements, and whether TWCC and MID are among them. */
  method SizeSurvivors(es: seq<Element>, rw: Rewrite) returns (s: Sizes, twccEmitted: bool, midEmitted: bool)
    ensures s == SizesOf(MapAll(rw, es))
    ensures twccEmitted == Carries(rw, es, Twcc)
    ensures midEmitted == Carries(rw, es, Mid)
  {
    s, twccEmitted, midEmitted := Sizes(0, 0, 0, 0), false, false;
    for i := 0 to |es|
      invariant s == SizesOf(MapAll(rw, es[..i]))
      invariant twccEmitted == Carries(rw, es[..i], Twcc)
      invariant midEmitted == Carries(rw, es[..i], Mid)
    {
      var kind := Survives(rw, es[i]);
      AddMappedIsRight(rw, es[..i], es[i]);
      MapOneMore(rw, es[..i], es[i]);
      assert es[..i + 1] == es[..i] + [es[i]];
      s := AddMapped(rw, s, es[i]);
      twccEmitted := twccEmitted || kind == Some(Twcc);
      midEmitted := midEmitted || kind == Some(Mid);
    }
    assert es[..|es|] == es;
  }

  /** Writes one element at `w` and returns the cursor behind it. */
  method PutElement(out: array<byte>, w: nat, e: Element, twoByte: bool) returns (w': nat)
    requires w + |Encode(e, twoByte)| <= out.Length
    modifies out
    ensures w' == w + |Encode(e, twoByte)|
    ensures out[..w'] == old(out[..w]) + Encode(e, twoByte)
    ensures forall i :: w' <= i < out.Length ==> out[i] == old(out[i])
  {
    var head := ElementHeader(e, twoByte);
    Assoc(out[..w], head, e.value);
    w' := Append(out, w, head);
    w' := Append(out, w', e.value);
  }

  /** The octets of the elements that survive from a list of source elements. */
  function Survivors(rw: Rewrite, es: seq<Element>, twoByte: bool): seq<byte> {
    EncodeAll(MapAll(rw, es), twoByte)
  }

  lemma SurvivorsOneMore(rw: Rewrite, es: seq<Element>, e: Element, twoByte: bool)
    ensures Survives(rw, e).None? ==> Survivors(rw, es + [e], twoByte) == Survivors(rw, es, twoByte)
    ensures Survives(rw, e).Some? ==>
              Survivors(rw, es + [e], twoByte) == Survivors(rw, es, twoByte) + Encode(Mapped(rw, e)[0], twoByte)
  {
    MapOneMore(rw, es, e);
    if Survives(rw, e).Some? {
      EncodeOneMore(MapAll(rw, es), Mapped(rw, e)[0], twoByte);
    } else {
      assert MapAll(rw, es) + [] == MapAll(rw, es);
    }
  }

  lemma SurvivorsStep(rw: Rewrite, es: seq<Element>, i: nat, twoByte: bool)
    requires i < |es|
    ensures var before, after := Survivors(rw, es[..i], twoByte), Survivors(rw, es[..i + 1], twoByte);
            if Survives(rw, es[i]).None? then after == before else after == before + Encode(Mapped(rw, es[i])[0], twoByte)
  {
    assert es[..i + 1] == es[..i] + [es[i]];
    SurvivorsOneMore(rw, es[..i], es[i], twoByte);
  }

  lemma {:induction false} SurvivorsGrow(rw: Rewrite, es: seq<Element>, i: nat, twoByte: bool)
    requires i <= |es|
    ensures |Survivors(rw, es[..i], twoByte)| <= |Survivors(rw, es, twoByte)|
    decreases |es| - i
  {
    if i < |es| {
      SurvivorsStep(rw, es, i, twoByte);
      SurvivorsGrow(rw, es, i + 1, twoByte);
    } else {
      assert es[..i] == es;
    }
  }

  /** Pass 2, the surviving elements: written from `start` on, in source order. */
  method PutSurvivors(es: seq<Element>, rw: Rewrite, out: array<byte>, start: nat, twoByte: bool) returns (w: nat)
    requires start + |Survivors(rw, es, twoByte)| <= out.Length
    modifies out
    ensures w == start + |Survivors(rw, es, twoByte)|
    ensures out[..w] == old(out[..start]) + Survivors(rw, es, twoByte)
    ensures forall i :: w <= i < out.Length ==> out[i] == old(out[i])
  {
    ghost var front := out[..start];
    w := start;
    for i := 0 to |es|
      invariant w == start + |Survivors(rw, es[..i], twoByte)| <= out.Length
      invariant out[..w] == front + Survivors(rw, es[..i], twoByte)
      invariant forall k :: w <= k < out.Length ==> out[k] == old(out[k])
    {
      var kind := Survives(rw, es[i]);
      SurvivorsGrow(rw, es, i + 1, twoByte);
      SurvivorsStep(rw, es, i, twoByte);
      if kind.Some? {
        var mapped := Element(rw.outMap.Id(kind.value).value, ValueFor(rw, kind.value, es[i].value));
        Assoc(front, Survivors(rw, es[..i], twoByte), Encode(mapped, twoByte));
        w := PutElement(out, w, mapped, twoByte);
      }
    }
    assert es[..|es|] == es;
  }

  /** The synthesised elements. The cursor is not moved past a synthesised TWCC value. */
  method PutSynthesised(rw: Rewrite, ghost es: seq<Element>, twcc: bool, mid: bool, out: array<byte>,
                        w: nat, twoByte: bool, ghost front: seq<byte>)
    requires twcc == TwccInserted(rw, es) && mid == MidInserted(rw, es)
    requires w == |front| + |Survivors(rw, es, twoByte)|
    requires |front| + |Written(rw, es, twoByte)| <= out.Length
    requires out[..w] == front + Survivors(rw, es, twoByte)
    modifies out
    ensures out[..|front| + |Written(rw, es, twoByte)|] == front + Written(rw, es, twoByte)
    ensures forall i :: |front| + |Written(rw, es, twoByte)| <= i < out.Length ==> out[i] == old(out[i])
  {
    if twcc && mid {
      PutBoth(TwccElement(rw), MidElement(rw), out, w, twoByte);
      RegroupOverlay(front, Survivors(rw, es, twoByte), ElementHeader(TwccElement(rw), twoByte),
                     Overlay(Encode(MidElement(rw), twoByte), TwccElement(rw).value));
    } else if twcc {
      var w' := PutElement(out, w, TwccElement(rw), twoByte);
      RegroupOverlay(front, Survivors(rw, es, twoByte), ElementHeader(TwccElement(rw), twoByte), TwccElement(rw).value);
    } else if mid {
      var w' := PutElement(out, w, MidElement(rw), twoByte);
      Assoc(front, Survivors(rw, es, twoByte), Encode(MidElement(rw), twoByte));
    }
  }

  lemma RegroupOverlay(a: seq<byte>, b: seq<byte>, c: seq<byte>, d: seq<byte>)
    ensures (a + b) + (c + d) == a + (b + c + d)
    ensures (a + b) + c + d == a + (b + c + d)
  {
  }

  /** TWCC, then MID on top of the TWCC value. */
  method PutBoth(twcc: Element, mid: Element, out: array<byte>, w: nat, twoByte: bool)
    requires w + |ElementHeader(twcc, twoByte)| + |Overlay(Encode(mid, twoByte), twcc.value)| <= out.Length
    modifies out
    ensures var end := w + |ElementHeader(twcc, twoByte)| + |Overlay(Encode(mid, twoByte), twcc.value)|;
            && out[..end] == old(out[..w]) + ElementHeader(twcc, twoByte) + Overlay(Encode(mid, twoByte), twcc.value)
            && (forall i :: end <= i < out.Length ==> out[i] == old(out[i]))
  {
    ghost var over := Encode(mid, twoByte);
    var w' := Append(out, w, ElementHeader(twcc, twoByte));
    ghost var front := out[..w'];
    var behind := Append(out, w', twcc.value);
    ghost var middle := out[..];
    assert middle[..w'] == front;
    var end := PutElement(out, w', mid, twoByte);
    OverlayReads(middle, out[..], front, twcc.value, over);
  }

  lemma OverlayReads(middle: seq<byte>, after: seq<byte>, front: seq<byte>, value: seq<byte>, over: seq<byte>)
    requires |middle| == |after| && |front| + |value| <= |middle| && |front| + |over| <= |middle|
    requires middle[..|front| + |value|] == front + value
    requires after[..|front| + |over|] == front + over
    requires forall i :: |front| + |over| <= i < |middle| ==> after[i] == middle[i]
    ensures after[..|front| + |Overlay(over, value)|] == front + Overlay(over, value)
  {
    var k := |front| + |over|;
    if |over| < |value| {
      forall i | |over| <= i < |value|
        ensures after[|front| + i] == value[i]
      {
        assert middle[|front| + i] == (front + value)[|front| + i];
      }
      assert after[..|front| + |value|] == after[..k] + after[k..|front| + |value|];
    }
  }

  /** The profile and word count of the extension block, and a zeroed element area. */
  method PutExtHeader(profile: u16, dataLen: nat, out: array<byte>, w: nat) returns (w': nat)
    requires w + 4 + dataLen <= out.Length
    modifies out
    ensures w' == w + 4
    ensures out[..w'] == old(out[..w]) + Be16(profile) + Be16(dataLen / 4 % 0x1_0000)
    ensures forall i :: w' <= i < w' + dataLen ==> out[i] == 0
    ensures forall i :: w' + dataLen <= i < out.Length ==> out[i] == old(out[i])
  {
    w' := Append(out, w, Be16(profile));
    w' := Append(out, w', Be16(dataLen / 4 % 0x1_0000));
    ghost var head := out[..w'];
    var end := Append(out, w', Zeros(dataLen));
    ZerosBehind(out[..], head, dataLen);
  }

  /** The elements, over a zeroed area. */
  method PutElements(rw: Rewrite, es: seq<Element>, out: array<byte>, w: nat, twoByte: bool,
                     dataLen: nat, twcc: bool, mid: bool)
    requires twcc == TwccInserted(rw, es) && mid == MidInserted(rw, es)
    requires |Written(rw, es, twoByte)| <= dataLen && w + dataLen <= out.Length
    requires forall i :: w <= i < w + dataLen ==> out[i] == 0
    modifies out
    ensures out[..w + dataLen] ==
            old(out[..w]) + (Written(rw, es, twoByte) + Zeros(dataLen - |Written(rw, es, twoByte)|))
    ensures forall i :: w + dataLen <= i < out.Length ==> out[i] == old(out[i])
  {
    SurvivorsAreWritten(rw, es, twoByte);
    ghost var head := out[..w];
    var w' := PutSurvivors(es, rw, out, w, twoByte);
    PutSynthesised(rw, es, twcc, mid, out, w', twoByte, head);
    AreaReads(out[..], head, Written(rw, es, twoByte), dataLen);
  }

  method PutExtensions(profile: u16, es: seq<Element>, rw: Rewrite, out: array<byte>, w: nat, twoByte: bool,
                       dataLen: nat, twcc: bool, mid: bool)
    requires twcc == TwccInserted(rw, es) && mid == MidInserted(rw, es)
    requires |Written(rw, es, twoByte)| <= dataLen && w + 4 + dataLen <= out.Length
    modifies out
    ensures out[..w + 4 + dataLen] == old(out[..w]) + Block(profile, dataLen, Written(rw, es, twoByte))
  {
    ghost var front := out[..w];
    var w' := PutExtHeader(profile, dataLen, out, w);
    PutElements(rw, es, out, w', twoByte, dataLen, twcc, mid);
    ghost var written := Written(rw, es, twoByte);
    RegroupBlock(front, Be16(profile), Be16(dataLen / 4 % 0x1_0000), written + Zeros(dataLen - |written|));
  }

  /** An extension block from its profile, the size of its area, and the octets in it. */
  function Block(profile: u16, dataLen: nat, written: seq<byte>): seq<byte>
    requires |written| <= dataLen
  {
    Be16(profile) + Be16(dataLen / 4 % 0x1_0000) + (written + Zeros(dataLen - |written|))
  }

  lemma BlockIsPlanned(rw: Rewrite, p: RtpPacket, es: seq<Element>)
    requires Planned(rw, es) != []
    ensures var plan := Planned(rw, es);
            var two := GoesTwoByte(p, plan);
            && |Written(rw, es, two)| <= ExtDataLen(p, plan)
            && ExtBlock(rw, p, es) == Block(OutProfile(p, two), ExtDataLen(p, plan), Written(rw, es, two))
  {
    WrittenFits(rw, p, es);
  }

  lemma SurvivorsAreWritten(rw: Rewrite, es: seq<Element>, twoByte: bool)
    ensures |Survivors(rw, es, twoByte)| <= |Written(rw, es, twoByte)|
  {
  }

  lemma ZerosBehind(out: seq<byte>, head: seq<byte>, n: nat)
    requires |head| + n <= |out| && out[..|head| + n] == head + Zeros(n)
    ensures out[..|head|] == head
    ensures forall i :: |head| <= i < |head| + n ==> out[i] == 0
  {
    assert forall i :: 0 <= i < |head| + n ==> out[i] == (head + Zeros(n))[i];
  }

  lemma AreaReads(out: seq<byte>, head: seq<byte>, written: seq<byte>, n: nat)
    requires |head| + n <= |out| && |written| <= n
    requires out[..|head| + |written|] == head + written
    requires forall i :: |head| + |written| <= i < |head| + n ==> out[i] == 0
    ensures out[..|head| + n] == head + (written + Zeros(n - |written|))
  {
    var k := |head| + |written|;
    assert out[k..|head| + n] == Zeros(n - |written|);
    assert out[..|head| + n] == out[..k] + out[k..|head| + n];
  }

  lemma RegroupBlock(a: seq<byte>, b: seq<byte>, c: seq<byte>, d: seq<byte>)
    ensures (a + b + c) + d == a + (b + c + d)
  {
  }

  /** The whole packet, when the buffer holds it. */
  method PutPacket(p: RtpPacket, es: seq<Element>, rw: Rewrite, out: array<byte>, emitExt: bool, twoByte: bool,
                   dataLen: nat, twcc: bool, mid: bool) returns (n: nat)
    requires ViewFits(p) && es == p.Extensions()
    requires emitExt == (Planned(rw, es) != [])
    requires twoByte == GoesTwoByte(p, Planned(rw, es)) && dataLen == ExtDataLen(p, Planned(rw, es))
    requires twcc == TwccInserted(rw, es) && mid == MidInserted(rw, es)
    requires |Output(rw, p)| <= out.Length
    modifies out
    ensures n == |Output(rw, p)| && out[..n] == Output(rw, p)
  {
    var w := Append(out, 0, FixedHeader(rw, p, emitExt));
    assert out[..w] == FixedHeader(rw, p, emitExt);
    w := Append(out, w, p.Csrcs());
    ghost var front := out[..w];
    if emitExt {
      BlockIsPlanned(rw, p, es);
      PutExtensions(OutProfile(p, twoByte), es, rw, out, w, twoByte, dataLen, twcc, mid);
      w := w + 4 + dataLen;
    }
    assert out[..w] == front + ExtBlock(rw, p, es);
    n := Append(out, w, p.Body());
  }

  /**
   * Renders the forwarded packet, or reports the exact size it needs. The
   * first pass only sizes; nothing is written unless everything fits.
   */
  method RewriteInto(p: RtpPacket, rw: Rewrite, out: array<byte>) returns (r: Result<nat, RtpError>)
    requires ViewFits(p)
    modifies out
    ensures out.Length >= |Output(rw, p)| ==> r == Ok(|Output(rw, p)|) && out[..|Output(rw, p)|] == Output(rw, p)
    ensures out.Length < |Output(rw, p)| ==>
              r == Err(BufferTooSmall(|Output(rw, p)|, out.Length)) && out[..] == old(out[..])
  {
    var es := p.Extensions();
    var emitExt, twoByte, dataLen, twcc, mid := SizePass(p, es, rw);
    var needed := 12 + 4 * p.CsrcCount() + (if emitExt then 4 + dataLen else 0) + |p.Body()|;
    assert needed == |Output(rw, p)|;
    if out.Length < needed {
      return Err(BufferTooSmall(needed, out.Length));
    }
    var n := PutPacket(p, es, rw, out, emitExt, twoByte, dataLen, twcc, mid);
    r := Ok(n);
  }

  /** Pass 1: what will be emitted, in which form, and how large the element area becomes. */
  method SizePass(p: RtpPacket, es: seq<Element>, rw: Rewrite)
    returns (emitExt: bool, twoByte: bool, dataLen: nat, twcc: bool, mid: bool)
    ensures emitExt == (Planned(rw, es) != [])
    ensures twoByte == GoesTwoByte(p, Planned(rw, es))
    ensures dataLen == ExtDataLen(p, Planned(rw, es))
    ensures twcc == TwccInserted(rw, es) && mid == MidInserted(rw, es)
  {
    var s;
    s, twcc, mid := SizePlan(es, rw);
    emitExt := s.count > 0;
    twoByte := emitExt && (p.UsesTwoByteForm() || s.maxId > 14 || s.maxLen > 16);
    dataLen := Padded(s.dataBytes + s.count * (if twoByte then 2 else 1));
  }

  /** The sizes of everything that will be emitted, and what has to be synthesised. */
  method SizePlan(es: seq<Element>, rw: Rewrite) returns (s: Sizes, twcc: bool, mid: bool)
    ensures s == SizesOf(Planned(rw, es))
    ensures twcc == TwccInserted(rw, es) && mid == MidInserted(rw, es)
  {
    var twccEmitted, midEmitted;
    s, twccEmitted, midEmitted := SizeSurvivors(es, rw);
    twcc := !twccEmitted && rw.twccSeq.Some? && rw.outMap.Id(Twcc).Some?;
    if twcc { s := s.Add(rw.outMap.Id(Twcc).value, 2); }
    mid := !midEmitted && rw.mid.Some? && rw.outMap.Id(Mid).Some?;
    if mid { s := s.Add(rw.outMap.Id(Mid).value, |rw.mid.value|); }
    PlannedSizes(rw, es);
  }

  /** The sizes of the planned elements, from those of the surviving ones. */
  lemma PlannedSizes(rw: Rewrite, es: seq<Element>)
    ensures var s := SizesOf(MapAll(rw, es));
            var s1 := if TwccInserted(rw, es) then s.Add(rw.outMap.Id(Twcc).value, 2) else s;
            var s2 := if MidInserted(rw, es) then s1.Add(rw.outMap.Id(Mid).value, |rw.mid.value|) else s1;
            s2 == SizesOf(Planned(rw, es))
  {
    var mapped := MapAll(rw, es);
    var plan1 := if TwccInserted(rw, es) then mapped + [TwccElement(rw)] else mapped;
    if TwccInserted(rw, es) { SizesOfOneMore(mapped, TwccElement(rw)); }
    if MidInserted(rw, es) {
      SizesOfOneMore(plan1, MidElement(rw));
      assert Planned(rw, es) == plan1 + [MidElement(rw)];
    } else {
      assert Planned(rw, es) == plan1;
    }
  }
}
