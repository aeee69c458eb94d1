/**
 * Answering an offer at the level of its media sections: which payload types are
 * kept, which sections are rejected, and what is bundled. Codec names are taken
 * case-folded and `apt=` parameters parsed.
 */
module SdpAnswer {
  import opened Wrappers

  datatype Kind = Audio | Video | Other(name: string)

  datatype Section = Section(
    kind: Kind,
    port: nat,
    isRtp: bool,
    mid: Option<string>,
    payloads: seq<nat>,
    codecs: map<nat, string>, // a=rtpmap
    apts: map<nat, seq<nat>>) // apt of each a=fmtp that has one

  datatype Config = Config(
    audioCodecs: seq<string>,
    videoCodecs: seq<string>,
    iceUfrag: string,
    icePwd: string,
    candidates: seq<string>)

  function Supported(kind: Kind, config: Config): seq<string> {
    match kind
    case Audio => config.audioCodecs
    case Video => config.videoCodecs
    case Other(_) => []
  }

  /** The elements that are in a set, in order. */
  function Filter(xs: seq<nat>, keep: set<nat>): seq<nat> {
    if xs == [] then []
    else Filter(xs[..|xs| - 1], keep) + (if xs[|xs| - 1] in keep then [xs[|xs| - 1]] else [])
  }

  predicate IsCodec(m: Section, supported: seq<string>, pt: nat) {
    pt in m.codecs && m.codecs[pt] in supported
  }

  /** An RTX payload whose `apt` names one of these codecs. */
  predicate IsRepair(m: Section, kept: set<nat>, pt: nat) {
    pt !in kept && pt in m.codecs && m.codecs[pt] == "rtx"
    && pt in m.apts && exists i :: 0 <= i < |m.apts[pt]| && m.apts[pt][i] in kept
  }

  /** The offered payloads that are supported codecs. */
  function CodecsOf(m: Section, supported: seq<string>): set<nat> {
    set pt | pt in m.payloads && IsCodec(m, supported, pt)
  }

  function RepairsOf(m: Section, kept: set<nat>): set<nat> {
    set pt | pt in m.payloads && IsRepair(m, kept, pt)
  }

  /** Supported codecs and the repair payloads bound to one of them, in the order offered. */
  function SelectPayloads(m: Section, config: Config): seq<nat> {
    if m.port == 0 || !m.isRtp || m.kind.Other? then []
    else
      var kept := CodecsOf(m, Supported(m.kind, config));
      Filter(m.payloads, kept + RepairsOf(m, kept))
  }

  // ── Which payloads are kept ───────────────────────────────────────────

  lemma {:induction false} FilterHas(xs: seq<nat>, keep: set<nat>, x: nat)
    ensures x in Filter(xs, keep) <==> x in xs && x in keep
  {
    if xs != [] {
      FilterHas(xs[..|xs| - 1], keep, x);
      assert xs == xs[..|xs| - 1] + [xs[|xs| - 1]];
    }
  }

  /** `ys` is `xs` with some elements left out. */
  ghost predicate Sublist(ys: seq<nat>, xs: seq<nat>) {
    if ys == [] then true
    else if xs == [] then false
    else Sublist(ys, xs[..|xs| - 1]) || (ys[|ys| - 1] == xs[|xs| - 1] && Sublist(ys[..|ys| - 1], xs[..|xs| - 1]))
  }

  lemma {:induction false} FilterIsSublist(xs: seq<nat>, keep: set<nat>)
    ensures Sublist(Filter(xs, keep), xs)
  {
    if xs != [] {
      var front, last := xs[..|xs| - 1], xs[|xs| - 1];
      FilterIsSublist(front, keep);
      var ys := Filter(xs, keep);
      if last in keep {
        assert ys[..|ys| - 1] == Filter(front, keep) && ys[|ys| - 1] == last;
      } else {
        assert ys == Filter(front, keep);
      }
    }
  }

  lemma {:induction false} KeepAll(xs: seq<nat>, keep: set<nat>)
    requires forall x :: x in xs ==> x in keep
    ensures Filter(xs, keep) == xs
  {
    if xs != [] {
      assert xs == xs[..|xs| - 1] + [xs[|xs| - 1]];
      KeepAll(xs[..|xs| - 1], keep);
    }
  }

  ghost predicate Usable(m: Section) {
    m.port != 0 && m.isRtp && !m.kind.Other?
  }

  /**
   * The selection keeps the offered order, and a payload is kept exactly when it
   * was offered on a usable section and is a supported codec, or repairs one: an
   * RTX payload goes when the codec its `apt` names goes.
   */
  lemma KeptIff(m: Section, config: Config, pt: nat)
    ensures Sublist(SelectPayloads(m, config), m.payloads)
    ensures pt in SelectPayloads(m, config) <==>
              && Usable(m) && pt in m.payloads
              && (IsCodec(m, Supported(m.kind, config), pt) || IsRepair(m, CodecsOf(m, Supported(m.kind, config)), pt))
  {
    var kept := CodecsOf(m, Supported(m.kind, config));
    FilterIsSublist(m.payloads, kept + RepairsOf(m, kept));
    FilterHas(m.payloads, kept + RepairsOf(m, kept), pt);
  }

  /** With RTX not itself configured as a codec, an RTX payload is kept exactly when its `apt` names a kept codec that is not RTX. */
  lemma RepairKeptIff(m: Section, config: Config, pt: nat)
    requires "rtx" !in Supported(m.kind, config)
    requires Usable(m) && pt in m.payloads && pt in m.codecs && m.codecs[pt] == "rtx"
    ensures pt in SelectPayloads(m, config) <==>
              pt in m.apts && exists i :: 0 <= i < |m.apts[pt]| && KeptCodec(m, config, m.apts[pt][i])
  {
    KeptIff(m, config, pt);
    var kept := CodecsOf(m, Supported(m.kind, config));
    if pt in m.apts {
      forall i | 0 <= i < |m.apts[pt]| ensures m.apts[pt][i] in kept <==> KeptCodec(m, config, m.apts[pt][i]) {
        KeptIff(m, config, m.apts[pt][i]);
      }
    }
  }

  ghost predicate KeptCodec(m: Section, config: Config, apt: nat) {
    apt in SelectPayloads(m, config) && apt in m.codecs && m.codecs[apt] != "rtx"
  }

  // ── The answer ────────────────────────────────────────────────────────

  function Only<V>(m: map<nat, V>, keys: seq<nat>): map<nat, V> {
    map k | k in m && k in keys :: m[k]
  }

  /** A rejected section mirrors its formats under port 0; an accepted one carries the selection and its lines. */
  function AnswerSection(m: Section, config: Config): Section {
    var selected := SelectPayloads(m, config);
    if selected == [] then Section(m.kind, 0, m.isRtp, m.mid, m.payloads, map[], map[])
    else Section(m.kind, 9, m.isRtp, m.mid, selected, Only(m.codecs, selected), Only(m.apts, selected))
  }

  datatype Answer = Answer(bundle: seq<string>, sections: seq<Section>)

  datatype AnswerError = NoMedia | EmptyUfrag | EmptyPwd | NoCandidate

  function BundledMids(offer: seq<Section>, config: Config): seq<string> {
    if offer == [] then []
    else
      var front, last := BundledMids(offer[..|offer| - 1], config), offer[|offer| - 1];
      if SelectPayloads(last, config) != [] && last.mid.Some? then front + [last.mid.value] else front
  }

  function AllSections(offer: seq<Section>, config: Config): (ss: seq<Section>)
    ensures |ss| == |offer| && forall i :: 0 <= i < |offer| ==> ss[i] == AnswerSection(offer[i], config)
  {
    seq(|offer|, i requires 0 <= i < |offer| => AnswerSection(offer[i], config))
  }

  function AnswerTo(offer: seq<Section>, config: Config): Result<Answer, AnswerError> {
    if offer == [] then Err(NoMedia)
    else if config.iceUfrag == "" then Err(EmptyUfrag)
    else if config.icePwd == "" then Err(EmptyPwd)
    else if config.candidates == [] then Err(NoCandidate)
    else
      Ok(Answer(BundledMids(offer, config), AllSections(offer, config)))
  }

  /** The mids of the sections that are not rejected, in order. */
  function LiveMids(sections: seq<Section>): seq<string> {
    if sections == [] then []
    else
      var front, last := LiveMids(sections[..|sections| - 1]), sections[|sections| - 1];
      if last.port != 0 && last.mid.Some? then front + [last.mid.value] else front
  }

  lemma {:induction false} BundleIsLive(offer: seq<Section>, sections: seq<Section>, config: Config)
    requires |sections| == |offer| && forall i :: 0 <= i < |offer| ==> sections[i] == AnswerSection(offer[i], config)
    ensures BundledMids(offer, config) == LiveMids(sections)
  {
    if offer != [] {
      BundleIsLive(offer[..|offer| - 1], sections[..|offer| - 1], config);
    }
  }

  /**
   * Every accepted offer: sections keep number, order, kind and mid; one is
   * rejected exactly when nothing was selected for it; and BUNDLE lists exactly
   * the mids of the sections that are not rejected, in order.
   */
  lemma AnswerMirrorsOffer(offer: seq<Section>, config: Config)
    requires AnswerTo(offer, config).Ok?
    ensures var a := AnswerTo(offer, config).value;
            && |a.sections| == |offer|
            && (forall i :: 0 <= i < |offer| ==>
                  && a.sections[i].kind == offer[i].kind && a.sections[i].mid == offer[i].mid
                  && (a.sections[i].port == 0 <==> SelectPayloads(offer[i], config) == []))
            && a.bundle == LiveMids(a.sections)
  {
    BundleIsLive(offer, AnswerTo(offer, config).value.sections, config);
  }

  /** An offer is answered exactly when it has a section and credentials and a candidate are configured; else the first of these that is missing is named. */
  lemma AnsweredIff(offer: seq<Section>, config: Config)
    ensures AnswerTo(offer, config).Ok? <==>
              |offer| > 0 && |config.iceUfrag| > 0 && |config.icePwd| > 0 && |config.candidates| > 0
    ensures AnswerTo(offer, config).Err? ==>
              AnswerTo(offer, config).error ==
              if |offer| == 0 then NoMedia
              else if |config.iceUfrag| == 0 then EmptyUfrag
              else if |config.icePwd| == 0 then EmptyPwd
              else NoCandidate
  {
  }

  /** The lines kept are those of these payloads, unchanged. */
  ghost predicate LinesOf<V>(kept: map<nat, V>, offered: map<nat, V>, payloads: seq<nat>) {
    && (forall pt :: pt in kept <==> pt in payloads && pt in offered)
    && (forall pt :: pt in kept ==> kept[pt] == offered[pt])
  }

  /**
   * A section nothing was selected for is answered with port 0, the formats it was
   * offered with and no lines; any other with port 9, the selection, and the
   * offered lines of what was selected.
   */
  lemma SectionSays(offer: seq<Section>, config: Config, i: nat, a: Section)
    requires AnswerTo(offer, config).Ok? && i < |offer| && a == AnswerTo(offer, config).value.sections[i]
    ensures var selected := SelectPayloads(offer[i], config);
            && a.isRtp == offer[i].isRtp
            && a.port == (if selected == [] then 0 else 9)
            && a.payloads == (if selected == [] then offer[i].payloads else selected)
            && LinesOf(a.codecs, offer[i].codecs, selected) && LinesOf(a.apts, offer[i].apts, selected)
  {
  }

  lemma AnswerCodecs(m: Section, config: Config)
    requires SelectPayloads(m, config) != []
    ensures CodecsOf(AnswerSection(m, config), Supported(m.kind, config)) == CodecsOf(m, Supported(m.kind, config))
  {
    var a, supported := AnswerSection(m, config), Supported(m.kind, config);
    forall pt: nat ensures pt in CodecsOf(a, supported) <==> pt in CodecsOf(m, supported) {
      KeptIff(m, config, pt);
    }
  }

  /** Selecting again on the answer's own section changes nothing. */
  lemma SelectionIsFixed(m: Section, config: Config)
    ensures SelectPayloads(AnswerSection(m, config), config) == SelectPayloads(m, config)
  {
    var selected := SelectPayloads(m, config);
    if selected != [] {
      var a := AnswerSection(m, config);
      var kept := CodecsOf(m, Supported(m.kind, config));
      AnswerCodecs(m, config);
      forall pt | pt in selected ensures pt in kept + RepairsOf(a, kept) {
        KeptIff(m, config, pt);
      }
      KeepAll(selected, kept + RepairsOf(a, kept));
    }
  }

  // ── The loop that writes it ───────────────────────────────────────────

  lemma OneMoreSection(offer: seq<Section>, i: nat, config: Config)
    requires i < |offer|
    ensures var section := AnswerSection(offer[i], config);
            && AllSections(offer[..i + 1], config) == AllSections(offer[..i], config) + [section]
            && BundledMids(offer[..i + 1], config) ==
               BundledMids(offer[..i], config)
               + (if section.port != 0 && section.mid.Some? then [section.mid.value] else [])
  {
    assert offer[..i + 1][..i] == offer[..i];
  }

  method WriteSections(offer: seq<Section>, config: Config) returns (a: Answer)
    ensures a.bundle == BundledMids(offer, config) && a.sections == AllSections(offer, config)
  {
    var bundle: seq<string>, sections: seq<Section> := [], [];
    for i := 0 to |offer|
      invariant bundle == BundledMids(offer[..i], config) && sections == AllSections(offer[..i], config)
    {
      OneMoreSection(offer, i, config);
      var section := AnswerSection(offer[i], config);
      if section.port != 0 && section.mid.Some? {
        bundle := bundle + [section.mid.value];
      }
      sections := sections + [section];
    }
    assert offer[..|offer|] == offer;
    a := Answer(bundle, sections);
  }

  method WriteAnswer(offer: seq<Section>, config: Config) returns (r: Result<Answer, AnswerError>)
    ensures r == AnswerTo(offer, config)
  {
    if offer == [] {
      return Err(NoMedia);
    }
    if config.iceUfrag == "" {
      return Err(EmptyUfrag);
    }
    if config.icePwd == "" {
      return Err(EmptyPwd);
    }
    if config.candidates == [] {
      return Err(NoCandidate);
    }
    var answer := WriteSections(offer, config);
    r := Ok(answer);
  }
}
