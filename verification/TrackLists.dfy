/**
 * One participant's tracks under a batch of local changes: what the registry keeps,
 * what the delta tells the peers, and why a peer's list follows.
 */
module TrackLists {
  import opened Wrappers
  import opened KeyOrder
  import opened Maps
  import opened Rooms
  import opened Messages

  // ── A track list under a delta ────────────────────────────────────────

  predicate Unique(ts: seq<Track>) {
    forall i, j :: 0 <= i < j < |ts| ==> ts[i].id != ts[j].id
  }

  function Without(ts: seq<Track>, id: string): seq<Track> {
    if ts == [] then []
    else
      var front, last := ts[..|ts| - 1], ts[|ts| - 1];
      Without(front, id) + (if last.id != id then [last] else [])
  }

  function MuteOne(ts: seq<Track>, id: string, muted: bool): (r: seq<Track>)
    ensures |r| == |ts| && forall i :: 0 <= i < |ts| ==> r[i].id == ts[i].id
  {
    seq(|ts|, i requires 0 <= i < |ts| => if ts[i].id == id then ts[i].(muted := muted) else ts[i])
  }

  /** Which tracks are listed, and which of them are muted. */
  type Flags = map<string, bool>

  function FlagsOf(ts: seq<Track>): Flags {
    if ts == [] then map[]
    else FlagsOf(ts[..|ts| - 1])[ts[|ts| - 1].id := ts[|ts| - 1].muted]
  }

  function Kept(tracks: Tracks): (f: Flags)
    ensures f.Keys == tracks.Keys
  {
    map id | id in tracks :: tracks[id].muted
  }

  predicate Named(ts: seq<Track>, i: int, id: string) {
    0 <= i < |ts| && ts[i].id == id
  }

  lemma {:induction false} FlagsHold(ts: seq<Track>, id: string)
    ensures id in FlagsOf(ts) <==> exists i :: Named(ts, i, id)
    ensures Unique(ts) ==> forall i :: Named(ts, i, id) ==> FlagsOf(ts)[id] == ts[i].muted
  {
    if ts != [] {
      var n := |ts| - 1;
      FlagsHold(ts[..n], id);
      assert forall i :: Named(ts[..n], i, id) ==> Named(ts, i, id);
      assert forall i :: Named(ts, i, id) && i != n ==> Named(ts[..n], i, id);
      assert id == ts[n].id ==> Named(ts, n, id);
    }
  }

  lemma FlagsAfter(ts: seq<Track>, t: Track)
    ensures FlagsOf(ts + [t]) == FlagsOf(ts)[t.id := t.muted]
    ensures Unique(ts) && t.id !in FlagsOf(ts) ==> Unique(ts + [t])
  {
    assert (ts + [t])[..|ts|] == ts;
    FlagsHold(ts, t.id);
    assert forall i :: 0 <= i < |ts| && ts[i].id == t.id ==> Named(ts, i, t.id);
  }

  lemma LastIsNew(ts: seq<Track>)
    requires Unique(ts) && ts != []
    ensures ts[|ts| - 1].id !in FlagsOf(ts[..|ts| - 1])
  {
    FlagsHold(ts[..|ts| - 1], ts[|ts| - 1].id);
  }

  lemma {:induction false} FlagsWithout(ts: seq<Track>, id: string)
    requires Unique(ts)
    ensures Unique(Without(ts, id))
    ensures FlagsOf(Without(ts, id)) == FlagsOf(ts) - {id}
  {
    if ts != [] {
      var front, last := ts[..|ts| - 1], ts[|ts| - 1];
      FlagsWithout(front, id);
      LastIsNew(ts);
      PutThenDrop(FlagsOf(front), last.id, last.muted, id);
      if last.id != id {
        FlagsAfter(Without(front, id), last);
      } else {
        assert Without(ts, id) == Without(front, id);
      }
    }
  }

  lemma {:induction false} FlagsMuted(ts: seq<Track>, id: string, muted: bool)
    ensures Unique(ts) ==> Unique(MuteOne(ts, id, muted))
    ensures FlagsOf(MuteOne(ts, id, muted)) == if id in FlagsOf(ts) then FlagsOf(ts)[id := muted] else FlagsOf(ts)
  {
    if ts != [] {
      var front := ts[..|ts| - 1];
      var last := ts[|ts| - 1];
      FlagsMuted(front, id, muted);
      assert MuteOne(ts, id, muted)[..|ts| - 1] == MuteOne(front, id, muted);
      if last.id == id {
        PutTwice(FlagsOf(front), id, last.muted, muted);
        PutTwice(FlagsOf(front), id, muted, muted);
      } else if id in FlagsOf(front) {
        PutsCommute(FlagsOf(front), id, muted, last.id, last.muted);
      }
    }
  }

  /** Exactly these tracks, each once, with these mute flags. */
  ghost predicate Lists(ts: seq<Track>, tracks: Tracks) {
    Unique(ts) && FlagsOf(ts) == Kept(tracks)
  }

  // ── What one batch of local track changes does on both sides ──────────

  function CoreMeta(t: Track): TrackMeta {
    TrackMeta(t.kind, t.source, t.muted, t.layers, t.mid)
  }

  /** The registry's tracks after publishing in turn, and what is worth telling the peers. */
  function PublishAll(tracks: Tracks, pid: string, publish: seq<Track>): (Tracks, RoomDelta) {
    if publish == [] then (tracks, NO_CHANGE)
    else
      var last := publish[|publish| - 1];
      var (before, delta) := PublishAll(tracks, pid, publish[..|publish| - 1]);
      if !Sized(last.id, MAX_ID_LEN) then (before, delta)
      else
        var (after, outcome) := PublishTrack(before, last.id, Trimmed(CoreMeta(last)));
        (after, Reported(delta, pid, last, outcome))
  }

  function Reported(delta: RoomDelta, pid: string, t: Track, outcome: Result<PublishOutcome, RoomError>): RoomDelta {
    if outcome.Err? then delta
    else if outcome.value.isNew then delta.(published := delta.published + [TrackPublished(pid, t)])
    else if outcome.value.muteChange.Some? then
      delta.(muteChanges := delta.muteChanges + [TrackMuted(TrackRef(pid, t.id), outcome.value.muteChange.value)])
    else delta
  }

  function UnpublishAll(tracks: Tracks, pid: string, ids: seq<string>): (Tracks, seq<TrackRef>) {
    if ids == [] then (tracks, [])
    else
      var last := ids[|ids| - 1];
      var (before, gone) := UnpublishAll(tracks, pid, ids[..|ids| - 1]);
      (before - {last}, if last in before then gone + [TrackRef(pid, last)] else gone)
  }

  /** One whole batch: publishes, then unpublishes, reported as one delta. */
  function ChangeTracks(tracks: Tracks, pid: string, publish: seq<Track>, unpublish: seq<string>): (Tracks, RoomDelta) {
    var (published, delta) := PublishAll(tracks, pid, publish);
    var (after, gone) := UnpublishAll(published, pid, unpublish);
    (after, delta.(unpublished := gone))
  }

  function AddTracks(ts: seq<Track>, pubs: seq<TrackPublished>): seq<Track> {
    if pubs == [] then ts else AddTracks(ts, pubs[..|pubs| - 1]) + [pubs[|pubs| - 1].track]
  }

  function DropTracks(ts: seq<Track>, refs: seq<TrackRef>): seq<Track> {
    if refs == [] then ts else Without(DropTracks(ts, refs[..|refs| - 1]), refs[|refs| - 1].trackId)
  }

  function MuteTracks(ts: seq<Track>, mutes: seq<TrackMuted>): seq<Track> {
    if mutes == [] then ts
    else
      var last := mutes[|mutes| - 1];
      MuteOne(MuteTracks(ts, mutes[..|mutes| - 1]), last.track.trackId, last.muted)
  }

  /** A client's list for the changing participant after the delta. */
  function Changed(ts: seq<Track>, delta: RoomDelta): seq<Track> {
    MuteTracks(DropTracks(AddTracks(ts, delta.published), delta.unpublished), delta.muteChanges)
  }

  function MuteFlag(f: Flags, id: string, muted: bool): Flags {
    if id in f then f[id := muted] else f
  }

  function MuteFlags(f: Flags, mutes: seq<TrackMuted>): (r: Flags)
    ensures r.Keys == f.Keys
  {
    if mutes == [] then f
    else
      var last := mutes[|mutes| - 1];
      MuteFlag(MuteFlags(f, mutes[..|mutes| - 1]), last.track.trackId, last.muted)
  }

  lemma {:induction false} FlagsOfMuted(ts: seq<Track>, mutes: seq<TrackMuted>)
    requires Unique(ts)
    ensures Unique(MuteTracks(ts, mutes))
    ensures FlagsOf(MuteTracks(ts, mutes)) == MuteFlags(FlagsOf(ts), mutes)
  {
    if mutes != [] {
      var last := mutes[|mutes| - 1];
      FlagsOfMuted(ts, mutes[..|mutes| - 1]);
      FlagsMuted(MuteTracks(ts, mutes[..|mutes| - 1]), last.track.trackId, last.muted);
    }
  }

  ghost predicate About(mutes: seq<TrackMuted>, tracks: Tracks) {
    forall i :: 0 <= i < |mutes| ==> mutes[i].track.trackId in tracks
  }

  /** A track no mute is about can be added after or before the mutes. */
  lemma {:induction false} MutesSpareNew(f: Flags, id: string, muted: bool, mutes: seq<TrackMuted>)
    requires forall i :: 0 <= i < |mutes| ==> mutes[i].track.trackId != id
    ensures MuteFlags(f[id := muted], mutes) == MuteFlags(f, mutes)[id := muted]
  {
    if mutes != [] {
      var last := mutes[|mutes| - 1];
      MutesSpareNew(f, id, muted, mutes[..|mutes| - 1]);
      var g := MuteFlags(f, mutes[..|mutes| - 1]);
      if last.track.trackId in g {
        PutsCommute(g, id, muted, last.track.trackId, last.muted);
      }
    }
  }

  /** Mutes of a dropped track have no effect, so drops can come before or after the mutes. */
  lemma {:induction false} MutesSpareDropped(f: Flags, id: string, mutes: seq<TrackMuted>)
    ensures MuteFlags(f - {id}, mutes) == MuteFlags(f, mutes) - {id}
  {
    if mutes != [] {
      var last := mutes[|mutes| - 1];
      MutesSpareDropped(f, id, mutes[..|mutes| - 1]);
      var g := MuteFlags(f, mutes[..|mutes| - 1]);
      PutThenDrop(g, last.track.trackId, last.muted, id);
    }
  }

  /** The mute flags the client will show, mutes applied to what is published so far. */
  ghost predicate Shows(ts: seq<Track>, mutes: seq<TrackMuted>, tracks: Tracks) {
    Unique(ts) && MuteFlags(FlagsOf(ts), mutes) == Kept(tracks) && About(mutes, tracks)
  }

  lemma KeptAfterPut(tracks: Tracks, id: string, meta: TrackMeta)
    ensures Kept(tracks[id := meta]) == Kept(tracks)[id := meta.muted]
  {
  }

  lemma ShowsNew(ts: seq<Track>, mutes: seq<TrackMuted>, tracks: Tracks, t: Track)
    requires Shows(ts, mutes, tracks) && t.id !in tracks
    ensures Shows(ts + [t], mutes, tracks[t.id := Trimmed(CoreMeta(t))])
  {
    KeptAfterPut(tracks, t.id, Trimmed(CoreMeta(t)));
    assert t.id !in FlagsOf(ts);
    FlagsAfter(ts, t);
    MutesSpareNew(FlagsOf(ts), t.id, t.muted, mutes);
  }

  lemma ShowsFlipped(ts: seq<Track>, mutes: seq<TrackMuted>, tracks: Tracks, pid: string, t: Track)
    requires Shows(ts, mutes, tracks) && t.id in tracks
    ensures Shows(ts, mutes + [TrackMuted(TrackRef(pid, t.id), t.muted)], tracks[t.id := Trimmed(CoreMeta(t))])
  {
    KeptAfterPut(tracks, t.id, Trimmed(CoreMeta(t)));
    var more := mutes + [TrackMuted(TrackRef(pid, t.id), t.muted)];
    assert more[..|mutes|] == mutes;
  }

  lemma ShowsSame(ts: seq<Track>, mutes: seq<TrackMuted>, tracks: Tracks, t: Track)
    requires Shows(ts, mutes, tracks) && t.id in tracks && tracks[t.id].muted == t.muted
    ensures Shows(ts, mutes, tracks[t.id := Trimmed(CoreMeta(t))])
  {
    KeptAfterPut(tracks, t.id, Trimmed(CoreMeta(t)));
    PutBack(Kept(tracks), t.id);
  }

  /** One published track: what the client makes of the growing delta keeps showing the registry's tracks. */
  lemma PublishOneShows(ts: seq<Track>, before: Tracks, delta: RoomDelta, pid: string, t: Track)
    requires Shows(AddTracks(ts, delta.published), delta.muteChanges, before)
    ensures var (after, outcome) := PublishTrack(before, t.id, Trimmed(CoreMeta(t)));
            var delta' := Reported(delta, pid, t, outcome);
            Shows(AddTracks(ts, delta'.published), delta'.muteChanges, after)
  {
    var shown := AddTracks(ts, delta.published);
    var (after, outcome) := PublishTrack(before, t.id, Trimmed(CoreMeta(t)));
    var delta' := Reported(delta, pid, t, outcome);
    if outcome.Ok? && outcome.value.isNew {
      assert delta'.published[..|delta.published|] == delta.published;
      assert AddTracks(ts, delta'.published) == shown + [t];
      ShowsNew(shown, delta.muteChanges, before, t);
    } else if outcome.Ok? && outcome.value.muteChange.Some? {
      ShowsFlipped(shown, delta.muteChanges, before, pid, t);
    } else if outcome.Ok? {
      ShowsSame(shown, delta.muteChanges, before, t);
    }
  }

  lemma {:induction false} PublishShows(ts: seq<Track>, tracks: Tracks, pid: string, publish: seq<Track>)
    requires Lists(ts, tracks)
    ensures var (after, delta) := PublishAll(tracks, pid, publish);
            Shows(AddTracks(ts, delta.published), delta.muteChanges, after)
  {
    if publish != [] {
      var front, last := publish[..|publish| - 1], publish[|publish| - 1];
      PublishShows(ts, tracks, pid, front);
      var (before, delta) := PublishAll(tracks, pid, front);
      if Sized(last.id, MAX_ID_LEN) { PublishOneShows(ts, before, delta, pid, last); }
    }
  }

  /** Publishing and unpublishing are each told only about `pid`, and only with their own kind of change. */
  lemma {:induction false} PublishTellsOf(tracks: Tracks, pid: string, publish: seq<Track>)
    ensures var delta := PublishAll(tracks, pid, publish).1;
            && delta.joined == [] && delta.left == [] && delta.unpublished == []
            && (forall i :: 0 <= i < |delta.published| ==> delta.published[i].participantId == pid)
            && (forall i :: 0 <= i < |delta.muteChanges| ==> delta.muteChanges[i].track.participantId == pid)
  {
    if publish != [] {
      PublishTellsOf(tracks, pid, publish[..|publish| - 1]);
    }
  }

  lemma ShowsDropped(ts: seq<Track>, mutes: seq<TrackMuted>, tracks: Tracks, id: string)
    requires Unique(ts) && MuteFlags(FlagsOf(ts), mutes) == Kept(tracks)
    ensures Unique(Without(ts, id)) && MuteFlags(FlagsOf(Without(ts, id)), mutes) == Kept(tracks - {id})
  {
    FlagsWithout(ts, id);
    MutesSpareDropped(FlagsOf(ts), id, mutes);
    assert Kept(tracks - {id}) == Kept(tracks) - {id};
  }

  lemma {:induction false} UnpublishShows(ts: seq<Track>, mutes: seq<TrackMuted>, tracks: Tracks, pid: string, ids: seq<string>)
    requires Unique(ts) && MuteFlags(FlagsOf(ts), mutes) == Kept(tracks)
    ensures var (after, gone) := UnpublishAll(tracks, pid, ids);
            && Unique(DropTracks(ts, gone))
            && MuteFlags(FlagsOf(DropTracks(ts, gone)), mutes) == Kept(after)
  {
    if ids != [] {
      var last := ids[|ids| - 1];
      UnpublishShows(ts, mutes, tracks, pid, ids[..|ids| - 1]);
      var (before, gone) := UnpublishAll(tracks, pid, ids[..|ids| - 1]);
      if last in before {
        assert (gone + [TrackRef(pid, last)])[..|gone|] == gone;
        ShowsDropped(DropTracks(ts, gone), mutes, before, last);
      } else {
        DropAbsent(before, last);
      }
    }
  }

  /** A list that showed the registry's tracks shows them again after the delta of any batch. */
  lemma ChangedLists(ts: seq<Track>, tracks: Tracks, pid: string, publish: seq<Track>, unpublish: seq<string>)
    requires Lists(ts, tracks)
    ensures Lists(Changed(ts, ChangeTracks(tracks, pid, publish, unpublish).1),
                  ChangeTracks(tracks, pid, publish, unpublish).0)
  {
    var (published, delta) := PublishAll(tracks, pid, publish);
    PublishShows(ts, tracks, pid, publish);
    var added := AddTracks(ts, delta.published);
    UnpublishShows(added, delta.muteChanges, published, pid, unpublish);
    var (after, gone) := UnpublishAll(published, pid, unpublish);
    FlagsOfMuted(DropTracks(added, gone), delta.muteChanges);
  }
}
