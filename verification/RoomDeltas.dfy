/** What the server tells of the registry: the snapshot for a joiner, and the delta of a batch of track changes. */
module RoomDeltas {
  import opened KeyOrder
  import opened Messages
  import opened Rooms
  import opened RoomViews
  import opened TrackLists
  import opened Wrappers

  /** The track as the registry has it, every field of it. */
  ghost predicate Tells(t: Track, id: string, meta: TrackMeta) {
    && t.id == id && t.kind == meta.kind && t.source == meta.source && t.muted == meta.muted
    && t.layers == meta.layers && t.mid == meta.mid
  }

  /** The track is one of these, told whole. */
  ghost predicate TellsOne(t: Track, tracks: Tracks) {
    t.id in tracks && Tells(t, t.id, tracks[t.id])
  }

  /** As many tracks as the member has, each once and whole. */
  ghost predicate TellsAll(ts: seq<Track>, tracks: Tracks) {
    && |ts| == |tracks|
    && (forall j :: 0 <= j < |ts| ==> TellsOne(ts[j], tracks))
    && (forall i, j :: 0 <= i < j < |ts| ==> ts[i].id != ts[j].id)
  }

  ghost predicate EntryTells(e: Entry, room: Room) {
    e.id in room && e.name == room[e.id].name && TellsAll(e.tracks, room[e.id].tracks)
  }

  lemma TracksTell(tracks: Tracks, ids: seq<string>)
    requires |ids| == |tracks| && forall i :: 0 <= i < |ids| ==> ids[i] in tracks
    requires forall i, j :: 0 <= i < j < |ids| ==> ids[i] != ids[j]
    ensures TellsAll(WireTracks(tracks, ids), tracks)
  {
  }

  lemma MemberTells(p: string, room: Room)
    requires p in room
    ensures EntryTells(WireMember(p, room[p]), room)
  {
    var tracks := room[p].tracks;
    assert |tracks| == |tracks.Keys|;
    TracksTell(tracks, Listed(tracks.Keys));
  }

  /** The snapshot has as many entries as the room has members, each once, under its name and with its tracks whole. */
  lemma SnapshotTells(room: Room)
    ensures |Snapshot(room)| == |room|
    ensures forall i :: 0 <= i < |Snapshot(room)| ==> EntryTells(Snapshot(room)[i], room)
    ensures forall i, j :: 0 <= i < j < |Snapshot(room)| ==> Snapshot(room)[i].id != Snapshot(room)[j].id
  {
    var ids := Listed(room.Keys);
    assert |room| == |room.Keys|;
    forall i | 0 <= i < |ids| ensures EntryTells(Snapshot(room)[i], room) && Snapshot(room)[i].id == ids[i] {
      MemberTells(ids[i], room);
    }
  }

  // ── Deltas ────────────────────────────────────────────────────────────

  /** The flag is one that a track of the batch carries. */
  ghost predicate Flagged(m: TrackMuted, pid: string, publish: seq<Track>) {
    m.track.participantId == pid && exists k :: 0 <= k < |publish| && publish[k].id == m.track.trackId && publish[k].muted == m.muted
  }

  /** Peers are told of a new track in the publisher's own words, and of a flag that the publisher set. */
  ghost predicate InItsWords(delta: RoomDelta, pid: string, tracks: Tracks, publish: seq<Track>, unpublish: seq<string>) {
    && delta.joined == [] && delta.left == []
    && (forall i :: 0 <= i < |delta.published| ==>
          delta.published[i].participantId == pid && delta.published[i].track in publish
          && delta.published[i].track.id !in tracks)
    && (forall i :: 0 <= i < |delta.muteChanges| ==> Flagged(delta.muteChanges[i], pid, publish))
    && (forall i :: 0 <= i < |delta.unpublished| ==>
          delta.unpublished[i].participantId == pid && delta.unpublished[i].trackId in unpublish)
  }

  lemma PublishMore(front: seq<Track>, last: Track, delta: RoomDelta, pid: string, tracks: Tracks)
    requires InItsWords(delta, pid, tracks, front, [])
    ensures InItsWords(delta, pid, tracks, front + [last], [])
  {
    var all := front + [last];
    forall i | 0 <= i < |delta.muteChanges| ensures Flagged(delta.muteChanges[i], pid, all) {
      var m := delta.muteChanges[i];
      assert Flagged(m, pid, front);
      var k :| 0 <= k < |front| && front[k].id == m.track.trackId && front[k].muted == m.muted;
      assert all[k] == front[k];
    }
  }

  lemma ReportedInWords(delta: RoomDelta, pid: string, tracks: Tracks, before: Tracks, publish: seq<Track>, t: Track)
    requires InItsWords(delta, pid, tracks, publish, []) && t in publish && tracks.Keys <= before.Keys
    ensures InItsWords(Reported(delta, pid, t, PublishTrack(before, t.id, Trimmed(CoreMeta(t))).1), pid, tracks, publish, [])
  {
    var k :| 0 <= k < |publish| && publish[k] == t;
    assert Flagged(TrackMuted(TrackRef(pid, t.id), t.muted), pid, publish);
  }

  lemma {:induction false} PublishedInWords(tracks: Tracks, pid: string, publish: seq<Track>)
    ensures InItsWords(PublishAll(tracks, pid, publish).1, pid, tracks, publish, [])
    ensures tracks.Keys <= PublishAll(tracks, pid, publish).0.Keys
  {
    if publish != [] {
      var front, last := publish[..|publish| - 1], publish[|publish| - 1];
      PublishedInWords(tracks, pid, front);
      var (before, delta) := PublishAll(tracks, pid, front);
      PublishMore(front, last, delta, pid, tracks);
      assert publish == front + [last];
      if Sized(last.id, MAX_ID_LEN) { ReportedInWords(delta, pid, tracks, before, publish, last); }
    }
  }

  lemma {:induction false} WithdrawnInWords(tracks: Tracks, pid: string, ids: seq<string>)
    ensures forall i :: 0 <= i < |UnpublishAll(tracks, pid, ids).1| ==>
              UnpublishAll(tracks, pid, ids).1[i].participantId == pid && UnpublishAll(tracks, pid, ids).1[i].trackId in ids
  {
    if ids != [] {
      WithdrawnInWords(tracks, pid, ids[..|ids| - 1]);
      assert ids == ids[..|ids| - 1] + [ids[|ids| - 1]];
    }
  }

  /** The delta of any batch says nothing that the batch did not. */
  lemma DeltaInItsWords(tracks: Tracks, pid: string, publish: seq<Track>, unpublish: seq<string>)
    ensures InItsWords(ChangeTracks(tracks, pid, publish, unpublish).1, pid, tracks, publish, unpublish)
  {
    PublishedInWords(tracks, pid, publish);
    WithdrawnInWords(PublishAll(tracks, pid, publish).0, pid, unpublish);
  }
}
