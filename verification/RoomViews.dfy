/**
 * A client's picture of its room, folded from a snapshot and deltas, and when
 * it agrees with the room in the registry.
 */
module RoomViews {
  import opened KeyOrder
  import opened Maps
  import opened Messages
  import opened Rooms
  import opened TrackLists
  import opened Wrappers

  /** Participants by id. */
  type View = map<string, Entry>

  function WireTrack(id: string, meta: TrackMeta): Track {
    Track(id, meta.kind, meta.source, meta.muted, meta.layers, meta.mid)
  }

  function WireTracks(tracks: Tracks, ids: seq<string>): (ts: seq<Track>)
    requires forall i :: 0 <= i < |ids| ==> ids[i] in tracks
    ensures |ts| == |ids| && forall i :: 0 <= i < |ids| ==> ts[i].id == ids[i] && ts[i].muted == tracks[ids[i]].muted
  {
    seq(|ids|, i requires 0 <= i < |ids| => WireTrack(ids[i], tracks[ids[i]]))
  }

  function WireMember(pid: string, m: Member): Entry {
    Entry(pid, m.name, WireTracks(m.tracks, Listed(m.tracks.Keys)))
  }

  /** The room as sent to a joiner: members in key order. */
  function Snapshot(room: Room): (es: seq<Entry>)
    ensures |es| == |Listed(room.Keys)|
  {
    var ids := Listed(room.Keys);
    seq(|ids|, i requires 0 <= i < |ids| => WireMember(ids[i], room[ids[i]]))
  }

  // ── The client's fold of one delta ────────────────────────────────────

  function Enter(v: View, es: seq<Entry>): View {
    if es == [] then v else Enter(v, es[..|es| - 1])[es[|es| - 1].id := es[|es| - 1]]
  }

  function Exit(v: View, ids: seq<string>): View {
    if ids == [] then v else Exit(v, ids[..|ids| - 1]) - {ids[|ids| - 1]}
  }

  function WithTracks(v: View, pid: string, ts: seq<Track>): View
    requires pid in v
  {
    v[pid := v[pid].(tracks := ts)]
  }

  function Announce(v: View, pubs: seq<TrackPublished>): View {
    if pubs == [] then v
    else
      var before, last := Announce(v, pubs[..|pubs| - 1]), pubs[|pubs| - 1];
      if last.participantId !in before then before
      else WithTracks(before, last.participantId, before[last.participantId].tracks + [last.track])
  }

  function Withdraw(v: View, refs: seq<TrackRef>): View {
    if refs == [] then v
    else
      var before, last := Withdraw(v, refs[..|refs| - 1]), refs[|refs| - 1];
      if last.participantId !in before then before
      else WithTracks(before, last.participantId, Without(before[last.participantId].tracks, last.trackId))
  }

  function MuteAll(v: View, mutes: seq<TrackMuted>): View {
    if mutes == [] then v
    else
      var before, last := MuteAll(v, mutes[..|mutes| - 1]), mutes[|mutes| - 1];
      var pid := last.track.participantId;
      if pid !in before then before
      else WithTracks(before, pid, MuteOne(before[pid].tracks, last.track.trackId, last.muted))
  }

  function ApplyDelta(v: View, d: RoomDelta): View {
    MuteAll(Withdraw(Announce(Exit(Enter(v, d.joined), d.left), d.published), d.unpublished), d.muteChanges)
  }

  // ── Agreement ─────────────────────────────────────────────────────────

  ghost predicate Mirrors(e: Entry, pid: string, m: Member, self: string) {
    e.id == pid && e.name == m.name && (pid != self ==> Lists(e.tracks, m.tracks))
  }

  /**
   * The same participants under the same names, and for everyone but the client
   * itself exactly the registry's tracks with their mute flags, each once.
   */
  ghost predicate Agrees(v: View, room: Room, self: string) {
    v.Keys == room.Keys && forall p :: p in room ==> Mirrors(v[p], p, room[p], self)
  }

  lemma {:induction false} WireTracksFlags(tracks: Tracks, ids: seq<string>)
    requires forall i :: 0 <= i < |ids| ==> ids[i] in tracks
    ensures forall id :: id in FlagsOf(WireTracks(tracks, ids)) <==> id in ids
    ensures forall id :: id in ids ==> FlagsOf(WireTracks(tracks, ids))[id] == tracks[id].muted
  {
    if ids != [] {
      var front := ids[..|ids| - 1];
      WireTracksFlags(tracks, front);
      assert ids == front + [ids[|ids| - 1]];
      assert WireTracks(tracks, ids)[..|ids| - 1] == WireTracks(tracks, front);
    }
  }

  lemma AllWiredLists(tracks: Tracks, ids: seq<string>)
    requires forall id :: id in ids <==> id in tracks
    requires forall i, j :: 0 <= i < j < |ids| ==> ids[i] != ids[j]
    ensures Lists(WireTracks(tracks, ids), tracks)
  {
    WireTracksFlags(tracks, ids);
  }

  lemma WiredLists(tracks: Tracks)
    ensures Lists(WireTracks(tracks, Listed(tracks.Keys)), tracks)
  {
    AllWiredLists(tracks, Listed(tracks.Keys));
  }

  predicate FromRoom(e: Entry, room: Room) {
    e.id in room && e == WireMember(e.id, room[e.id])
  }

  lemma {:induction false} EnterKeys(es: seq<Entry>)
    ensures forall i :: 0 <= i < |es| ==> es[i].id in Enter(map[], es)
  {
    if es != [] {
      EnterKeys(es[..|es| - 1]);
    }
  }

  lemma {:induction false} EnterFromRoom(room: Room, es: seq<Entry>)
    requires forall i :: 0 <= i < |es| ==> FromRoom(es[i], room)
    ensures forall p :: p in Enter(map[], es) ==> p in room && Enter(map[], es)[p] == WireMember(p, room[p])
  {
    if es != [] {
      EnterFromRoom(room, es[..|es| - 1]);
      assert FromRoom(es[|es| - 1], room);
    }
  }

  lemma EnterSnapshot(room: Room, p: string)
    ensures p in Enter(map[], Snapshot(room)) <==> p in room
    ensures p in room ==> Enter(map[], Snapshot(room))[p] == WireMember(p, room[p])
  {
    var ids := Listed(room.Keys);
    var es := Snapshot(room);
    EnterFromRoom(room, es);
    EnterKeys(es);
    if p in room {
      var i :| 0 <= i < |ids| && ids[i] == p;
      assert es[i].id == p;
    }
  }

  /** A joiner's snapshot agrees with the room, whoever the joiner is. */
  lemma SnapshotAgrees(room: Room, self: string)
    ensures Agrees(Enter(map[], Snapshot(room)), room, self)
  {
    var v := Enter(map[], Snapshot(room));
    forall p ensures p in v <==> p in room { EnterSnapshot(room, p); }
    forall p | p in room ensures Mirrors(v[p], p, room[p], self) {
      EnterSnapshot(room, p);
      WiredLists(room[p].tracks);
    }
  }

  function Newcomer(name: string): Member {
    Member(name, map[], map[], None)
  }

  function JoinedDelta(pid: string, name: string): RoomDelta {
    NO_CHANGE.(joined := [WireMember(pid, Newcomer(name))])
  }

  function LeftDelta(pid: string): RoomDelta {
    NO_CHANGE.(left := [pid])
  }

  lemma JoinedApplies(v: View, pid: string, name: string)
    ensures ApplyDelta(v, JoinedDelta(pid, name)) == v[pid := WireMember(pid, Newcomer(name))]
  {
    var es := [WireMember(pid, Newcomer(name))];
    assert es[..0] == [];
    assert Enter(v, es) == v[pid := es[0]];
  }

  lemma JoinedAgrees(v: View, room: Room, self: string, pid: string, name: string)
    requires Agrees(v, room, self)
    ensures Agrees(ApplyDelta(v, JoinedDelta(pid, name)), room[pid := Newcomer(name)], self)
  {
    JoinedApplies(v, pid, name);
    WiredLists(map[]);
    assert Mirrors(WireMember(pid, Newcomer(name)), pid, Newcomer(name), self);
  }

  lemma LeftApplies(v: View, pid: string)
    ensures ApplyDelta(v, LeftDelta(pid)) == v - {pid}
  {
    var ids := [pid];
    assert ids[..0] == [];
    assert Exit(v, ids) == v - {pid};
  }

  lemma LeftAgrees(v: View, room: Room, self: string, pid: string)
    requires Agrees(v, room, self)
    ensures Agrees(ApplyDelta(v, LeftDelta(pid)), room - {pid}, self)
  {
    LeftApplies(v, pid);
  }

  /** What others publish is untouched, and names stay: nothing a client compares changes. */
  lemma QuietUpdateAgrees(v: View, room: Room, self: string, pid: string, m: Member)
    requires Agrees(v, room, self) && pid in room
    requires m.name == room[pid].name && (pid != self ==> m.tracks == room[pid].tracks)
    ensures Agrees(v, room[pid := m], self)
  {
    assert Mirrors(v[pid], pid, room[pid], self);
  }

  // ── Track changes of one participant ──────────────────────────────────

  ghost predicate AllPublishedBy(pubs: seq<TrackPublished>, pid: string) {
    forall i :: 0 <= i < |pubs| ==> pubs[i].participantId == pid
  }

  ghost predicate AllRefsOf(refs: seq<TrackRef>, pid: string) {
    forall i :: 0 <= i < |refs| ==> refs[i].participantId == pid
  }

  ghost predicate AllMutesOf(mutes: seq<TrackMuted>, pid: string) {
    forall i :: 0 <= i < |mutes| ==> mutes[i].track.participantId == pid
  }

  lemma {:induction false} AnnounceOne(v: View, pubs: seq<TrackPublished>, pid: string)
    requires AllPublishedBy(pubs, pid) && pid in v
    ensures Announce(v, pubs) == WithTracks(v, pid, AddTracks(v[pid].tracks, pubs))
  {
    if pubs == [] {
      PutBack(v, pid);
    } else {
      AnnounceOne(v, pubs[..|pubs| - 1], pid);
      PutTwice(v, pid, v[pid].(tracks := AddTracks(v[pid].tracks, pubs[..|pubs| - 1])),
               v[pid].(tracks := AddTracks(v[pid].tracks, pubs)));
    }
  }

  lemma {:induction false} WithdrawOne(v: View, refs: seq<TrackRef>, pid: string)
    requires AllRefsOf(refs, pid) && pid in v
    ensures Withdraw(v, refs) == WithTracks(v, pid, DropTracks(v[pid].tracks, refs))
  {
    if refs == [] {
      PutBack(v, pid);
    } else {
      WithdrawOne(v, refs[..|refs| - 1], pid);
      PutTwice(v, pid, v[pid].(tracks := DropTracks(v[pid].tracks, refs[..|refs| - 1])),
               v[pid].(tracks := DropTracks(v[pid].tracks, refs)));
    }
  }

  lemma {:induction false} MuteAllOne(v: View, mutes: seq<TrackMuted>, pid: string)
    requires AllMutesOf(mutes, pid) && pid in v
    ensures MuteAll(v, mutes) == WithTracks(v, pid, MuteTracks(v[pid].tracks, mutes))
  {
    if mutes == [] {
      PutBack(v, pid);
    } else {
      MuteAllOne(v, mutes[..|mutes| - 1], pid);
      PutTwice(v, pid, v[pid].(tracks := MuteTracks(v[pid].tracks, mutes[..|mutes| - 1])),
               v[pid].(tracks := MuteTracks(v[pid].tracks, mutes)));
    }
  }

  lemma {:induction false} UnpublishTellsOf(tracks: Tracks, pid: string, ids: seq<string>)
    ensures AllRefsOf(UnpublishAll(tracks, pid, ids).1, pid)
  {
    if ids != [] {
      UnpublishTellsOf(tracks, pid, ids[..|ids| - 1]);
    }
  }

  lemma ChangeApplies(v: View, pid: string, d: RoomDelta)
    requires pid in v && d.joined == [] && d.left == []
    requires AllPublishedBy(d.published, pid) && AllRefsOf(d.unpublished, pid) && AllMutesOf(d.muteChanges, pid)
    ensures ApplyDelta(v, d) == WithTracks(v, pid, Changed(v[pid].tracks, d))
  {
    var ts := v[pid].tracks;
    AnnounceOne(v, d.published, pid);
    var added := AddTracks(ts, d.published);
    var v1 := WithTracks(v, pid, added);
    WithdrawOne(v1, d.unpublished, pid);
    var dropped := DropTracks(added, d.unpublished);
    PutTwice(v, pid, v[pid].(tracks := added), v[pid].(tracks := dropped));
    var v2 := WithTracks(v, pid, dropped);
    MuteAllOne(v2, d.muteChanges, pid);
    PutTwice(v, pid, v[pid].(tracks := dropped), v[pid].(tracks := MuteTracks(dropped, d.muteChanges)));
  }

  /** After any batch of local track changes, every peer that folds the delta agrees again. */
  lemma ChangeAgrees(v: View, room: Room, self: string, pid: string, publish: seq<Track>, unpublish: seq<string>)
    requires Agrees(v, room, self) && pid in room && pid != self
    ensures var (after, d) := ChangeTracks(room[pid].tracks, pid, publish, unpublish);
            Agrees(ApplyDelta(v, d), room[pid := room[pid].(tracks := after)], self)
  {
    var (after, d) := ChangeTracks(room[pid].tracks, pid, publish, unpublish);
    PublishTellsOf(room[pid].tracks, pid, publish);
    UnpublishTellsOf(PublishAll(room[pid].tracks, pid, publish).0, pid, unpublish);
    assert Mirrors(v[pid], pid, room[pid], self);
    ChangeApplies(v, pid, d);
    ChangedLists(v[pid].tracks, room[pid].tracks, pid, publish, unpublish);
  }

  /** A batch that reports nothing changes nothing that peers show. */
  lemma SilentChangeAgrees(v: View, room: Room, self: string, pid: string, publish: seq<Track>, unpublish: seq<string>)
    requires Agrees(v, room, self) && pid in room && pid != self
    requires ChangeTracks(room[pid].tracks, pid, publish, unpublish).1 == NO_CHANGE
    ensures Agrees(v, room[pid := room[pid].(tracks := ChangeTracks(room[pid].tracks, pid, publish, unpublish).0)], self)
  {
    ChangeAgrees(v, room, self, pid, publish, unpublish);
    assert ApplyDelta(v, NO_CHANGE) == v;
  }

  // ── The whole history of one client ───────────────────────────────────

  /** The picture a join response gives; a joiner missing from it is added under its own name. */
  function Roster(pid: string, es: seq<Entry>, name: string, local: seq<Track>): View {
    var v := Enter(map[], es);
    if pid != "" && pid !in v then v[pid := Entry(pid, name, local)] else v
  }

  function See(v: View, m: ServerMessage, name: string, local: seq<Track>): View {
    match m
    case JoinResponse(pid, es) => Roster(pid, es, name, local)
    case Delta(d) => ApplyDelta(v, d)
    case _ => v
  }

  /** The picture after draining these messages in order. */
  function Seen(msgs: seq<ServerMessage>, name: string, local: seq<Track>): View {
    if msgs == [] then map[] else See(Seen(msgs[..|msgs| - 1], name, local), msgs[|msgs| - 1], name, local)
  }

  lemma SeenMore(msgs: seq<ServerMessage>, m: ServerMessage, name: string, local: seq<Track>)
    ensures Seen(msgs + [m], name, local) == See(Seen(msgs, name, local), m, name, local)
  {
    assert (msgs + [m])[..|msgs|] == msgs;
  }

  /** A joiner finds itself in its snapshot, so its own name and tracks are not consulted. */
  lemma RosterAgrees(room: Room, pid: string, name: string, local: seq<Track>)
    requires pid in room
    ensures Agrees(Roster(pid, Snapshot(room), name, local), room, pid)
  {
    SnapshotAgrees(room, pid);
  }
}
