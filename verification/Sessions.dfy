/**
 * One client connection's protocol state: what each message does to the
 * session and the registry, and what it makes the adapter send.
 */
module Sessions {
  import opened Maps
  import opened Messages
  import opened Registries
  import opened Rooms
  import opened RoomViews
  import opened TrackLists
  import opened Wrappers
  import KeyOrder

  const MAX_CHAT_BYTES := 2000
  const MAX_U32: nat := 0xFFFF_FFFF

  /** A missing maximal layer means the best there is. */
  const UNBOUNDED_LAYER := Layer(MAX_U32, MAX_U32)

  datatype State = AwaitingJoin | Joined | Closed

  /** Ids are kept after closing, so that the final delta can be routed. */
  datatype SessionValue = SessionValue(
    state: State,
    participantId: Option<string>,
    roomId: Option<string>,
    displayName: Option<string>,
    chatSeq: nat)

  const FRESH := SessionValue(AwaitingJoin, None, None, None, 0)

  /** A session has both ids or neither, both while joined, and none before. */
  predicate WellFormed(s: SessionValue) {
    && (s.participantId.Some? <==> s.roomId.Some?)
    && (s.state == Joined ==> s.participantId.Some?)
    && (s.state == AwaitingJoin ==> s.participantId.None?)
  }

  datatype Handled = Handled(session: SessionValue, directory: Directory, outputs: seq<Output>)

  function Reject(s: SessionValue, d: Directory): Handled {
    Handled(s.(state := Closed), d, [ToSelf(Disconnect(UnspecifiedReason)), Close])
  }

  function OnJoin(s: SessionValue, d: Directory, claims: Option<Claims>): Handled {
    if claims.None? then Reject(s, d)
    else
      var room, name := claims.value.roomId, claims.value.displayName;
      var (d', r) := Join(d, room, name);
      if r.Err? then Reject(s, d)
      else
        Handled(SessionValue(Joined, Some(r.value), Some(room), Some(name), s.chatSeq), d',
                [ToSelf(JoinResponse(r.value, Snapshot(d'.rooms[room]))),
                 ToPeers(Delta(JoinedDelta(r.value, name)))])
  }

  function OnLocalTracks(s: SessionValue, d: Directory, publish: seq<Track>, unpublish: seq<string>): Handled
    requires WellFormed(s) && s.state == Joined
  {
    var room, pid := s.roomId.value, s.participantId.value;
    if !Present(d, room, pid) then Handled(s, d, [])
    else
      var m := d.rooms[room][pid];
      var (after, delta) := ChangeTracks(m.tracks, pid, publish, unpublish);
      Handled(s, SetMember(d, room, pid, m.(tracks := after)),
              if delta == NO_CHANGE then [] else [ToPeers(Delta(delta))])
  }

  /** The subscriptions that name a track, with missing layers made unbounded. */
  function CoreSubscriptions(wire: seq<WireSubscription>): seq<Subscription> {
    if wire == [] then []
    else
      var front, last := CoreSubscriptions(wire[..|wire| - 1]), wire[|wire| - 1];
      if last.track.None? then front
      else
        front + [Subscription(last.track.value,
                              if last.maxLayer.Some? then last.maxLayer.value else UNBOUNDED_LAYER,
                              last.priority)]
  }

  function LastApplied(d: Directory, room: string, pid: string): nat {
    if Present(d, room, pid) && d.rooms[room][pid].applied.Some? then d.rooms[room][pid].applied.value else 0
  }

  /** The revision to echo: the one applied now, or the one applied last. */
  function EchoedRevision(d: Directory, room: string, pid: string, r: Result<nat, RoomError>): nat {
    match r
    case Ok(revision) => revision
    case Err(StaleRevision(applied)) => applied
    case Err(_) => LastApplied(d, room, pid)
  }

  function OnSubscriptions(s: SessionValue, d: Directory, upsert: seq<WireSubscription>,
                           remove: seq<TrackRef>, revision: nat): Handled
    requires WellFormed(s) && s.state == Joined
  {
    var room, pid := s.roomId.value, s.participantId.value;
    var (d', r) := Rooms.UpdateSubscriptions(d, room, pid, CoreSubscriptions(upsert), remove, revision);
    Handled(s, d', [ToSelf(SubscriptionUpdate(EchoedRevision(d', room, pid, r)))])
  }

  function OnSendChat(s: SessionValue, d: Directory, text: string, inBudget: bool): Handled
    requires WellFormed(s) && s.state == Joined
  {
    if text == "" || |text| > MAX_CHAT_BYTES || !inBudget then Handled(s, d, [])
    else
      var pid := s.participantId.value;
      var name := if s.displayName.Some? then s.displayName.value else "";
      var msg := Chat(pid + "-" + KeyOrder.Decimal(s.chatSeq + 1), pid, name, text);
      Handled(s.(chatSeq := s.chatSeq + 1), d, [ToPeers(msg), ToSelf(msg)])
  }

  /** Close the session and, if its participant was still in the room, say so. */
  function RemoveFromRoom(s: SessionValue, d: Directory): Handled {
    var closed := s.(state := Closed);
    if s.roomId.None? || s.participantId.None? then Handled(closed, d, [])
    else
      var (d', removed) := Leave(d, s.roomId.value, s.participantId.value);
      Handled(closed, d', if removed then [ToPeers(Delta(LeftDelta(s.participantId.value)))] else [])
  }

  function OnLeave(s: SessionValue, d: Directory): Handled {
    var h := RemoveFromRoom(s, d);
    h.(outputs := [ToSelf(Disconnect(ClientLeft))] + h.outputs + [Close])
  }

  function Handle(s: SessionValue, d: Directory, msg: ClientMessage): Handled
    requires WellFormed(s)
  {
    match s.state
    case AwaitingJoin => if msg.JoinRequest? then OnJoin(s, d, msg.claims) else Reject(s, d)
    case Closed => Handled(s, d, [])
    case Joined =>
      match msg
      case JoinRequest(_) => Reject(s, d)
      case UpdateLocalTracks(publish, unpublish) => OnLocalTracks(s, d, publish, unpublish)
      case UpdateSubscriptions(upsert, remove, revision) => OnSubscriptions(s, d, upsert, remove, revision)
      case SendChat(text, inBudget) => OnSendChat(s, d, text, inBudget)
      case LeaveRequest => OnLeave(s, d)
      case Transport => Handled(s, d, [])
      case Empty => Handled(s, d, [])
  }

  lemma HandleWellFormed(s: SessionValue, d: Directory, msg: ClientMessage)
    requires WellFormed(s)
    ensures WellFormed(Handle(s, d, msg).session)
  {
  }

  // ── Every message keeps the registry sound ────────────────────────────

  lemma {:induction false} PublishAllBounded(m: Member, pid: string, publish: seq<Track>)
    requires MemberBounded(m)
    ensures MemberBounded(m.(tracks := PublishAll(m.tracks, pid, publish).0))
  {
    if publish != [] {
      var last := publish[|publish| - 1];
      PublishAllBounded(m, pid, publish[..|publish| - 1]);
      var before := PublishAll(m.tracks, pid, publish[..|publish| - 1]).0;
      if Sized(last.id, MAX_ID_LEN) {
        PublishTrackBounded(m.(tracks := before), last.id, CoreMeta(last));
      }
    }
  }

  lemma {:induction false} UnpublishAllBounded(m: Member, pid: string, ids: seq<string>)
    requires MemberBounded(m)
    ensures MemberBounded(m.(tracks := UnpublishAll(m.tracks, pid, ids).0))
  {
    if ids != [] {
      UnpublishAllBounded(m, pid, ids[..|ids| - 1]);
      DropSize(UnpublishAll(m.tracks, pid, ids[..|ids| - 1]).0, ids[|ids| - 1]);
    }
  }

  lemma LocalTracksKeepSound(s: SessionValue, d: Directory, publish: seq<Track>, unpublish: seq<string>)
    requires WellFormed(s) && s.state == Joined && Sound(d)
    ensures Sound(OnLocalTracks(s, d, publish, unpublish).directory)
  {
    var room, pid := s.roomId.value, s.participantId.value;
    if Present(d, room, pid) {
      var m := d.rooms[room][pid];
      PresentBounded(d, room, pid);
      PublishAllBounded(m, pid, publish);
      var published := PublishAll(m.tracks, pid, publish).0;
      UnpublishAllBounded(m.(tracks := published), pid, unpublish);
      SetKeepsSound(d, room, pid, m.(tracks := ChangeTracks(m.tracks, pid, publish, unpublish).0));
    }
  }

  /** The registry operation behind each message. */
  function DirectoryAfter(s: SessionValue, d: Directory, msg: ClientMessage): Directory
    requires WellFormed(s)
  {
    if s.state == AwaitingJoin && msg.JoinRequest? && msg.claims.Some? then
      Join(d, msg.claims.value.roomId, msg.claims.value.displayName).0
    else if s.state == Joined && msg.UpdateLocalTracks? then
      OnLocalTracks(s, d, msg.publish, msg.unpublish).directory
    else if s.state == Joined && msg.UpdateSubscriptions? then
      Rooms.UpdateSubscriptions(d, s.roomId.value, s.participantId.value,
                                CoreSubscriptions(msg.upsert), msg.remove, msg.revision).0
    else if s.state == Joined && msg.LeaveRequest? then
      Leave(d, s.roomId.value, s.participantId.value).0
    else d
  }

  lemma HandleDirectory(s: SessionValue, d: Directory, msg: ClientMessage)
    requires WellFormed(s)
    ensures Handle(s, d, msg).directory == DirectoryAfter(s, d, msg)
  {
  }

  lemma DirectoryAfterSound(s: SessionValue, d: Directory, msg: ClientMessage)
    requires WellFormed(s) && Sound(d)
    ensures Sound(DirectoryAfter(s, d, msg))
  {
    if s.state == AwaitingJoin && msg.JoinRequest? && msg.claims.Some? {
      JoinKeepsSound(d, msg.claims.value.roomId, msg.claims.value.displayName);
    } else if s.state == Joined && msg.UpdateLocalTracks? {
      LocalTracksKeepSound(s, d, msg.publish, msg.unpublish);
    } else if s.state == Joined && msg.UpdateSubscriptions? {
      UpdateKeepsSound(d, s.roomId.value, s.participantId.value,
                       CoreSubscriptions(msg.upsert), msg.remove, msg.revision);
    } else if s.state == Joined && msg.LeaveRequest? {
      LeaveKeepsSound(d, s.roomId.value, s.participantId.value);
    }
  }

  lemma HandleKeepsSound(s: SessionValue, d: Directory, msg: ClientMessage)
    requires WellFormed(s) && Sound(d)
    ensures Sound(Handle(s, d, msg).directory)
  {
    HandleDirectory(s, d, msg);
    DirectoryAfterSound(s, d, msg);
  }

  // ── The session object ────────────────────────────────────────────────

  lemma SetTwice(d: Directory, room: string, pid: string, m: Member, m': Member)
    requires Present(d, room, pid)
    ensures Present(SetMember(d, room, pid, m), room, pid)
    ensures SetMember(d, room, pid, m).rooms[room][pid] == m
    ensures SetMember(SetMember(d, room, pid, m), room, pid, m') == SetMember(d, room, pid, m')
  {
    var d1 := SetMember(d, room, pid, m);
    assert d1.rooms[room][pid := m'] == d.rooms[room][pid := m'];
    assert d1.rooms[room := d.rooms[room][pid := m']] == d.rooms[room := d.rooms[room][pid := m']];
  }

  /** One publish on a registry where the member's tracks are already being changed. */
  lemma PublishStep(d: Directory, room: string, pid: string, m: Member, tracks: Tracks, t: Track)
    requires Present(d, room, pid)
    ensures Publish(SetMember(d, room, pid, m.(tracks := tracks)), room, pid, t.id, CoreMeta(t)) ==
            if !Sized(t.id, MAX_ID_LEN) then (SetMember(d, room, pid, m.(tracks := tracks)), Err(InvalidInput))
            else
              var (after, outcome) := PublishTrack(tracks, t.id, Trimmed(CoreMeta(t)));
              (SetMember(d, room, pid, m.(tracks := after)), outcome)
  {
    var after := PublishTrack(tracks, t.id, Trimmed(CoreMeta(t))).0;
    SetTwice(d, room, pid, m.(tracks := tracks), m.(tracks := after));
  }

  lemma UnpublishStep(d: Directory, room: string, pid: string, m: Member, tracks: Tracks, id: string)
    requires Present(d, room, pid)
    ensures Unpublish(SetMember(d, room, pid, m.(tracks := tracks)), room, pid, id) ==
            (SetMember(d, room, pid, m.(tracks := tracks - {id})), Ok(id in tracks))
  {
    SetTwice(d, room, pid, m.(tracks := tracks), m.(tracks := tracks - {id}));
  }

  /** The publishes of a batch as they are made: each looks its participant up again. */
  function PublishEach(d: Directory, room: string, pid: string, publish: seq<Track>): (Directory, RoomDelta) {
    if publish == [] then (d, NO_CHANGE)
    else
      var last := publish[|publish| - 1];
      var (before, delta) := PublishEach(d, room, pid, publish[..|publish| - 1]);
      var (after, outcome) := Publish(before, room, pid, last.id, CoreMeta(last));
      (after, Reported(delta, pid, last, outcome))
  }

  function UnpublishEach(d: Directory, room: string, pid: string, ids: seq<string>): (Directory, seq<TrackRef>) {
    if ids == [] then (d, [])
    else
      var last := ids[|ids| - 1];
      var (before, gone) := UnpublishEach(d, room, pid, ids[..|ids| - 1]);
      var (after, existed) := Unpublish(before, room, pid, last);
      (after, if existed.Ok? && existed.value then gone + [TrackRef(pid, last)] else gone)
  }

  lemma {:induction false} PublishEachIs(d: Directory, room: string, pid: string, publish: seq<Track>)
    requires Present(d, room, pid)
    ensures var m := d.rooms[room][pid];
            var (tracks, delta) := PublishAll(m.tracks, pid, publish);
            PublishEach(d, room, pid, publish) == (SetMember(d, room, pid, m.(tracks := tracks)), delta)
  {
    var m := d.rooms[room][pid];
    if publish == [] {
      PutMemberBack(d, room, pid);
    } else {
      var front, last := publish[..|publish| - 1], publish[|publish| - 1];
      PublishEachIs(d, room, pid, front);
      PublishStep(d, room, pid, m, PublishAll(m.tracks, pid, front).0, last);
    }
  }

  lemma {:induction false} UnpublishEachIs(d: Directory, room: string, pid: string, ids: seq<string>)
    requires Present(d, room, pid)
    ensures var m := d.rooms[room][pid];
            var (tracks, gone) := UnpublishAll(m.tracks, pid, ids);
            UnpublishEach(d, room, pid, ids) == (SetMember(d, room, pid, m.(tracks := tracks)), gone)
  {
    var m := d.rooms[room][pid];
    if ids == [] {
      PutMemberBack(d, room, pid);
    } else {
      var front, last := ids[..|ids| - 1], ids[|ids| - 1];
      UnpublishEachIs(d, room, pid, front);
      UnpublishStep(d, room, pid, m, UnpublishAll(m.tracks, pid, front).0, last);
    }
  }

  /** Nobody's tracks change when the participant is not there. */
  lemma {:induction false} AbsentChangesNothing(d: Directory, room: string, pid: string, publish: seq<Track>, ids: seq<string>)
    requires !Present(d, room, pid)
    ensures PublishEach(d, room, pid, publish) == (d, NO_CHANGE) && UnpublishEach(d, room, pid, ids) == (d, [])
    decreases |publish| + |ids|
  {
    if publish != [] {
      AbsentChangesNothing(d, room, pid, publish[..|publish| - 1], ids);
    } else if ids != [] {
      AbsentChangesNothing(d, room, pid, publish, ids[..|ids| - 1]);
    }
  }

  /** Looking the participant up once for the whole batch comes to the same. */
  lemma LocalTracksEach(s: SessionValue, d: Directory, publish: seq<Track>, unpublish: seq<string>)
    requires WellFormed(s) && s.state == Joined
    ensures var room, pid := s.roomId.value, s.participantId.value;
            var (published, delta) := PublishEach(d, room, pid, publish);
            var (after, gone) := UnpublishEach(published, room, pid, unpublish);
            var told := delta.(unpublished := gone);
            OnLocalTracks(s, d, publish, unpublish) ==
            Handled(s, after, if told == NO_CHANGE then [] else [ToPeers(Delta(told))])
  {
    var room, pid := s.roomId.value, s.participantId.value;
    if Present(d, room, pid) {
      var m := d.rooms[room][pid];
      var tracks := PublishAll(m.tracks, pid, publish).0;
      PublishEachIs(d, room, pid, publish);
      SetTwice(d, room, pid, m.(tracks := tracks), m.(tracks := UnpublishAll(tracks, pid, unpublish).0));
      UnpublishEachIs(SetMember(d, room, pid, m.(tracks := tracks)), room, pid, unpublish);
    } else {
      AbsentChangesNothing(d, room, pid, publish, unpublish);
    }
  }
}
