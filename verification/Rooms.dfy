/**
 * The value of the room registry, what each registry operation makes of it,
 * and the bounds every operation keeps.
 */
module Rooms {
  import opened Wrappers
  import opened KeyOrder
  import opened Maps

  const MAX_ROOMS := 1024
  const MAX_PARTICIPANTS_PER_ROOM := 512
  const MAX_TRACKS_PER_PARTICIPANT := 16
  const MAX_LAYERS_PER_TRACK := 8
  const MAX_SUBSCRIPTIONS_PER_PARTICIPANT := 2048
  const MAX_ID_LEN := 128
  const MAX_NAME_LEN := 128
  const MAX_MID_LEN := 64

  datatype TrackKind = UnspecifiedKind | Audio | Video

  datatype TrackSource = UnspecifiedSource | Camera | Microphone | Screenshare | ScreenshareAudio

  datatype Layer = Layer(spatial: nat, temporal: nat)

  datatype TrackMeta = TrackMeta(kind: TrackKind, source: TrackSource, muted: bool, layers: seq<Layer>, mid: string)

  datatype TrackRef = TrackRef(participantId: string, trackId: string)

  datatype Subscription = Subscription(track: TrackRef, maxLayer: Layer, priority: nat)

  type Tracks = map<string, TrackMeta>

  type Subscriptions = map<TrackRef, Subscription>

  datatype Member = Member(name: string, tracks: Tracks, subscriptions: Subscriptions, applied: Option<nat>)

  type Room = map<string, Member>

  datatype Directory = Directory(rooms: map<string, Room>, nextSeq: nat)

  const NOBODY := Directory(map[], 0)

  datatype RoomError =
    | InvalidInput
    | TooManyRooms
    | RoomFull
    | NoSuchRoom
    | NoSuchParticipant
    | TooManyTracks
    | TooManySubscriptions
    | StaleRevision(applied: nat)

  /** What publishing an accepted track changed. */
  datatype PublishOutcome = PublishOutcome(isNew: bool, muteChange: Option<bool>)

  predicate Sized(s: string, bound: nat) {
    0 < |s| <= bound
  }

  /** The id of the n-th participant ever admitted. */
  function ParticipantId(n: nat): string {
    "p" + Decimal(n)
  }

  lemma ParticipantIdInjective(a: nat, b: nat)
    requires ParticipantId(a) == ParticipantId(b)
    ensures a == b
  {
    assert Decimal(a) == ParticipantId(a)[1..] && Decimal(b) == ParticipantId(b)[1..];
    DecimalInjective(a, b);
  }

  /** Was `pid` given out among the first `n` admissions? */
  ghost predicate Issued(pid: string, n: nat) {
    n > 0 && (pid == ParticipantId(n - 1) || Issued(pid, n - 1))
  }

  lemma {:induction false} NotYetIssued(k: nat, n: nat)
    requires n <= k
    ensures !Issued(ParticipantId(k), n)
  {
    if n > 0 {
      NotYetIssued(k, n - 1);
      if ParticipantId(k) == ParticipantId(n - 1) { ParticipantIdInjective(k, n - 1); }
    }
  }

  // ── Operations ────────────────────────────────────────────────────────

  predicate Present(d: Directory, room: string, pid: string) {
    room in d.rooms && pid in d.rooms[room]
  }

  function SetMember(d: Directory, room: string, pid: string, m: Member): Directory
    requires room in d.rooms
  {
    d.(rooms := d.rooms[room := d.rooms[room][pid := m]])
  }

  function Join(d: Directory, room: string, name: string): (Directory, Result<string, RoomError>) {
    if !Sized(room, MAX_ID_LEN) || !Sized(name, MAX_NAME_LEN) then (d, Err(InvalidInput))
    else if room !in d.rooms && |d.rooms| >= MAX_ROOMS then (d, Err(TooManyRooms))
    else
      var members := if room in d.rooms then d.rooms[room] else map[];
      if |members| >= MAX_PARTICIPANTS_PER_ROOM then (d, Err(RoomFull))
      else
        var pid := ParticipantId(d.nextSeq);
        var members' := members[pid := Member(name, map[], map[], None)];
        (Directory(d.rooms[room := members'], d.nextSeq + 1), Ok(pid))
  }

  function Leave(d: Directory, room: string, pid: string): (Directory, bool) {
    if room !in d.rooms then (d, false)
    else
      var members := d.rooms[room] - {pid};
      var rooms := if members == map[] then d.rooms - {room} else d.rooms[room := members];
      (d.(rooms := rooms), pid in d.rooms[room])
  }

  function Truncated<T>(s: seq<T>, bound: nat): seq<T> {
    if |s| > bound then s[..bound] else s
  }

  /** The metadata as kept: layers and mid cut to their bounds. */
  function Trimmed(meta: TrackMeta): TrackMeta {
    meta.(layers := Truncated(meta.layers, MAX_LAYERS_PER_TRACK), mid := Truncated(meta.mid, MAX_MID_LEN))
  }

  function Find(d: Directory, room: string, pid: string): Result<Member, RoomError> {
    if room !in d.rooms then Err(NoSuchRoom)
    else if pid !in d.rooms[room] then Err(NoSuchParticipant)
    else Ok(d.rooms[room][pid])
  }

  function PublishTrack(tracks: Tracks, id: string, meta: TrackMeta): (Tracks, Result<PublishOutcome, RoomError>) {
    if id !in tracks then
      if |tracks| >= MAX_TRACKS_PER_PARTICIPANT then (tracks, Err(TooManyTracks))
      else (tracks[id := meta], Ok(PublishOutcome(true, None)))
    else
      (tracks[id := meta],
       Ok(PublishOutcome(false, if tracks[id].muted != meta.muted then Some(meta.muted) else None)))
  }

  function Publish(d: Directory, room: string, pid: string, id: string, meta: TrackMeta)
    : (Directory, Result<PublishOutcome, RoomError>)
  {
    if !Sized(id, MAX_ID_LEN) then (d, Err(InvalidInput))
    else
      match Find(d, room, pid)
      case Err(e) => (d, Err(e))
      case Ok(m) =>
        var (tracks, outcome) := PublishTrack(m.tracks, id, Trimmed(meta));
        (SetMember(d, room, pid, m.(tracks := tracks)), outcome)
  }

  function Unpublish(d: Directory, room: string, pid: string, id: string): (Directory, Result<bool, RoomError>) {
    match Find(d, room, pid)
    case Err(e) => (d, Err(e))
    case Ok(m) => (SetMember(d, room, pid, m.(tracks := m.tracks - {id})), Ok(id in m.tracks))
  }

  /** Each subscription in turn, a later one for the same track winning. */
  function Upserted(subs: Subscriptions, upsert: seq<Subscription>): (r: Subscriptions)
    ensures r.Keys == subs.Keys + (set s | s in upsert :: s.track)
  {
    if upsert == [] then subs
    else
      var front, last := upsert[..|upsert| - 1], upsert[|upsert| - 1];
      assert upsert == front + [last];
      Upserted(subs, front)[last.track := last]
  }

  /** The subscriptions after a batch: removals first, so an upsert of the same track wins. */
  function Batched(subs: Subscriptions, upsert: seq<Subscription>, remove: seq<TrackRef>): (r: Subscriptions)
    ensures r.Keys == subs.Keys - (set t | t in remove) + (set s | s in upsert :: s.track)
  {
    Upserted(subs - (set t | t in remove), upsert)
  }

  /** One member's update: all of the batch, or none of it and the reason. */
  function UpdateMember(m: Member, upsert: seq<Subscription>, remove: seq<TrackRef>, revision: nat)
    : (Member, Result<nat, RoomError>)
  {
    if m.applied.Some? && revision <= m.applied.value then (m, Err(StaleRevision(m.applied.value)))
    else
      var after := Batched(m.subscriptions, upsert, remove);
      if |after| > MAX_SUBSCRIPTIONS_PER_PARTICIPANT then (m, Err(TooManySubscriptions))
      else (m.(subscriptions := after, applied := Some(revision)), Ok(revision))
  }

  function UpdateSubscriptions(d: Directory, room: string, pid: string,
                               upsert: seq<Subscription>, remove: seq<TrackRef>, revision: nat)
    : (Directory, Result<nat, RoomError>)
  {
    match Find(d, room, pid)
    case Err(e) => (d, Err(e))
    case Ok(m) =>
      var (m', r) := UpdateMember(m, upsert, remove, revision);
      (SetMember(d, room, pid, m'), r)
  }

  // ── What every operation keeps ────────────────────────────────────────

  predicate MetaBounded(meta: TrackMeta) {
    |meta.layers| <= MAX_LAYERS_PER_TRACK && |meta.mid| <= MAX_MID_LEN
  }

  predicate MemberBounded(m: Member) {
    && Sized(m.name, MAX_NAME_LEN)
    && |m.tracks| <= MAX_TRACKS_PER_PARTICIPANT
    && (forall id :: id in m.tracks ==> Sized(id, MAX_ID_LEN) && MetaBounded(m.tracks[id]))
    && |m.subscriptions| <= MAX_SUBSCRIPTIONS_PER_PARTICIPANT
    && (forall t :: t in m.subscriptions ==> m.subscriptions[t].track == t)
  }

  ghost predicate MemberSound(p: string, m: Member, nextSeq: nat) {
    MemberBounded(m) && Issued(p, nextSeq)
  }

  ghost predicate RoomSound(room: Room, nextSeq: nat) {
    && 0 < |room| <= MAX_PARTICIPANTS_PER_ROOM
    && (forall p :: p in room ==> MemberSound(p, room[p], nextSeq))
  }

  ghost predicate RoomsSound(rooms: map<string, Room>, nextSeq: nat) {
    forall r :: r in rooms ==> Sized(r, MAX_ID_LEN) && RoomSound(rooms[r], nextSeq)
  }

  /** No room empty, every cap held, every id issued. */
  ghost predicate Capped(d: Directory) {
    |d.rooms| <= MAX_ROOMS && RoomsSound(d.rooms, d.nextSeq)
  }

  ghost predicate OneRoomEach(d: Directory) {
    forall r, r', p :: Present(d, r, p) && Present(d, r', p) ==> r == r'
  }

  ghost predicate Sound(d: Directory) {
    Capped(d) && OneRoomEach(d)
  }

  lemma FewerPresent(d: Directory, d': Directory)
    requires OneRoomEach(d)
    requires forall r, p :: Present(d', r, p) ==> Present(d, r, p)
    ensures OneRoomEach(d')
  {
  }

  lemma SetInRoom(room: Room, n: nat, pid: string, m: Member)
    requires RoomSound(room, n) && pid in room && MemberBounded(m)
    ensures RoomSound(room[pid := m], n)
  {
    PutSize(room, pid, m);
    assert MemberSound(pid, room[pid], n);
  }

  lemma PutRoom(rooms: map<string, Room>, n: nat, r: string, room: Room)
    requires RoomsSound(rooms, n) && Sized(r, MAX_ID_LEN) && RoomSound(room, n)
    ensures RoomsSound(rooms[r := room], n)
  {
  }

  lemma SetPresence(d: Directory, room: string, pid: string, m: Member)
    requires Present(d, room, pid)
    ensures forall r, p :: Present(SetMember(d, room, pid, m), r, p) <==> Present(d, r, p)
  {
  }

  lemma SetCapped(d: Directory, room: string, pid: string, m: Member)
    requires Capped(d) && Present(d, room, pid) && MemberBounded(m)
    ensures Capped(SetMember(d, room, pid, m))
  {
    SetInRoom(d.rooms[room], d.nextSeq, pid, m);
    PutRoom(d.rooms, d.nextSeq, room, d.rooms[room][pid := m]);
    PutSize(d.rooms, room, d.rooms[room][pid := m]);
  }

  /** Replacing one member by a bounded one. */
  lemma SetKeepsSound(d: Directory, room: string, pid: string, m: Member)
    requires Sound(d) && Present(d, room, pid) && MemberBounded(m)
    ensures Sound(SetMember(d, room, pid, m))
  {
    SetCapped(d, room, pid, m);
    SetPresence(d, room, pid, m);
    FewerPresent(d, SetMember(d, room, pid, m));
  }

  /** The next id is nobody's: it was never issued before. */
  lemma NextIdIsNew(d: Directory, r: string)
    requires Capped(d)
    ensures !Present(d, r, ParticipantId(d.nextSeq))
  {
    NotYetIssued(d.nextSeq, d.nextSeq);
    if r in d.rooms {
      assert RoomSound(d.rooms[r], d.nextSeq);
    }
  }

  lemma IssuedLater(room: Room, n: nat)
    requires RoomSound(room, n)
    ensures RoomSound(room, n + 1)
  {
    forall p | p in room ensures MemberSound(p, room[p], n + 1) {
      assert MemberSound(p, room[p], n);
    }
  }

  lemma GrownRoom(members: Room, n: nat, m: Member)
    requires members == map[] || RoomSound(members, n)
    requires |members| < MAX_PARTICIPANTS_PER_ROOM && MemberBounded(m)
    ensures RoomSound(members[ParticipantId(n) := m], n + 1)
  {
    PutSize(members, ParticipantId(n), m);
    if members != map[] { IssuedLater(members, n); }
  }

  function Members(d: Directory, room: string): Room {
    if room in d.rooms then d.rooms[room] else map[]
  }

  lemma JoinCapped(d: Directory, room: string, name: string)
    requires Capped(d) && Join(d, room, name).1.Ok?
    ensures Capped(Join(d, room, name).0)
  {
    var d' := Join(d, room, name).0;
    var m := Member(name, map[], map[], None);
    GrownRoom(Members(d, room), d.nextSeq, m);
    PutSize(d.rooms, room, Members(d, room)[ParticipantId(d.nextSeq) := m]);
    forall r | r in d'.rooms ensures Sized(r, MAX_ID_LEN) && RoomSound(d'.rooms[r], d'.nextSeq) {
      if r != room { IssuedLater(d.rooms[r], d.nextSeq); }
    }
  }

  /** Joining adds the new participant to its room and changes nobody else. */
  lemma JoinPresence(d: Directory, room: string, name: string)
    requires Join(d, room, name).1.Ok?
    ensures forall r, p :: Present(Join(d, room, name).0, r, p) <==>
                             Present(d, r, p) || (r == room && p == ParticipantId(d.nextSeq))
    ensures forall r, p :: Present(d, r, p) && p != ParticipantId(d.nextSeq) ==>
                             Join(d, room, name).0.rooms[r][p] == d.rooms[r][p]
  {
  }

  lemma OneMore(d: Directory, d': Directory, room: string, pid: string)
    requires OneRoomEach(d)
    requires forall r :: !Present(d, r, pid)
    requires forall r, p :: Present(d', r, p) <==> Present(d, r, p) || (r == room && p == pid)
    ensures OneRoomEach(d')
  {
  }

  lemma JoinOneRoomEach(d: Directory, room: string, name: string)
    requires Sound(d) && Join(d, room, name).1.Ok?
    ensures OneRoomEach(Join(d, room, name).0)
  {
    JoinPresence(d, room, name);
    forall r ensures !Present(d, r, ParticipantId(d.nextSeq)) { NextIdIsNew(d, r); }
    OneMore(d, Join(d, room, name).0, room, ParticipantId(d.nextSeq));
  }

  /** A refused joiner leaves no trace, not even an empty room. */
  lemma JoinErrKeeps(d: Directory, room: string, name: string)
    requires Join(d, room, name).1.Err?
    ensures Join(d, room, name).0 == d
  {
  }

  lemma JoinKeepsSound(d: Directory, room: string, name: string)
    requires Sound(d)
    ensures Sound(Join(d, room, name).0)
  {
    if Join(d, room, name).1.Ok? {
      JoinCapped(d, room, name);
      JoinOneRoomEach(d, room, name);
    } else {
      JoinErrKeeps(d, room, name);
    }
  }

  lemma LeavePresence(d: Directory, room: string, pid: string)
    ensures forall r, p :: Present(Leave(d, room, pid).0, r, p) <==> Present(d, r, p) && (r != room || p != pid)
    ensures forall r, p :: Present(Leave(d, room, pid).0, r, p) ==> Leave(d, room, pid).0.rooms[r][p] == d.rooms[r][p]
    ensures Leave(d, room, pid).1 == Present(d, room, pid)
  {
    if room in d.rooms {
      var members := d.rooms[room] - {pid};
      if members == map[] {
        forall p | p in d.rooms[room] ensures p == pid { assert p != pid ==> p in members; }
      }
    }
  }

  lemma DropFromRoom(room: Room, n: nat, pid: string)
    requires RoomSound(room, n) && room - {pid} != map[]
    ensures RoomSound(room - {pid}, n)
  {
    DropSize(room, pid);
  }

  lemma LeaveCapped(d: Directory, room: string, pid: string)
    requires Capped(d)
    ensures Capped(Leave(d, room, pid).0)
  {
    if room in d.rooms {
      var members := d.rooms[room] - {pid};
      if members != map[] {
        DropFromRoom(d.rooms[room], d.nextSeq, pid);
        PutRoom(d.rooms, d.nextSeq, room, members);
        PutSize(d.rooms, room, members);
      } else {
        DropSize(d.rooms, room);
      }
    }
  }

  lemma LeaveKeepsSound(d: Directory, room: string, pid: string)
    requires Sound(d)
    ensures Sound(Leave(d, room, pid).0)
  {
    LeaveCapped(d, room, pid);
    LeavePresence(d, room, pid);
    FewerPresent(d, Leave(d, room, pid).0);
  }

  lemma PresentBounded(d: Directory, room: string, pid: string)
    requires Capped(d) && Present(d, room, pid)
    ensures MemberSound(pid, d.rooms[room][pid], d.nextSeq)
  {
    assert RoomSound(d.rooms[room], d.nextSeq);
  }

  lemma PublishTrackBounded(m: Member, id: string, meta: TrackMeta)
    requires MemberBounded(m) && Sized(id, MAX_ID_LEN)
    ensures MemberBounded(m.(tracks := PublishTrack(m.tracks, id, Trimmed(meta)).0))
  {
    PutSize(m.tracks, id, Trimmed(meta));
  }

  lemma PublishKeepsSound(d: Directory, room: string, pid: string, id: string, meta: TrackMeta)
    requires Sound(d)
    ensures Sound(Publish(d, room, pid, id, meta).0)
  {
    if Sized(id, MAX_ID_LEN) && Present(d, room, pid) {
      var m := d.rooms[room][pid];
      PresentBounded(d, room, pid);
      PublishTrackBounded(m, id, meta);
      SetKeepsSound(d, room, pid, m.(tracks := PublishTrack(m.tracks, id, Trimmed(meta)).0));
    }
  }

  lemma UnpublishKeepsSound(d: Directory, room: string, pid: string, id: string)
    requires Sound(d)
    ensures Sound(Unpublish(d, room, pid, id).0)
  {
    if Present(d, room, pid) {
      var m := d.rooms[room][pid];
      PresentBounded(d, room, pid);
      DropSize(m.tracks, id);
      SetKeepsSound(d, room, pid, m.(tracks := m.tracks - {id}));
    }
  }

  lemma {:induction false} UpsertedTracks(subs: Subscriptions, upsert: seq<Subscription>)
    requires forall t :: t in subs ==> subs[t].track == t
    ensures forall t :: t in Upserted(subs, upsert) ==> Upserted(subs, upsert)[t].track == t
  {
    if upsert != [] {
      UpsertedTracks(subs, upsert[..|upsert| - 1]);
    }
  }

  lemma UpdateMemberBounded(m: Member, upsert: seq<Subscription>, remove: seq<TrackRef>, revision: nat)
    requires MemberBounded(m)
    ensures MemberBounded(UpdateMember(m, upsert, remove, revision).0)
  {
    UpsertedTracks(m.subscriptions - (set t | t in remove), upsert);
  }

  lemma UpdateKeepsSound(d: Directory, room: string, pid: string,
                         upsert: seq<Subscription>, remove: seq<TrackRef>, revision: nat)
    requires Sound(d)
    ensures Sound(UpdateSubscriptions(d, room, pid, upsert, remove, revision).0)
  {
    if Present(d, room, pid) {
      var m := d.rooms[room][pid];
      PresentBounded(d, room, pid);
      UpdateMemberBounded(m, upsert, remove, revision);
      SetKeepsSound(d, room, pid, UpdateMember(m, upsert, remove, revision).0);
    }
  }

  // ── What operations undo and leave alone ──────────────────────────────

  lemma LeaveRestores(rooms: map<string, Room>, room: string, pid: string, m: Member)
    requires room in rooms ==> rooms[room] != map[] && pid !in rooms[room]
    ensures var members := if room in rooms then rooms[room] else map[];
            var rooms' := rooms[room := members[pid := m]];
            var left := rooms'[room] - {pid};
            rooms == if left == map[] then rooms' - {room} else rooms'[room := left]
  {
    var members := if room in rooms then rooms[room] else map[];
    PutAndTakeBack(members, pid, m);
    if room in rooms {
      assert rooms[room := members[pid := m]][room := members] == rooms;
    } else {
      PutAndTakeBack(rooms, room, members[pid := m]);
    }
  }

  /** An admitted participant was in no room, and its leaving restores the rooms. */
  lemma LeaveUndoesJoin(d: Directory, room: string, name: string)
    requires Sound(d) && Join(d, room, name).1.Ok?
    ensures forall other :: !Present(d, other, Join(d, room, name).1.value)
    ensures Leave(Join(d, room, name).0, room, Join(d, room, name).1.value) ==
            (Directory(d.rooms, d.nextSeq + 1), true)
  {
    var pid := ParticipantId(d.nextSeq);
    forall other ensures !Present(d, other, pid) { NextIdIsNew(d, other); }
    assert !Present(d, room, pid);
    assert room in d.rooms ==> d.rooms[room] != map[] by {
      if room in d.rooms { assert RoomSound(d.rooms[room], d.nextSeq); }
    }
    LeaveRestores(d.rooms, room, pid, Member(name, map[], map[], None));
  }

  /** A registry that holds every cap admits exactly when names fit and neither cap is reached. */
  lemma JoinAdmitsIff(d: Directory, room: string, name: string)
    requires Sound(d)
    ensures Join(d, room, name).1.Ok? <==>
              && Sized(room, MAX_ID_LEN) && Sized(name, MAX_NAME_LEN)
              && (room in d.rooms ==> |d.rooms[room]| < MAX_PARTICIPANTS_PER_ROOM)
              && (room !in d.rooms ==> |d.rooms| < MAX_ROOMS)
    ensures Join(d, room, name).1.Err? ==> Join(d, room, name).0 == d
  {
  }
}
