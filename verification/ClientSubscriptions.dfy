/**
 * The client's side of subscriptions: it asks for every remote track it sees,
 * sending the server only what changed since it last asked.
 */
module ClientSubscriptions {
  import opened KeyOrder
  import opened Messages
  import opened Rooms
  import opened RoomViews
  import opened SubscriptionKeys
  import opened TrackLists
  import opened Wrappers

  datatype Client = Client(
    joined: bool,
    selfId: string,
    view: View,
    requested: set<string>,
    subRevision: nat,
    rejoinPending: bool)

  const NEW_CLIENT := Client(false, "", map[], {}, 0, false)

  function Priority(kind: TrackKind): nat {
    match kind
    case Audio => 200
    case Video => 100
    case UnspecifiedKind => 50
  }

  datatype Wanted = Wanted(ref: TrackRef, kind: TrackKind)

  /** One participant's tracks by key, a later one with the same key winning. */
  function WantFrom(desired: map<string, Wanted>, pid: string, ts: seq<Track>): map<string, Wanted> {
    if ts == [] then desired
    else
      var last := ts[|ts| - 1];
      var ref := TrackRef(pid, last.id);
      WantFrom(desired, pid, ts[..|ts| - 1])[Key(ref) := Wanted(ref, last.kind)]
  }

  function WantAll(v: View, ids: seq<string>, self: string): map<string, Wanted>
    requires forall i :: 0 <= i < |ids| ==> ids[i] in v
  {
    if ids == [] then map[]
    else
      var before, p := WantAll(v, ids[..|ids| - 1], self), v[ids[|ids| - 1]];
      if p.id == self then before else WantFrom(before, p.id, p.tracks)
  }

  /** Every track of every remote participant. */
  function Desired(v: View, self: string): map<string, Wanted> {
    WantAll(v, Listed(v.Keys), self)
  }

  function Upserts(desired: map<string, Wanted>, keys: seq<string>): seq<WireSubscription>
    requires forall k :: k in keys ==> k in desired
  {
    seq(|keys|, i requires 0 <= i < |keys| =>
      WireSubscription(Some(desired[keys[i]].ref), Some(Layer(0, 0)), Priority(desired[keys[i]].kind)))
  }

  function Unkeyed(keys: seq<string>): seq<TrackRef> {
    seq(|keys|, i requires 0 <= i < |keys| => Unkey(keys[i]))
  }

  /** The record after asking: what is asked for is added first, then what is dropped is taken out. */
  function Recorded(requested: set<string>, upsert: seq<WireSubscription>, remove: seq<TrackRef>): set<string> {
    requested + (set s | s in upsert && s.track.Some? :: Key(s.track.value)) - (set r | r in remove :: Key(r))
  }

  /** What is newly desired, and what no longer is. */
  function Diff(desired: map<string, Wanted>, requested: set<string>): (seq<WireSubscription>, seq<TrackRef>) {
    (Upserts(desired, Listed(desired.Keys - requested)), Unkeyed(Listed(requested - desired.Keys)))
  }

  /** Send the difference and record it; say nothing if there is none. */
  function Ask(cl: Client, upsert: seq<WireSubscription>, remove: seq<TrackRef>): (Client, seq<ClientMessage>) {
    if upsert == [] && remove == [] then (cl, [])
    else
      (cl.(requested := Recorded(cl.requested, upsert, remove), subRevision := cl.subRevision + 1),
       [UpdateSubscriptions(upsert, remove, cl.subRevision + 1)])
  }

  function Subscribe(cl: Client, open: bool): (Client, seq<ClientMessage>) {
    if !open || !cl.joined then (cl, [])
    else
      var (upsert, remove) := Diff(Desired(cl.view, cl.selfId), cl.requested);
      Ask(cl, upsert, remove)
  }

  /**
   * The client as it answers a join response: the picture is replaced, and only
   * a rejoin that was marked as one forgets what was asked for.
   */
  function Answering(cl: Client, pid: string, es: seq<Entry>, name: string, local: seq<Track>): Client {
    (if cl.rejoinPending then cl.(rejoinPending := false, requested := {}, subRevision := 0) else cl)
      .(joined := true, selfId := pid, view := Roster(pid, es, name, local))
  }

  function OnJoinResponse(cl: Client, pid: string, es: seq<Entry>, name: string, local: seq<Track>, open: bool)
    : (Client, seq<ClientMessage>)
  {
    var (cl', asked) := Subscribe(Answering(cl, pid, es, name, local), open);
    (cl', (if open && local != [] then [UpdateLocalTracks(local, [])] else []) + asked)
  }

  function OnRoomDelta(cl: Client, d: RoomDelta, open: bool): (Client, seq<ClientMessage>) {
    Subscribe(cl.(view := ApplyDelta(cl.view, d)), open)
  }

  /** One message from the server; a disconnect ends the client's session. */
  function Receive(cl: Client, m: ServerMessage, name: string, local: seq<Track>, open: bool): (Client, seq<ClientMessage>) {
    match m
    case JoinResponse(pid, es) => OnJoinResponse(cl, pid, es, name, local, open)
    case Delta(d) => OnRoomDelta(cl, d, open)
    case Disconnect(_) => (NEW_CLIENT.(view := cl.view), [])
    case _ => (cl, [])
  }

  // ── What is desired, as a set of tracks ───────────────────────────────

  /** Entries are filed under their own ids, which have no slash. */
  ghost predicate Filed(v: View) {
    forall p :: p in v ==> v[p].id == p && SlashFree(p)
  }

  /** The track is listed for someone other than the client. */
  ghost predicate Shown(v: View, self: string, r: TrackRef) {
    r.participantId in v && r.participantId != self
    && exists i :: Named(v[r.participantId].tracks, i, r.trackId)
  }

  ghost predicate ShownIn(pid: string, ts: seq<Track>, r: TrackRef) {
    r.participantId == pid && exists i :: Named(ts, i, r.trackId)
  }

  /** The map holds, under its own key, each track of a set given by its membership. */
  ghost predicate Holds(desired: map<string, Wanted>, r: TrackRef) {
    Key(r) in desired && desired[Key(r)].ref == r
  }

  ghost predicate OwnKeys(desired: map<string, Wanted>) {
    forall k :: k in desired ==> k == Key(desired[k].ref) && SlashFree(desired[k].ref.participantId)
  }

  lemma {:induction false} WantFromHolds(desired: map<string, Wanted>, pid: string, ts: seq<Track>, r: TrackRef)
    requires OwnKeys(desired) && SlashFree(pid) && SlashFree(r.participantId)
    ensures OwnKeys(WantFrom(desired, pid, ts))
    ensures Holds(WantFrom(desired, pid, ts), r) <==> Holds(desired, r) || ShownIn(pid, ts, r)
  {
    if ts != [] {
      var n := |ts| - 1;
      var front, ref := ts[..n], TrackRef(pid, ts[n].id);
      WantFromHolds(desired, pid, front, r);
      if Key(r) == Key(ref) { KeyInjective(r, ref); }
      assert forall i :: Named(front, i, r.trackId) ==> Named(ts, i, r.trackId);
      assert forall i :: Named(ts, i, r.trackId) && i != n ==> Named(front, i, r.trackId);
      if r == ref { assert Named(ts, n, r.trackId); }
    }
  }

  lemma {:induction false} WantAllHolds(v: View, ids: seq<string>, self: string, r: TrackRef)
    requires forall i :: 0 <= i < |ids| ==> ids[i] in v
    requires Filed(v) && SlashFree(r.participantId)
    ensures OwnKeys(WantAll(v, ids, self))
    ensures Holds(WantAll(v, ids, self), r) <==> r.participantId in ids && Shown(v, self, r)
  {
    if ids != [] {
      var front, pid := ids[..|ids| - 1], ids[|ids| - 1];
      WantAllHolds(v, front, self, r);
      assert ids == front + [pid];
      if pid != self {
        WantFromHolds(WantAll(v, front, self), pid, v[pid].tracks, r);
      }
    }
  }

  /** The desired map holds exactly the tracks shown for others. */
  lemma DesiredHolds(v: View, self: string, r: TrackRef)
    requires Filed(v) && SlashFree(r.participantId)
    ensures OwnKeys(Desired(v, self))
    ensures Holds(Desired(v, self), r) <==> Shown(v, self, r)
  {
    WantAllHolds(v, Listed(v.Keys), self, r);
  }

  function Refs(desired: map<string, Wanted>): set<TrackRef> {
    set k | k in desired :: desired[k].ref
  }

  function Keys(refs: set<TrackRef>): set<string> {
    set r | r in refs :: Key(r)
  }

  /** Every track listed for someone other than the client. */
  ghost function RemoteTracks(v: View, self: string): set<TrackRef> {
    Refs(Desired(v, self))
  }

  lemma RemoteTracksAreShown(v: View, self: string, r: TrackRef)
    requires Filed(v)
    ensures r in RemoteTracks(v, self) <==> Shown(v, self, r)
  {
    var desired := Desired(v, self);
    if r in RemoteTracks(v, self) {
      var k :| k in desired && desired[k].ref == r;
      DesiredHolds(v, self, TrackRef("", ""));
      DesiredHolds(v, self, r);
    }
    if Shown(v, self, r) {
      DesiredHolds(v, self, r);
      assert Key(r) in desired;
    }
  }
}
