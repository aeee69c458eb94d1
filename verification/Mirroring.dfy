/**
 * Subscription mirroring: the set a client believes it asked for, the set the
 * server keeps for it, and the tracks it sees.
 */
module Mirroring {
  import opened ClientSubscriptions
  import opened KeyOrder
  import opened Maps
  import opened Messages
  import opened Rooms
  import opened RoomViews
  import opened Sessions
  import opened SubscriptionKeys
  import opened TrackLists
  import opened Wrappers

  /** What a member's subscriptions become when the server handles a message from it. */
  function Served(m: Member, msg: ClientMessage): Member {
    if msg.UpdateSubscriptions? then
      UpdateMember(m, CoreSubscriptions(msg.upsert), msg.remove, msg.revision).0
    else m
  }

  function ServedAll(m: Member, msgs: seq<ClientMessage>): Member {
    if msgs == [] then m else Served(ServedAll(m, msgs[..|msgs| - 1]), msgs[|msgs| - 1])
  }

  ghost predicate Slashless(refs: set<TrackRef>) {
    forall r :: r in refs ==> SlashFree(r.participantId)
  }

  lemma KeysHold(refs: set<TrackRef>, r: TrackRef)
    requires Slashless(refs) && SlashFree(r.participantId)
    ensures Key(r) in Keys(refs) <==> r in refs
  {
    if Key(r) in Keys(refs) {
      var q :| q in refs && Key(q) == Key(r);
      KeyInjective(q, r);
    }
  }

  lemma {:induction false} CoreHas(wire: seq<WireSubscription>, r: TrackRef)
    ensures (exists s :: s in CoreSubscriptions(wire) && s.track == r) <==> (exists i :: 0 <= i < |wire| && wire[i].track == Some(r))
  {
    if wire != [] {
      var n := |wire| - 1;
      CoreHas(wire[..n], r);
      assert forall i :: 0 <= i < n ==> wire[..n][i] == wire[i];
      var core := CoreSubscriptions(wire[..n]);
      if wire[n].track.Some? {
        var last := CoreSubscriptions(wire)[|core|];
        assert CoreSubscriptions(wire) == core + [last] && last.track == wire[n].track.value;
      }
    }
  }

  function Tracked(core: seq<Subscription>): set<TrackRef> {
    set s | s in core :: s.track
  }

  /** The tracks upserted are those of the keys asked for. */
  lemma UpsertedRefs(desired: map<string, Wanted>, keys: seq<string>, r: TrackRef)
    requires OwnKeys(desired) && forall k :: k in keys ==> k in desired
    ensures r in Tracked(CoreSubscriptions(Upserts(desired, keys))) <==> Key(r) in keys && Holds(desired, r)
  {
    var wire := Upserts(desired, keys);
    CoreHas(wire, r);
    if Key(r) in keys && Holds(desired, r) {
      var i :| 0 <= i < |keys| && keys[i] == Key(r);
      assert wire[i].track == Some(r);
    }
    if exists i :: 0 <= i < |wire| && wire[i].track == Some(r) {
      var i :| 0 <= i < |wire| && wire[i].track == Some(r);
      assert keys[i] in keys && desired[keys[i]].ref == r;
    }
  }

  /** The tracks a client asks to drop: each gone key, split. */
  function Dropped(gone: set<string>): set<TrackRef> {
    set k | k in gone :: Unkey(k)
  }

  lemma UnkeyedRefs(keys: seq<string>, gone: set<string>, r: TrackRef)
    requires forall k :: k in keys <==> k in gone
    ensures r in Unkeyed(keys) <==> r in Dropped(gone)
  {
    if r in Dropped(gone) {
      var k :| k in gone && Unkey(k) == r;
      var i :| 0 <= i < |keys| && keys[i] == k;
      assert Unkeyed(keys)[i] == r;
    }
  }

  /** A dropped key names the track it was for exactly when that track's id has no slash. */
  lemma DroppedIff(s: set<TrackRef>, d: set<TrackRef>)
    requires Slashless(s) && Slashless(d)
    ensures (forall r :: r in s - d ==> SlashFree(r.trackId)) ==> Dropped(Keys(s) - Keys(d)) == s - d
    ensures forall r :: r in s - d && !SlashFree(r.trackId) ==> r !in Dropped(Keys(s) - Keys(d))
  {
    var gone := Keys(s) - Keys(d);
    forall k | k in gone ensures exists r :: r in s - d && Key(r) == k && SlashFree(Unkey(k).trackId) {
      var r :| r in s && Key(r) == k;
      KeysHold(d, r);
      UnkeyIff(r);
      assert r in s - d;
    }
    forall r | r in s - d ensures Key(r) in gone && (Unkey(Key(r)) == r <==> SlashFree(r.trackId)) {
      KeysHold(d, r);
      UnkeyIff(r);
    }
  }

  /** The client's record of what it asked for is the server's record, and the server will take its next revision. */
  ghost predicate InStep(cl: Client, m: Member) {
    && Slashless(m.subscriptions.Keys) && cl.requested == Keys(m.subscriptions.Keys)
    && (m.applied.Some? ==> m.applied.value <= cl.subRevision)
  }

  lemma DesiredKeys(desired: map<string, Wanted>)
    requires OwnKeys(desired)
    ensures desired.Keys == Keys(Refs(desired)) && Slashless(Refs(desired))
    ensures forall r: TrackRef :: SlashFree(r.participantId) ==> (r in Refs(desired) <==> Holds(desired, r))
  {
    forall k ensures k in desired <==> k in Keys(Refs(desired)) {
      if k in desired { assert desired[k].ref in Refs(desired); }
      if k in Keys(Refs(desired)) {
        var r :| r in Refs(desired) && Key(r) == k;
      }
    }
    forall r: TrackRef | SlashFree(r.participantId) ensures r in Refs(desired) <==> Holds(desired, r) {
      if r in Refs(desired) {
        var k :| k in desired && desired[k].ref == r;
      }
    }
  }

  lemma AskedFor(desired: map<string, Wanted>, s: set<TrackRef>, added: seq<string>)
    requires OwnKeys(desired) && Slashless(s)
    requires forall k :: k in added <==> k in desired.Keys - Keys(s)
    ensures Tracked(CoreSubscriptions(Upserts(desired, added))) == Refs(desired) - s
  {
    DesiredKeys(desired);
    var core := CoreSubscriptions(Upserts(desired, added));
    forall r ensures r in Tracked(core) <==> r in Refs(desired) - s {
      UpsertedRefs(desired, added, r);
      if r in Refs(desired) || r in s { KeysHold(s, r); }
    }
  }

  lemma AskedToDrop(gone: set<string>)
    ensures (set t | t in Unkeyed(Listed(gone))) == Dropped(gone)
  {
    forall r ensures r in (set t | t in Unkeyed(Listed(gone))) <==> r in Dropped(gone) {
      UnkeyedRefs(Listed(gone), gone, r);
    }
  }

  predicate Splittable(s: set<TrackRef>, d: set<TrackRef>) {
    forall r :: r in s - d ==> SlashFree(r.trackId)
  }

  /** What the server can take in: no dropped track's id has a slash, and the cap holds. */
  ghost predicate Manageable(s: set<TrackRef>, d: set<TrackRef>) {
    s == d || (Splittable(s, d) && |d| <= MAX_SUBSCRIPTIONS_PER_PARTICIPANT)
  }

  lemma AfterIs(s: set<TrackRef>, d: set<TrackRef>)
    requires Slashless(s) && Slashless(d)
    ensures s - Dropped(Keys(s) - Keys(d)) + (d - s) == d <==> Splittable(s, d)
  {
    DroppedIff(s, d);
    if Splittable(s, d) {
      assert s - (s - d) + (d - s) == d;
    } else {
      var r :| r in s - d && !SlashFree(r.trackId);
      assert r in s - Dropped(Keys(s) - Keys(d)) + (d - s);
    }
  }

  lemma UpdatedKeys(m: Member, core: seq<Subscription>, remove: seq<TrackRef>, revision: nat, after: set<TrackRef>)
    requires after == m.subscriptions.Keys - (set t | t in remove) + Tracked(core)
    requires m.applied.Some? ==> m.applied.value < revision
    ensures var m' := UpdateMember(m, core, remove, revision).0;
            if |after| <= MAX_SUBSCRIPTIONS_PER_PARTICIPANT
            then m'.subscriptions.Keys == after && m'.applied == Some(revision)
            else m' == m
  {
    var b := Batched(m.subscriptions, core, remove);
    assert b.Keys == after;
    assert |b| == |b.Keys|;
  }

  /** A batch that asks for d where s was asked for gives d exactly when it is manageable. */
  lemma BatchServes(m: Member, core: seq<Subscription>, remove: seq<TrackRef>, revision: nat, s: set<TrackRef>, d: set<TrackRef>)
    requires s == m.subscriptions.Keys && Slashless(s) && Slashless(d) && s != d
    requires Tracked(core) == d - s && (set t | t in remove) == Dropped(Keys(s) - Keys(d))
    requires m.applied.Some? ==> m.applied.value < revision
    ensures UpdateMember(m, core, remove, revision).0.subscriptions.Keys == d <==> Manageable(s, d)
    ensures Manageable(s, d) ==> UpdateMember(m, core, remove, revision).0.applied == Some(revision)
  {
    AfterIs(s, d);
    UpdatedKeys(m, core, remove, revision, s - Dropped(Keys(s) - Keys(d)) + (d - s));
  }

  /** Asking changes the client's own record to what it wants, when no dropped id has a slash. */
  lemma RecordIs(s: set<TrackRef>, d: set<TrackRef>)
    requires Slashless(s) && Slashless(d) && Splittable(s, d)
    ensures Keys(s) + Keys(d - s) - Keys(Dropped(Keys(s) - Keys(d))) == Keys(d)
  {
    DroppedIff(s, d);
    var k := Keys(s) + Keys(d - s) - Keys(s - d);
    forall x ensures x in k <==> x in Keys(d) {
      if x in k {
        var r :| r in s + (d - s) && Key(r) == x;
        KeysHold(s - d, r);
        assert r in d;
      }
      if x in Keys(d) {
        var r :| r in d && Key(r) == x;
        KeysHold(s - d, r);
        assert r in s || r in d - s;
      }
    }
  }

  /** Splitting a key never leaves a slash behind. */
  lemma DroppedSlashless(gone: set<string>)
    ensures forall r :: r in Dropped(gone) ==> SlashFree(r.participantId) && SlashFree(r.trackId)
  {
    forall r | r in Dropped(gone) ensures SlashFree(r.participantId) && SlashFree(r.trackId) {
      var k :| k in gone && Unkey(k) == r;
      HeadIsSlashFree(k);
      HeadIsSlashFree(Head(k));
      HeadIsSlashFree(Rest(k));
      HeadIsSlashFree(Head(Rest(k)));
    }
  }

  /** A key whose track id has a slash stays on the record for good. */
  lemma RecordIff(s: set<TrackRef>, d: set<TrackRef>)
    requires Slashless(s) && Slashless(d)
    ensures Keys(s) + Keys(d - s) - Keys(Dropped(Keys(s) - Keys(d))) == Keys(d) <==> Splittable(s, d)
  {
    var dropped := Dropped(Keys(s) - Keys(d));
    if Splittable(s, d) {
      RecordIs(s, d);
    } else {
      var r :| r in s - d && !SlashFree(r.trackId);
      DroppedSlashless(Keys(s) - Keys(d));
      KeysHold(dropped, r);
      KeysHold(d, r);
      assert Key(r) in Keys(s) + Keys(d - s) - Keys(dropped);
    }
  }

  lemma SameKeys(s: set<TrackRef>, d: set<TrackRef>)
    requires Slashless(s) && Slashless(d) && Keys(s) == Keys(d)
    ensures s == d
  {
    forall r: TrackRef | r in s || r in d ensures r in s && r in d {
      KeysHold(s, r);
      KeysHold(d, r);
    }
  }

  lemma AskedRecord(wire: seq<WireSubscription>, refs: set<TrackRef>)
    requires Tracked(CoreSubscriptions(wire)) == refs
    ensures (set s | s in wire && s.track.Some? :: Key(s.track.value)) == Keys(refs)
  {
    var keys := set s | s in wire && s.track.Some? :: Key(s.track.value);
    forall k ensures k in keys <==> k in Keys(refs) {
      if k in keys {
        var s :| s in wire && s.track.Some? && Key(s.track.value) == k;
        CoreHas(wire, s.track.value);
        assert s.track.value in refs;
      }
      if k in Keys(refs) {
        var r :| r in refs && Key(r) == k;
        CoreHas(wire, r);
        var i :| 0 <= i < |wire| && wire[i].track == Some(r);
        assert wire[i] in wire;
      }
    }
  }

  lemma DroppedRecord(remove: seq<TrackRef>, refs: set<TrackRef>)
    requires (set t | t in remove) == refs
    ensures (set r | r in remove :: Key(r)) == Keys(refs)
  {
    forall k ensures k in (set r | r in remove :: Key(r)) <==> k in Keys(refs) {
      if k in Keys(refs) {
        var r :| r in refs && Key(r) == k;
        assert r in remove;
      }
      if k in (set r | r in remove :: Key(r)) {
        var r :| r in remove && Key(r) == k;
        assert r in refs;
      }
    }
  }

  /** A batch asking for d where s was asked for, and the record it leaves. */
  ghost predicate Asks(cl: Client, cl': Client, msg: ClientMessage, s: set<TrackRef>, d: set<TrackRef>) {
    && msg.UpdateSubscriptions? && msg.revision == cl.subRevision + 1
    && Tracked(CoreSubscriptions(msg.upsert)) == d - s
    && (set t | t in msg.remove) == Dropped(Keys(s) - Keys(d))
    && cl' == cl.(requested := Keys(s) + Keys(d - s) - Keys(Dropped(Keys(s) - Keys(d))), subRevision := cl.subRevision + 1)
  }

  lemma NothingAsked(desired: map<string, Wanted>, s: set<TrackRef>)
    requires OwnKeys(desired) && Slashless(s)
    ensures s == Refs(desired) <==>
            Upserts(desired, Listed(desired.Keys - Keys(s))) == [] && Unkeyed(Listed(Keys(s) - desired.Keys)) == []
  {
    DesiredKeys(desired);
    if desired.Keys - Keys(s) == {} && Keys(s) - desired.Keys == {} {
      assert desired.Keys == Keys(s);
      SameKeys(s, Refs(desired));
    }
  }

  lemma SubscribeAsks(cl: Client, s: set<TrackRef>)
    requires cl.joined && Filed(cl.view) && Slashless(s) && cl.requested == Keys(s)
    ensures var (cl', msgs) := Subscribe(cl, true);
            var d := RemoteTracks(cl.view, cl.selfId);
            && Slashless(d)
            && (s == d ==> (cl', msgs) == (cl, []))
            && (s != d ==> |msgs| == 1 && Asks(cl, cl', msgs[0], s, d))
  {
    var desired := Desired(cl.view, cl.selfId);
    DesiredHolds(cl.view, cl.selfId, TrackRef("", ""));
    DesiredKeys(desired);
    var d := Refs(desired);
    NothingAsked(desired, s);
    var added, gone := Listed(desired.Keys - Keys(s)), Keys(s) - desired.Keys;
    AskedFor(desired, s, added);
    AskedToDrop(gone);
    AskedRecord(Upserts(desired, added), d - s);
    DroppedRecord(Unkeyed(Listed(gone)), Dropped(gone));
  }

  lemma AskServed(cl: Client, cl': Client, msg: ClientMessage, m: Member, s: set<TrackRef>, d: set<TrackRef>)
    requires InStep(cl, m) && s == m.subscriptions.Keys && Slashless(d) && s != d && Asks(cl, cl', msg, s, d)
    ensures Served(m, msg).subscriptions.Keys == d <==> Manageable(s, d)
    ensures Manageable(s, d) ==> InStep(cl', Served(m, msg))
  {
    BatchServes(m, CoreSubscriptions(msg.upsert), msg.remove, msg.revision, s, d);
    if Manageable(s, d) { RecordIs(s, d); }
  }

  /**
   * One round of asking. If client and server were in step, then after the
   * server has handled what the client sends, the server's set is the tracks
   * the client sees exactly when the change was manageable; and then client and
   * server are in step again.
   */
  lemma OneRound(cl: Client, m: Member)
    requires cl.joined && Filed(cl.view) && InStep(cl, m)
    ensures var (cl', msgs) := Subscribe(cl, true);
            var (s, d) := (m.subscriptions.Keys, RemoteTracks(cl.view, cl.selfId));
            && (ServedAll(m, msgs).subscriptions.Keys == d <==> Manageable(s, d))
            && (Manageable(s, d) ==> InStep(cl', ServedAll(m, msgs)))
  {
    var (cl', msgs) := Subscribe(cl, true);
    var (s, d) := (m.subscriptions.Keys, RemoteTracks(cl.view, cl.selfId));
    SubscribeAsks(cl, s);
    if s != d {
      AskServed(cl, cl', msgs[0], m, s, d);
      assert msgs[..0] == [];
      assert ServedAll(m, msgs) == Served(m, msgs[0]);
    }
  }

  /** A key with a slash in its track id, split, names another track. */
  const SLASHED := TrackRef("p0", "a/b")

  lemma SlashedKey()
    ensures Key(SLASHED) == "p0/a/b" && Keys({SLASHED}) == {"p0/a/b"}
    ensures SlashFree("p0") && SlashFree("p1") && !SlashFree(SLASHED.trackId)
  {
    assert "a/b"[1] == '/' && "p0"[0] == 'p' && "p0"[1] == '0' && "p1"[0] == 'p' && "p1"[1] == '1';
    assert "p0" + "/" + "a/b" == "p0/a/b";
  }

  lemma AloneSeesNothing(self: string)
    requires SlashFree(self)
    ensures var v := map[self := Entry(self, "Bob", [])]; Filed(v) && RemoteTracks(v, self) == {}
  {
    var v := map[self := Entry(self, "Bob", [])];
    forall r ensures r !in RemoteTracks(v, self) { RemoteTracksAreShown(v, self, r); }
  }

  lemma DroppingSlashedFails(cl: Client, cl': Client, msg: ClientMessage, m: Member)
    requires Asks(cl, cl', msg, {SLASHED}, {}) && m.subscriptions.Keys == {SLASHED}
    requires m.applied.Some? ==> m.applied.value < msg.revision
    ensures SLASHED in Served(m, msg).subscriptions
  {
    SlashedKey();
    DroppedIff({SLASHED}, {});
    var after := {SLASHED} - Dropped(Keys({SLASHED}) - Keys({})) + ({} - {SLASHED});
    assert after == {SLASHED};
    UpdatedKeys(m, CoreSubscriptions(msg.upsert), msg.remove, msg.revision, after);
  }

  /**
   * One concrete round: Bob asked for Alice's track "a/b", Alice has left, and
   * the server goes on holding it for him however his request to drop it is handled.
   */
  lemma SlashedStaysSubscribed(m: Member)
    requires m.subscriptions.Keys == {SLASHED} && m.applied == Some(1)
    ensures var cl := Client(true, "p1", map["p1" := Entry("p1", "Bob", [])], {"p0/a/b"}, 1, false);
            RemoteTracks(cl.view, cl.selfId) == {} && SLASHED in ServedAll(m, Subscribe(cl, true).1).subscriptions
  {
    var cl := Client(true, "p1", map["p1" := Entry("p1", "Bob", [])], {"p0/a/b"}, 1, false);
    var (cl', msgs) := Subscribe(cl, true);
    SlashedKey();
    AloneSeesNothing("p1");
    SubscribeAsks(cl, {SLASHED});
    DroppingSlashedFails(cl, cl', msgs[0], m);
    assert msgs[..0] == [];
    assert ServedAll(m, msgs) == Served(m, msgs[0]);
  }

  // ── A whole session of one client ─────────────────────────────────────

  /** Participant ids in a message have no slash. */
  ghost predicate Proper(m: ServerMessage) {
    match m
    case JoinResponse(pid, es) => SlashFree(pid) && ProperEntries(es)
    case Delta(d) => ProperEntries(d.joined)
    case _ => true
  }

  ghost predicate ProperEntries(es: seq<Entry>) {
    forall i :: 0 <= i < |es| ==> SlashFree(es[i].id)
  }

  lemma {:induction false} EnterFiled(v: View, es: seq<Entry>)
    requires Filed(v) && ProperEntries(es)
    ensures Filed(Enter(v, es))
  {
    if es != [] { EnterFiled(v, es[..|es| - 1]); }
  }

  lemma {:induction false} ExitFiled(v: View, ids: seq<string>)
    requires Filed(v)
    ensures Filed(Exit(v, ids))
  {
    if ids != [] { ExitFiled(v, ids[..|ids| - 1]); }
  }

  lemma {:induction false} AnnounceFiled(v: View, pubs: seq<TrackPublished>)
    requires Filed(v)
    ensures Filed(Announce(v, pubs))
  {
    if pubs != [] { AnnounceFiled(v, pubs[..|pubs| - 1]); }
  }

  lemma {:induction false} WithdrawFiled(v: View, refs: seq<TrackRef>)
    requires Filed(v)
    ensures Filed(Withdraw(v, refs))
  {
    if refs != [] { WithdrawFiled(v, refs[..|refs| - 1]); }
  }

  lemma {:induction false} MuteFiled(v: View, mutes: seq<TrackMuted>)
    requires Filed(v)
    ensures Filed(MuteAll(v, mutes))
  {
    if mutes != [] { MuteFiled(v, mutes[..|mutes| - 1]); }
  }

  lemma SeeFiled(v: View, m: ServerMessage, name: string, local: seq<Track>)
    requires Filed(v) && Proper(m)
    ensures Filed(See(v, m, name, local))
  {
    if m.JoinResponse? {
      EnterFiled(map[], m.participants);
    } else if m.Delta? {
      var d := m.delta;
      EnterFiled(v, d.joined);
      ExitFiled(Enter(v, d.joined), d.left);
      var v1 := Exit(Enter(v, d.joined), d.left);
      AnnounceFiled(v1, d.published);
      WithdrawFiled(Announce(v1, d.published), d.unpublished);
      MuteFiled(Withdraw(Announce(v1, d.published), d.unpublished), d.muteChanges);
    }
  }

  /** A client after these messages on an open socket, and all it has sent meanwhile. */
  function ClientFrom(cl0: Client, msgs: seq<ServerMessage>, name: string, local: seq<Track>): (Client, seq<ClientMessage>)
    decreases |msgs|
  {
    if msgs == [] then (cl0, [])
    else
      var (cl1, sent1) := Receive(cl0, msgs[0], name, local, true);
      var (cl, sent) := ClientFrom(cl1, msgs[1..], name, local);
      (cl, sent1 + sent)
  }

  /** Few enough remote tracks for the server's cap, none with a slash in its id. */
  ghost predicate Modest(cl: Client) {
    && |RemoteTracks(cl.view, cl.selfId)| <= MAX_SUBSCRIPTIONS_PER_PARTICIPANT
    && (forall r :: r in RemoteTracks(cl.view, cl.selfId) ==> SlashFree(r.trackId))
  }

  /** Client and server in step, and while joined on exactly the tracks the client sees. */
  ghost predicate Mirrored(cl: Client, m: Member) {
    && Filed(cl.view) && InStep(cl, m) && !cl.rejoinPending
    && m.subscriptions.Keys == if cl.joined then RemoteTracks(cl.view, cl.selfId) else {}
  }

  lemma {:induction false} ServedMore(m: Member, a: seq<ClientMessage>, b: seq<ClientMessage>)
    ensures ServedAll(m, a + b) == ServedAll(ServedAll(m, a), b)
  {
    if b == [] {
      assert a + b == a;
    } else {
      var front, last := b[..|b| - 1], b[|b| - 1];
      ServedMore(m, a, front);
      assert (a + b)[..|a + b| - 1] == a + front && (a + b)[|a + b| - 1] == last;
      assert ServedAll(m, a + b) == Served(ServedAll(m, a + front), last);
      assert ServedAll(ServedAll(m, a), b) == Served(ServedAll(ServedAll(m, a), front), last);
    }
  }

  lemma SubscribeKeeps(cl: Client)
    ensures var cl' := Subscribe(cl, true).0;
            cl'.view == cl.view && cl'.selfId == cl.selfId && cl'.joined == cl.joined && cl'.rejoinPending == cl.rejoinPending
  {
  }

  lemma ModestIsManageable(s: set<TrackRef>, cl: Client)
    requires Modest(cl) && forall r :: r in s ==> SlashFree(r.trackId)
    ensures Manageable(s, RemoteTracks(cl.view, cl.selfId))
  {
  }

  /** A joined client asking about a new picture. */
  lemma AskMirrors(cl: Client, m: Member)
    requires cl.joined && Filed(cl.view) && InStep(cl, m) && !cl.rejoinPending && Modest(cl)
    requires forall r :: r in m.subscriptions ==> SlashFree(r.trackId)
    ensures Mirrored(Subscribe(cl, true).0, ServedAll(m, Subscribe(cl, true).1))
  {
    OneRound(cl, m);
    SubscribeKeeps(cl);
    ModestIsManageable(m.subscriptions.Keys, cl);
  }

  ghost predicate Fitting(cl: Client) {
    cl.joined ==> Modest(cl)
  }

  lemma MirroredSlashFree(cl: Client, m: Member)
    requires Mirrored(cl, m) && Fitting(cl)
    ensures forall r :: r in m.subscriptions ==> SlashFree(r.trackId)
  {
    forall r | r in m.subscriptions ensures SlashFree(r.trackId) {
      assert r in m.subscriptions.Keys;
    }
  }

  lemma JoinMirrors(cl: Client, m: Member, pid: string, es: seq<Entry>, name: string, local: seq<Track>)
    requires Mirrored(cl, m) && Fitting(cl) && Filed(Roster(pid, es, name, local))
    requires Fitting(OnJoinResponse(cl, pid, es, name, local, true).0)
    ensures var (cl', sent) := OnJoinResponse(cl, pid, es, name, local, true);
            Mirrored(cl', ServedAll(m, sent))
  {
    var cl1 := cl.(joined := true, selfId := pid, view := Roster(pid, es, name, local));
    SubscribeKeeps(cl1);
    MirroredSlashFree(cl, m);
    AskMirrors(cl1, m);
    var announce := if local != [] then [UpdateLocalTracks(local, [])] else [];
    ServedMore(m, announce, Subscribe(cl1, true).1);
    AnnounceServes(m, local);
  }

  lemma AnnounceServes(m: Member, local: seq<Track>)
    ensures ServedAll(m, if local != [] then [UpdateLocalTracks(local, [])] else []) == m
  {
    assert [UpdateLocalTracks(local, [])][..0] == [];
  }

  lemma DeltaMirrors(cl: Client, m: Member, d: RoomDelta)
    requires Mirrored(cl, m) && Fitting(cl) && Filed(ApplyDelta(cl.view, d))
    requires Fitting(OnRoomDelta(cl, d, true).0)
    ensures Mirrored(OnRoomDelta(cl, d, true).0, ServedAll(m, OnRoomDelta(cl, d, true).1))
  {
    var cl1 := cl.(view := ApplyDelta(cl.view, d));
    SubscribeKeeps(cl1);
    if cl.joined {
      MirroredSlashFree(cl, m);
      AskMirrors(cl1, m);
    }
  }

  /** One message: what the client sends in answer keeps the server's set at what the client sees. */
  lemma ReceiveMirrors(cl: Client, m: Member, msg: ServerMessage, name: string, local: seq<Track>)
    requires Mirrored(cl, m) && Fitting(cl) && Proper(msg) && !msg.Disconnect?
    requires Fitting(Receive(cl, msg, name, local, true).0)
    ensures Mirrored(Receive(cl, msg, name, local, true).0, ServedAll(m, Receive(cl, msg, name, local, true).1))
  {
    SeeFiled(cl.view, msg, name, local);
    match msg {
      case JoinResponse(pid, es) => JoinMirrors(cl, m, pid, es, name, local);
      case Delta(d) => DeltaMirrors(cl, m, d);
      case _ =>
    }
  }

  /** After each of the messages few enough tracks are shown, without slashes in their ids. */
  ghost predicate FittingAfter(cl0: Client, msgs: seq<ServerMessage>, name: string, local: seq<Track>)
    decreases |msgs|
  {
    msgs != [] ==>
      var cl1 := Receive(cl0, msgs[0], name, local, true).0;
      Fitting(cl1) && FittingAfter(cl1, msgs[1..], name, local)
  }

  /** Messages of a hub that keeps the socket. */
  ghost predicate Ordinary(msgs: seq<ServerMessage>) {
    forall m :: m in msgs ==> Proper(m) && !m.Disconnect?
  }

  lemma OrdinaryRest(msgs: seq<ServerMessage>)
    requires msgs != [] && Ordinary(msgs)
    ensures Proper(msgs[0]) && !msgs[0].Disconnect? && Ordinary(msgs[1..])
  {
    assert msgs[0] in msgs;
    assert forall m :: m in msgs[1..] ==> m in msgs;
  }

  /**
   * Over a whole session, from any client and server entry that mirror each
   * other: once the server has handled everything the client sent, its set is
   * what the client recorded, and that is every track of every other participant
   * the client sees.
   */
  lemma {:induction false} SessionMirrorsFrom(cl0: Client, m0: Member, msgs: seq<ServerMessage>, name: string, local: seq<Track>)
    requires Mirrored(cl0, m0) && Fitting(cl0) && Ordinary(msgs) && FittingAfter(cl0, msgs, name, local)
    ensures var (cl, sent) := ClientFrom(cl0, msgs, name, local);
            Mirrored(cl, ServedAll(m0, sent))
    decreases |msgs|, 0
  {
    if msgs != [] {
      var (cl1, sent1) := Receive(cl0, msgs[0], name, local, true);
      OrdinaryRest(msgs);
      ReceiveMirrors(cl0, m0, msgs[0], name, local);
      RestMirrors(cl1, m0, sent1, msgs[1..], name, local);
    }
  }

  /** What follows a first answer that mirrors. */
  lemma {:induction false} RestMirrors(cl1: Client, m0: Member, sent1: seq<ClientMessage>, rest: seq<ServerMessage>,
                                       name: string, local: seq<Track>)
    requires Mirrored(cl1, ServedAll(m0, sent1)) && Fitting(cl1) && Ordinary(rest) && FittingAfter(cl1, rest, name, local)
    ensures var (cl, sent) := ClientFrom(cl1, rest, name, local);
            Mirrored(cl, ServedAll(m0, sent1 + sent))
    decreases |rest|, 1
  {
    SessionMirrorsFrom(cl1, ServedAll(m0, sent1), rest, name, local);
    ServedMore(m0, sent1, ClientFrom(cl1, rest, name, local).1);
  }

  /** The same for a new client on a fresh server entry. */
  lemma SessionMirrors(msgs: seq<ServerMessage>, name: string, local: seq<Track>, who: string)
    requires Ordinary(msgs) && FittingAfter(NEW_CLIENT, msgs, name, local)
    ensures var (cl, sent) := ClientFrom(NEW_CLIENT, msgs, name, local);
            Mirrored(cl, ServedAll(Newcomer(who), sent))
  {
    SessionMirrorsFrom(NEW_CLIENT, Newcomer(who), msgs, name, local);
  }

  lemma JoinSees(cl: Client, pid: string, es: seq<Entry>, name: string, local: seq<Track>)
    ensures var cl' := OnJoinResponse(cl, pid, es, name, local, true).0;
            cl'.joined && cl'.selfId == pid && cl'.view == Roster(pid, es, name, local)
  {
    var cl1 := if cl.rejoinPending then cl.(rejoinPending := false, requested := {}, subRevision := 0) else cl;
    SubscribeKeeps(cl1.(joined := true, selfId := pid, view := Roster(pid, es, name, local)));
  }

  lemma DeltaSees(cl: Client, d: RoomDelta)
    ensures var cl' := OnRoomDelta(cl, d, true).0;
            cl'.joined == cl.joined && cl'.selfId == cl.selfId && cl'.view == ApplyDelta(cl.view, d)
  {
    SubscribeKeeps(cl.(view := ApplyDelta(cl.view, d)));
  }

  lemma ReceiveSees(cl: Client, m: ServerMessage, name: string, local: seq<Track>)
    ensures var cl' := Receive(cl, m, name, local, true).0;
            && cl'.view == See(cl.view, m, name, local)
            && (m.JoinResponse? ==> cl'.joined && cl'.selfId == m.participantId)
            && (!m.JoinResponse? && !m.Disconnect? ==> cl'.joined == cl.joined && cl'.selfId == cl.selfId)
  {
    match m {
      case JoinResponse(pid, es) => JoinSees(cl, pid, es, name, local);
      case Delta(d) => DeltaSees(cl, d);
      case _ =>
    }
  }

  /** The picture after these messages, from any picture on. */
  function SeenFrom(v: View, msgs: seq<ServerMessage>, name: string, local: seq<Track>): View
    decreases |msgs|
  {
    if msgs == [] then v else SeenFrom(See(v, msgs[0], name, local), msgs[1..], name, local)
  }

  lemma {:induction false} SeenFromMore(v: View, msgs: seq<ServerMessage>, m: ServerMessage, name: string, local: seq<Track>)
    ensures SeenFrom(v, msgs + [m], name, local) == See(SeenFrom(v, msgs, name, local), m, name, local)
    decreases |msgs|
  {
    if msgs != [] {
      SeenFromMore(See(v, msgs[0], name, local), msgs[1..], m, name, local);
      assert (msgs + [m])[1..] == msgs[1..] + [m];
    }
  }

  lemma {:induction false} SeenIsFromNothing(msgs: seq<ServerMessage>, name: string, local: seq<Track>)
    ensures SeenFrom(map[], msgs, name, local) == Seen(msgs, name, local)
  {
    if msgs != [] {
      var front, last := msgs[..|msgs| - 1], msgs[|msgs| - 1];
      SeenIsFromNothing(front, name, local);
      SeenFromMore(map[], front, last, name, local);
      assert front + [last] == msgs;
    }
  }

  lemma {:induction false} ClientSeesFrom(cl0: Client, msgs: seq<ServerMessage>, name: string, local: seq<Track>)
    ensures ClientFrom(cl0, msgs, name, local).0.view == SeenFrom(cl0.view, msgs, name, local)
    decreases |msgs|
  {
    if msgs != [] {
      ReceiveSees(cl0, msgs[0], name, local);
      ClientSeesFrom(Receive(cl0, msgs[0], name, local, true).0, msgs[1..], name, local);
    }
  }

  /** A join response at the front replaces whatever picture the client had. */
  lemma ClientSees(cl0: Client, msgs: seq<ServerMessage>, name: string, local: seq<Track>)
    requires msgs != [] && msgs[0].JoinResponse?
    ensures ClientFrom(cl0, msgs, name, local).0.view == Seen(msgs, name, local)
  {
    ClientSeesFrom(cl0, msgs, name, local);
    SeenIsFromNothing(msgs, name, local);
    assert See(cl0.view, msgs[0], name, local) == See(map[], msgs[0], name, local);
  }

  /** Without join responses and disconnects a client stays who it is. */
  lemma {:induction false} ClientStays(cl0: Client, msgs: seq<ServerMessage>, name: string, local: seq<Track>)
    requires forall i :: 0 <= i < |msgs| ==> !msgs[i].JoinResponse? && !msgs[i].Disconnect?
    ensures var cl := ClientFrom(cl0, msgs, name, local).0;
            cl.joined == cl0.joined && cl.selfId == cl0.selfId
    decreases |msgs|
  {
    if msgs != [] {
      ReceiveSees(cl0, msgs[0], name, local);
      ClientStays(Receive(cl0, msgs[0], name, local, true).0, msgs[1..], name, local);
    }
  }

  /** A queue that starts with the only join response and holds no disconnect leaves the client joined. */
  lemma ClientJoined(cl0: Client, msgs: seq<ServerMessage>, name: string, local: seq<Track>)
    requires msgs != [] && msgs[0].JoinResponse?
    requires forall i :: 0 < i < |msgs| ==> !msgs[i].JoinResponse? && !msgs[i].Disconnect?
    ensures var cl := ClientFrom(cl0, msgs, name, local).0;
            cl.joined && cl.selfId == msgs[0].participantId
  {
    ReceiveSees(cl0, msgs[0], name, local);
    ClientStays(Receive(cl0, msgs[0], name, local, true).0, msgs[1..], name, local);
  }
}
