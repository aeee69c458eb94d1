/**
 * Rejoining: a lost socket, attempts on fresh ones, and when the subscriptions
 * of the new server entry match what the client sees.
 */
module Rejoin {
  import opened ClientSubscriptions
  import opened KeyOrder
  import opened Maps
  import opened Messages
  import opened Mirroring
  import opened Rooms
  import opened RoomViews
  import opened Sessions
  import opened SubscriptionKeys
  import opened TrackLists
  import opened Wrappers

  /** The client while its sockets come and go. */
  datatype Link = Link(client: Client, reconnecting: bool)

  const UNLINKED := Link(NEW_CLIENT, false)

  datatype LinkEvent =
    | SocketLost // the current socket closed, or its media path failed
    | Responded(pid: string, participants: seq<Entry>)
    | Changed(delta: RoomDelta)
    | LoopSettled // the reconnect loop finds the socket of its attempt open

  function BeginReconnect(l: Link): Link {
    if l.reconnecting || !l.client.joined then l
    else Link(l.client.(rejoinPending := true), true)
  }

  /** A join response is only ever answered on a socket that is open. */
  function LinkStep(l: Link, e: LinkEvent, name: string, local: seq<Track>): Link {
    match e
    case SocketLost =>
      if l.reconnecting then l
      else if l.client.joined then BeginReconnect(l)
      else UNLINKED
    case Responded(pid, es) => l.(client := OnJoinResponse(l.client, pid, es, name, local, true).0)
    case Changed(d) => l.(client := OnRoomDelta(l.client, d, true).0)
    case LoopSettled => l.(reconnecting := false)
  }

  function LinkRun(events: seq<LinkEvent>, name: string, local: seq<Track>): Link {
    if events == [] then UNLINKED
    else LinkStep(LinkRun(events[..|events| - 1], name, local), events[|events| - 1], name, local)
  }

  /** Has the reconnect under way already been answered once? */
  function AnsweredSinceLost(events: seq<LinkEvent>, name: string, local: seq<Track>): bool {
    if events == [] then false
    else
      var front, e := events[..|events| - 1], events[|events| - 1];
      var l := LinkRun(front, name, local);
      if e.Responded? then true
      else if e.SocketLost? && !l.reconnecting then false
      else AnsweredSinceLost(front, name, local)
  }

  /** What one event does to the mark. */
  lemma StepMarks(l: Link, e: LinkEvent, name: string, local: seq<Track>)
    requires l.reconnecting ==> l.client.joined
    ensures var l' := LinkStep(l, e, name, local);
            && (l'.reconnecting ==> l'.client.joined)
            && (if e.Responded? then l'.client.joined && !l'.client.rejoinPending
                else if e.SocketLost? && !l.reconnecting then l'.client.joined == l'.client.rejoinPending == l.client.joined
                else l'.client.joined == l.client.joined && l'.client.rejoinPending == l.client.rejoinPending)
  {
    match e {
      case Responded(pid, es) => AnswerIs(l.client, pid, es, name, local, Newcomer(""));
      case Changed(d) => SubscribeKeeps(l.client.(view := ApplyDelta(l.client.view, d)));
      case _ =>
    }
  }

  /**
   * The mark that a join response will be a rejoin is set exactly from a
   * joined client's loss of its socket to the first response after it.
   */
  lemma {:induction false} PendingIff(events: seq<LinkEvent>, name: string, local: seq<Track>)
    ensures var l := LinkRun(events, name, local);
            && (l.reconnecting ==> l.client.joined)
            && (l.client.rejoinPending <==> l.client.joined && !AnsweredSinceLost(events, name, local))
  {
    if events != [] {
      var front := events[..|events| - 1];
      PendingIff(front, name, local);
      StepMarks(LinkRun(front, name, local), events[|events| - 1], name, local);
    }
  }

  // ── The new server entry after a join response ────────────────────────

  ghost predicate NoneYet(m: Member) {
    m.subscriptions == map[] && m.applied == None
  }

  lemma FreshEntryServes(cl: Client, cl': Client, m: Member, msg: ClientMessage, r: set<TrackRef>, d: set<TrackRef>)
    requires Asks(cl, cl', msg, r, d) && NoneYet(m) && |d| <= MAX_SUBSCRIPTIONS_PER_PARTICIPANT
    ensures Served(m, msg).subscriptions.Keys == d - r && Served(m, msg).applied == Some(cl'.subRevision)
  {
    SubsetSize(d - r, d);
    assert m.subscriptions.Keys - (set t | t in msg.remove) + (d - r) == d - r;
    UpdatedKeys(m, CoreSubscriptions(msg.upsert), msg.remove, msg.revision, d - r);
  }

  /** What a client that recorded r asks of an entry without subscriptions, and what both have then. */
  lemma FreshEntryAsked(cl: Client, m: Member, r: set<TrackRef>)
    requires cl.joined && Filed(cl.view) && Slashless(r) && cl.requested == Keys(r) && NoneYet(m) && Modest(cl)
    ensures var (cl', msgs) := Subscribe(cl, true);
            var (m', d) := (ServedAll(m, msgs), RemoteTracks(cl.view, cl.selfId));
            && m'.subscriptions.Keys == d - r && Slashless(d)
            && (m'.applied.Some? ==> m'.applied.value <= cl'.subRevision)
            && cl'.requested == Keys(r) + Keys(d - r) - Keys(Dropped(Keys(r) - Keys(d)))
  {
    var (cl', msgs) := Subscribe(cl, true);
    var d := RemoteTracks(cl.view, cl.selfId);
    SubscribeAsks(cl, r);
    if r == d {
      assert d - r == {};
      RecordIff(r, d);
    } else {
      assert msgs[..0] == [];
      assert ServedAll(m, msgs) == Served(m, msgs[0]);
      FreshEntryServes(cl, cl', m, msgs[0], r, d);
    }
  }

  /** Nothing on the record is shown, and all of it can be taken off. */
  ghost predicate Harmless(r: set<TrackRef>, d: set<TrackRef>) {
    r !! d && forall x :: x in r ==> SlashFree(x.trackId)
  }

  /** Asking d of an entry that then holds only d - r, what is recorded is what is held exactly when r is harmless. */
  lemma RecordHeldIff(r: set<TrackRef>, d: set<TrackRef>)
    requires Slashless(r) && Slashless(d)
    ensures d - r == d && Keys(r) + Keys(d - r) - Keys(Dropped(Keys(r) - Keys(d))) == Keys(d) <==> Harmless(r, d)
  {
    SplitBy(d, r);
    RecordIff(r, d);
    if r !! d {
      assert r - d == r;
      assert Splittable(r, d) <==> Harmless(r, d);
    }
  }

  lemma FreshEntryMirrorsIff(cl: Client, m: Member, r: set<TrackRef>)
    requires cl.joined && Filed(cl.view) && Slashless(r) && cl.requested == Keys(r) && NoneYet(m) && Modest(cl)
    requires !cl.rejoinPending
    ensures var (cl', msgs) := Subscribe(cl, true);
            Mirrored(cl', ServedAll(m, msgs)) <==> Harmless(r, RemoteTracks(cl.view, cl.selfId))
  {
    FreshEntryAsked(cl, m, r);
    SubscribeKeeps(cl);
    RecordHeldIff(r, RemoteTracks(cl.view, cl.selfId));
  }

  lemma SplitBy<T>(d: set<T>, r: set<T>)
    ensures d - r == d <==> r !! d
  {
    assert d - r == d - (r * d);
    if r * d != {} {
      var x :| x in r * d;
      assert x in d && x !in d - r;
    }
  }

  lemma AnswerIs(cl: Client, pid: string, es: seq<Entry>, name: string, local: seq<Track>, m: Member)
    ensures var (cl', sent) := OnJoinResponse(cl, pid, es, name, local, true);
            var (cl'', asked) := Subscribe(Answering(cl, pid, es, name, local), true);
            && cl' == cl'' && ServedAll(m, sent) == ServedAll(m, asked)
            && cl'.view == Roster(pid, es, name, local) && cl'.selfId == pid && cl'.joined && !cl'.rejoinPending
  {
    var cl2 := Answering(cl, pid, es, name, local);
    SubscribeKeeps(cl2);
    AnnounceServes(m, local);
    ServedMore(m, if local != [] then [UpdateLocalTracks(local, [])] else [], Subscribe(cl2, true).1);
  }

  /**
   * A join response is answered on a server entry that has no subscriptions yet.
   * What the server then holds is every remote track the client sees exactly
   * when the response was marked as a rejoin, or nothing seen had been asked for
   * under an earlier entry; otherwise those tracks are missing. Client and server
   * are in step for all that follows exactly when, besides, no track asked for
   * under the earlier entry has a slash in its id.
   */
  lemma RejoinMirrorsIff(cl: Client, pid: string, es: seq<Entry>, r: set<TrackRef>, name: string, local: seq<Track>, who: string)
    requires Slashless(r) && cl.requested == Keys(r) && Filed(Roster(pid, es, name, local))
    requires Modest(Answering(cl, pid, es, name, local))
    ensures var d := RemoteTracks(Roster(pid, es, name, local), pid);
            var (cl', sent) := OnJoinResponse(cl, pid, es, name, local, true);
            var m' := ServedAll(Newcomer(who), sent);
            && m'.subscriptions.Keys == (if cl.rejoinPending then d else d - r)
            && (m'.subscriptions.Keys == d <==> cl.rejoinPending || r !! d)
            && (Mirrored(cl', m') <==> cl.rejoinPending || Harmless(r, d))
  {
    var cl2 := Answering(cl, pid, es, name, local);
    var d := RemoteTracks(Roster(pid, es, name, local), pid);
    AnswerIs(cl, pid, es, name, local, Newcomer(who));
    if cl.rejoinPending {
      MarkedResponseMirrors(cl, pid, es, name, local, who);
    } else {
      FreshEntryAsked(cl2, Newcomer(who), r);
      FreshEntryMirrorsIff(cl2, Newcomer(who), r);
      SplitBy(d, r);
    }
  }

  /** A marked response puts client and new entry in step, whatever was on the client's record. */
  lemma MarkedResponseMirrors(cl: Client, pid: string, es: seq<Entry>, name: string, local: seq<Track>, who: string)
    requires cl.rejoinPending && Filed(Roster(pid, es, name, local))
    requires Modest(Answering(cl, pid, es, name, local))
    ensures var (cl', sent) := OnJoinResponse(cl, pid, es, name, local, true);
            Mirrored(cl', ServedAll(Newcomer(who), sent))
  {
    AnswerIs(cl, pid, es, name, local, Newcomer(who));
    assert Keys({}) == {};
    AskMirrors(Answering(cl, pid, es, name, local), Newcomer(who));
  }

  /** Nothing on the record, or a record the next join response discards. */
  predicate Clean(cl: Client) {
    cl.rejoinPending || cl.requested == {}
  }

  lemma FirstResponseMirrors(cl: Client, msg: ServerMessage, name: string, local: seq<Track>, who: string)
    requires Clean(cl) && msg.JoinResponse? && Proper(msg)
    requires Fitting(Receive(cl, msg, name, local, true).0)
    ensures var (cl', sent) := Receive(cl, msg, name, local, true);
            Mirrored(cl', ServedAll(Newcomer(who), sent))
  {
    SeeFiled(map[], msg, name, local);
    AnswerIs(cl, msg.participantId, msg.participants, name, local, Newcomer(who));
    SubscribeKeeps(Answering(cl, msg.participantId, msg.participants, name, local));
    if cl.rejoinPending {
      MarkedResponseMirrors(cl, msg.participantId, msg.participants, name, local, who);
    } else {
      assert Keys({}) == {};
      RejoinMirrorsIff(cl, msg.participantId, msg.participants, {}, name, local, who);
    }
  }

  /**
   * Over a whole session on a fresh server entry, from a client that may have
   * had any number of sockets and entries before: once the server has handled
   * everything the client sent on this one, both have exactly what it sees.
   */
  lemma RejoinedSessionMirrors(cl0: Client, msgs: seq<ServerMessage>, name: string, local: seq<Track>, who: string)
    requires Clean(cl0) && msgs != [] && msgs[0].JoinResponse?
    requires Ordinary(msgs) && FittingAfter(cl0, msgs, name, local)
    ensures var (cl, sent) := ClientFrom(cl0, msgs, name, local);
            Mirrored(cl, ServedAll(Newcomer(who), sent))
  {
    var (cl1, sent1) := Receive(cl0, msgs[0], name, local, true);
    OrdinaryRest(msgs);
    FirstResponseMirrors(cl0, msgs[0], name, local, who);
    RestMirrors(cl1, Newcomer(who), sent1, msgs[1..], name, local);
  }

  /** A marked response leaves the client asking for exactly what it now sees. */
  lemma MarkedResponseRecords(cl: Client, pid: string, es: seq<Entry>, name: string, local: seq<Track>)
    requires cl.rejoinPending && Filed(Roster(pid, es, name, local))
    ensures var d := RemoteTracks(Roster(pid, es, name, local), pid);
            Slashless(d) && OnJoinResponse(cl, pid, es, name, local, true).0.requested == Keys(d)
  {
    var cl2 := Answering(cl, pid, es, name, local);
    var d := RemoteTracks(Roster(pid, es, name, local), pid);
    AnswerIs(cl, pid, es, name, local, Newcomer(""));
    assert Keys({}) == {};
    SubscribeAsks(cl2, {});
    if d != {} {
      RecordIs({}, d);
    }
  }

  /**
   * When a socket is lost although its join response has already arrived, but
   * before the reconnect loop has settled, the next response is not marked: the
   * new entry lacks every track that is still there from before.
   */
  lemma LossAfterAnswerLosesTracks(events: seq<LinkEvent>, pid: string, es: seq<Entry>, r: set<TrackRef>,
                                   name: string, local: seq<Track>, who: string)
    requires LinkRun(events, name, local).reconnecting && AnsweredSinceLost(events, name, local)
    requires Slashless(r) && LinkRun(events, name, local).client.requested == Keys(r)
    requires Filed(Roster(pid, es, name, local))
    requires Modest(Answering(LinkRun(events, name, local).client, pid, es, name, local))
    ensures var l := LinkRun(events + [SocketLost], name, local);
            var d := RemoteTracks(Roster(pid, es, name, local), pid);
            ServedAll(Newcomer(who), OnJoinResponse(l.client, pid, es, name, local, true).1).subscriptions.Keys == d - r
  {
    assert (events + [SocketLost])[..|events|] == events;
    PendingIff(events, name, local);
    RejoinMirrorsIff(LinkRun(events, name, local).client, pid, es, r, name, local, who);
  }

  const CAMERA := Track("cam", Video, Camera, false, [], "0")
  const ALICE := Entry("p0", "Alice", [CAMERA])

  lemma AliceRoster(self: string)
    requires self != "p0" && self != ""
    ensures Roster(self, [ALICE], "Bob", []) == map["p0" := ALICE, self := Entry(self, "Bob", [])]
  {
    assert [ALICE][..0] == [];
    assert Enter(map[], [ALICE]) == map["p0" := ALICE];
  }

  lemma ShownToOther(v: View, self: string, r: TrackRef)
    requires self != "p0" && v == map["p0" := ALICE, self := Entry(self, "Bob", [])]
    ensures Shown(v, self, r) <==> r == TrackRef("p0", "cam")
  {
    if r == TrackRef("p0", "cam") { assert Named(v["p0"].tracks, 0, "cam"); }
  }

  lemma AliceShows(self: string)
    requires self != "p0" && self != "" && SlashFree(self)
    ensures var v := Roster(self, [ALICE], "Bob", []);
            Filed(v) && RemoteTracks(v, self) == {TrackRef("p0", "cam")}
  {
    var v := Roster(self, [ALICE], "Bob", []);
    AliceRoster(self);
    IssuedSlashFree(0);
    assert ParticipantId(0) == "p0" by { assert Decimal(0) == [Digit(0)]; }
    forall r ensures r in RemoteTracks(v, self) <==> r == TrackRef("p0", "cam") {
      RemoteTracksAreShown(v, self, r);
      ShownToOther(v, self, r);
    }
  }

  lemma SlashFreeIds()
    ensures SlashFree("p2") && SlashFree("p3")
  {
    assert "p2"[0] == 'p' && "p2"[1] == '2' && "p3"[0] == 'p' && "p3"[1] == '3';
  }

  lemma LinkMore(events: seq<LinkEvent>, e: LinkEvent, name: string, local: seq<Track>)
    ensures LinkRun(events + [e], name, local) == LinkStep(LinkRun(events, name, local), e, name, local)
  {
    assert (events + [e])[..|events|] == events;
  }

  lemma BobJoinsAndLosesHisSocket()
    ensures var l := LinkRun([] + [Responded("p1", [ALICE])] + [SocketLost], "Bob", []);
            l.reconnecting && l.client.rejoinPending
  {
    LinkMore([], Responded("p1", [ALICE]), "Bob", []);
    LinkMore([] + [Responded("p1", [ALICE])], SocketLost, "Bob", []);
    AnswerIs(NEW_CLIENT, "p1", [ALICE], "Bob", [], Newcomer("Bob"));
  }

  lemma BobRejoinsAndLosesItAgain()
    ensures var l := LinkRun([] + [Responded("p1", [ALICE])] + [SocketLost] + [Responded("p2", [ALICE])] + [SocketLost], "Bob", []);
            !l.client.rejoinPending && l.client.requested == Keys({TrackRef("p0", "cam")})
  {
    var before := [] + [Responded("p1", [ALICE])] + [SocketLost];
    BobJoinsAndLosesHisSocket();
    SlashFreeIds();
    AliceShows("p2");
    LinkMore(before, Responded("p2", [ALICE]), "Bob", []);
    LinkMore(before + [Responded("p2", [ALICE])], SocketLost, "Bob", []);
    MarkedResponseRecords(LinkRun(before, "Bob", []).client, "p2", [ALICE], "Bob", []);
    AnswerIs(LinkRun(before, "Bob", []).client, "p2", [ALICE], "Bob", [], Newcomer("Bob"));
  }

  lemma AliceIsModest(cl: Client, self: string)
    requires self != "p0" && self != "" && SlashFree(self)
    ensures Modest(Answering(cl, self, [ALICE], "Bob", []))
    ensures Slashless({TrackRef("p0", "cam")})
  {
    AliceShows(self);
    var cl2 := Answering(cl, self, [ALICE], "Bob", []);
    assert cl2.selfId == self && cl2.view == Roster(self, [ALICE], "Bob", []);
    assert RemoteTracks(cl2.view, cl2.selfId) == {TrackRef("p0", "cam")};
    CamIsSlashFree();
  }

  lemma CamIsSlashFree()
    ensures SlashFree("cam") && SlashFree("p0")
  {
    assert "cam"[0] == 'c' && "cam"[1] == 'a' && "cam"[2] == 'm';
    assert "p0"[0] == 'p' && "p0"[1] == '0';
  }

  /**
   * The same as one concrete run: Bob loses his socket, rejoins, loses the new
   * socket before the loop has settled, and rejoins again. He sees Alice's
   * camera; his server entry does not have it.
   */
  lemma TwoLossesInOneReconnect()
    ensures var l := LinkRun([] + [Responded("p1", [ALICE])] + [SocketLost] + [Responded("p2", [ALICE])] + [SocketLost], "Bob", []);
            && RemoteTracks(Roster("p3", [ALICE], "Bob", []), "p3") == {TrackRef("p0", "cam")}
            && ServedAll(Newcomer("Bob"), OnJoinResponse(l.client, "p3", [ALICE], "Bob", [], true).1).subscriptions.Keys == {}
  {
    var l := LinkRun([] + [Responded("p1", [ALICE])] + [SocketLost] + [Responded("p2", [ALICE])] + [SocketLost], "Bob", []);
    BobRejoinsAndLosesItAgain();
    SlashFreeIds();
    AliceShows("p3");
    AliceIsModest(l.client, "p3");
    RejoinMirrorsIff(l.client, "p3", [ALICE], {TrackRef("p0", "cam")}, "Bob", [], "Bob");
  }
}
