/** What holds after every run of the hub, whatever the sockets send and however they interleave. */
module HubRuns {
  import opened Convergence
  import opened Hubs
  import opened KeyOrder
  import opened Messages
  import opened Rooms
  import opened RoomViews
  import opened Sessions
  import opened Worlds
  import opened Wrappers

  /** Socket c's session is joined as participant p. */
  predicate JoinedAs(w: World, c: Socket, p: string) {
    c in w.sessions && w.sessions[c].state == State.Joined && w.sessions[c].participantId == Some(p)
  }

  lemma RunFits(events: seq<Event>)
    ensures Fits(Run(events))
  {
    RunKeeps(events, "", []);
  }

  lemma RunSound(events: seq<Event>)
    ensures Sound(Run(events).hub.directory)
  {
    RunKeeps(events, "", []);
  }

  lemma RunMore(events: seq<Event>, e: Event)
    requires Enabled(Run(events), e)
    ensures Run(events + [e]) == Step(Run(events), e)
  {
    assert (events + [e])[..|events|] == events;
  }

  /**
   * A joined client that drains everything queued for it holds exactly the
   * participants of its room under their names, and for each of the others
   * exactly the registry's tracks with their mute flags, none of them twice.
   */
  lemma DrainedClientHoldsTheRoom(events: seq<Event>, c: Socket, p: string, name: string, local: seq<Track>)
    requires JoinedAs(Run(events), c, p)
    ensures var w := Run(events);
            && w.sessions[c].roomId.Some? && c in w.hub.queues && w.sessions[c].roomId.value in w.hub.directory.rooms
            && Agrees(Seen(w.hub.queues[c], name, local), w.hub.directory.rooms[w.sessions[c].roomId.value], p)
  {
    RunKeeps(events, name, local);
    var w := Run(events);
    assert SessionFits(w, c);
    assert IsJoined(w, c) && Drained(w, c, name, local);
  }

  lemma JoinedIsRegistered(w: World, c: Socket, p: string)
    requires Fits(w) && JoinedAs(w, c, p)
    ensures p in w.hub.outbounds && w.hub.outbounds[p] == c
    ensures w.sessions[c].roomId.Some? && Present(w.hub.directory, w.sessions[c].roomId.value, p)
  {
    assert SessionFits(w, c);
  }

  lemma RegisteredIsJoined(w: World, p: string)
    requires Fits(w)
    ensures p in w.hub.outbounds <==> exists c :: JoinedAs(w, c, p)
  {
    if p in w.hub.outbounds {
      assert OutboundFits(w, p);
      assert JoinedAs(w, w.hub.outbounds[p], p);
    }
    forall c | JoinedAs(w, c, p) ensures p in w.hub.outbounds { JoinedIsRegistered(w, c, p); }
  }

  lemma QueuesAreOfTheJoined(w: World)
    requires Fits(w)
    ensures forall p :: p in w.hub.outbounds <==> exists c :: JoinedAs(w, c, p)
    ensures forall c, p :: JoinedAs(w, c, p) ==>
              && p in w.hub.outbounds && w.hub.outbounds[p] == c
              && w.sessions[c].roomId.Some? && Present(w.hub.directory, w.sessions[c].roomId.value, p)
  {
    forall c, p | JoinedAs(w, c, p)
      ensures p in w.hub.outbounds && w.hub.outbounds[p] == c
      ensures w.sessions[c].roomId.Some? && Present(w.hub.directory, w.sessions[c].roomId.value, p)
    {
      JoinedIsRegistered(w, c, p);
    }
    forall p ensures p in w.hub.outbounds <==> exists c :: JoinedAs(w, c, p) { RegisteredIsJoined(w, p); }
  }

  /**
   * No room is ever empty, every cap holds, an id lives in one room only, and
   * the ids with an outbound queue are exactly those of the joined sessions,
   * each with its own socket, each a member of its session's room.
   */
  lemma ReachableHubIsSound(events: seq<Event>)
    ensures var w := Run(events);
            && Sound(w.hub.directory)
            && (forall p :: p in w.hub.outbounds <==> exists c :: JoinedAs(w, c, p))
            && (forall c, p :: JoinedAs(w, c, p) ==>
                  && p in w.hub.outbounds && w.hub.outbounds[p] == c
                  && w.sessions[c].roomId.Some? && Present(w.hub.directory, w.sessions[c].roomId.value, p))
  {
    RunFits(events);
    RunSound(events);
    QueuesAreOfTheJoined(Run(events));
  }

  /** What the hub object demands of its callers holds for every open socket of a reachable hub. */
  lemma EveryOpenSocketIsServed(events: seq<Event>, c: Socket)
    requires c in Run(events).sessions
    ensures var w := Run(events);
            var s := w.sessions[c];
            && WellFormed(s)
            && Injective(w.hub.outbounds)
            && (c !in w.hub.outbounds.Values || (s.participantId.Some? && s.participantId.value in w.hub.outbounds))
  {
    RunFits(events);
    var w := Run(events);
    assert SessionFits(w, c);
    forall p, q | p in w.hub.outbounds && q in w.hub.outbounds && w.hub.outbounds[p] == w.hub.outbounds[q]
      ensures p == q
    {
      assert OutboundFits(w, p) && OutboundFits(w, q);
    }
    if c in w.hub.outbounds.Values {
      var p :| p in w.hub.outbounds && w.hub.outbounds[p] == c;
      assert OutboundFits(w, p);
    }
  }

  /** Some open socket's session was given the id p. */
  ghost predicate Held(w: World, p: string) {
    exists c :: c in w.sessions && w.sessions[c].participantId == Some(p)
  }

  /**
   * The leaving of each participant ever admitted is announced at most once: not
   * while it is in a room, exactly once afterwards, and so exactly once when its
   * socket is gone. Nobody else's leaving is ever announced.
   */
  lemma LeavingIsAnnouncedOnce(events: seq<Event>, p: string)
    ensures var w := Run(events);
            && multiset(w.left)[p] <= 1
            && (multiset(w.left)[p] == 1 <==> Issued(p, w.hub.directory.nextSeq) && !InSomeRoom(w.hub.directory, p))
            && (Issued(p, w.hub.directory.nextSeq) && !Held(w, p) ==> multiset(w.left)[p] == 1)
  {
    RunKeeps(events, "", []);
    var w := Run(events);
    assert multiset(w.left)[p] == Due(w.hub.directory, p);
    if InSomeRoom(w.hub.directory, p) {
      var r :| Present(w.hub.directory, r, p);
      assert MemberFits(w, r, p);
      assert Held(w, p);
    }
  }

  /**
   * An id once given out is never given out again: whoever is admitted next
   * gets one that no socket ever had.
   */
  lemma IdsAreNeverReused(events: seq<Event>, c: Socket, msg: ClientMessage)
    requires Enabled(Run(events), Receive(c, msg))
    requires KindOf(Run(events).sessions[c], Run(events).hub.directory, msg) == Admits
    ensures var w, w' := Run(events), Run(events + [Receive(c, msg)]);
            && w'.sessions[c].participantId.Some?
            && w'.sessions[c].participantId.value !in w.owner
            && w'.owner == w.owner[w'.sessions[c].participantId.value := c]
  {
    var w, e := Run(events), Receive(c, msg);
    RunMore(events, e);
    RunFits(events);
    DispatchKeeps(w.hub, w.sessions[c], c, msg);
    AdmitHandled(w.sessions[c], w.hub.directory, msg);
    NextIdUnowned(w);
  }

  lemma SecondJoinStep(w: World, c: Socket, p: string, claims: Option<Claims>)
    requires Fits(w) && JoinedAs(w, c, p) && Enabled(w, Receive(c, JoinRequest(claims)))
    ensures var w' := Step(w, Receive(c, JoinRequest(claims)));
            && w'.sessions == w.sessions[c := w.sessions[c].(state := State.Closed)]
            && w'.hub.outbounds == w.hub.outbounds - {p}
            && w'.hub.directory == w.hub.directory
  {
    assert SessionFits(w, c);
    DispatchKeeps(w.hub, w.sessions[c], c, JoinRequest(claims));
  }

  /**
   * A second join request ends the session at once and takes its queue out of
   * the table, but its participant stays in its room, where the others see it.
   */
  lemma SecondJoinLeavesTheEntry(events: seq<Event>, c: Socket, p: string, claims: Option<Claims>)
    requires JoinedAs(Run(events), c, p)
    ensures var w' := Run(events + [Receive(c, JoinRequest(claims))]);
            && c in w'.sessions && w'.sessions[c].state == State.Closed && p !in w'.hub.outbounds
            && InSomeRoom(w'.hub.directory, p)
  {
    var w, e := Run(events), Receive(c, JoinRequest(claims));
    RunFits(events);
    assert WellFormed(w.sessions[c]) by { assert SessionFits(w, c); }
    RunMore(events, e);
    SecondJoinStep(w, c, p, claims);
    JoinedIsRegistered(w, c, p);
    assert Present(w.hub.directory, w.sessions[c].roomId.value, p);
  }

  /** In a room, but with no queue to be reached by. */
  ghost predicate Stranded(w: World, p: string) {
    InSomeRoom(w.hub.directory, p) && p !in w.hub.outbounds
  }

  lemma MemberIsStrandedIff(w: World, p: string, c: Socket)
    requires Fits(w) && c in w.sessions && w.sessions[c].participantId == Some(p) && InSomeRoom(w.hub.directory, p)
    ensures Stranded(w, p) <==> w.sessions[c].state == State.Closed
  {
    assert SessionFits(w, c);
    if p in w.hub.outbounds {
      assert OutboundFits(w, p);
      assert SessionFits(w, w.hub.outbounds[p]);
    }
  }

  /**
   * In every run, each member of a room is the participant of one open socket,
   * and it is missing from the table of queues exactly when that socket's
   * session is closed.
   */
  lemma StrandedIffClosed(events: seq<Event>, p: string)
    requires InSomeRoom(Run(events).hub.directory, p)
    ensures var w := Run(events);
            && Held(w, p)
            && forall c :: c in w.sessions && w.sessions[c].participantId == Some(p) ==>
                 (Stranded(w, p) <==> w.sessions[c].state == State.Closed)
  {
    RunFits(events);
    var w := Run(events);
    var r :| Present(w.hub.directory, r, p);
    assert MemberFits(w, r, p);
    forall c | c in w.sessions && w.sessions[c].participantId == Some(p)
      ensures Stranded(w, p) <==> w.sessions[c].state == State.Closed
    {
      MemberIsStrandedIff(w, p, c);
    }
  }

  lemma LeaverIsNowhere(w': World, c: Socket, p: string, room: string)
    requires Fits(w') && c in w'.sessions && w'.sessions[c].participantId == Some(p) && w'.sessions[c].roomId == Some(room)
    requires !Present(w'.hub.directory, room, p)
    ensures !InSomeRoom(w'.hub.directory, p)
  {
    forall r ensures !Present(w'.hub.directory, r, p) {
      assert SessionFits(w', c);
      assert Present(w'.hub.directory, r, p) ==> MemberFits(w', r, p);
    }
  }

  lemma OneMessageStrandsIff(w: World, c: Socket, p: string, msg: ClientMessage)
    requires Fits(w) && JoinedAs(w, c, p) && Enabled(w, Receive(c, msg)) && Fits(Step(w, Receive(c, msg)))
    ensures Stranded(Step(w, Receive(c, msg)), p) <==> msg.JoinRequest?
  {
    var s, d := w.sessions[c], w.hub.directory;
    var w' := Step(w, Receive(c, msg));
    assert SessionFits(w, c);
    DispatchKeeps(w.hub, s, c, msg);
    match KindOf(s, d, msg) {
      case Rejects =>
        RejectHandled(s, d, msg);
        assert Present(w'.hub.directory, s.roomId.value, p);
        MemberIsStrandedIff(w', p, c);
      case Departs =>
        DepartHandled(s, d, msg);
        LeavePresence(d, s.roomId.value, p);
        LeaverIsNowhere(w', c, p, s.roomId.value);
      case Stays =>
        StayHandled(s, d, msg);
        JoinedIsRegistered(w', c, p);
    }
  }

  /**
   * Of all the messages a joined session can handle, in any run, exactly a
   * second join request leaves its participant in a room without a queue.
   */
  lemma StrandedIffSecondJoin(events: seq<Event>, c: Socket, p: string, msg: ClientMessage)
    requires JoinedAs(Run(events), c, p)
    ensures Stranded(Run(events + [Receive(c, msg)]), p) <==> msg.JoinRequest?
  {
    var w, e := Run(events), Receive(c, msg);
    RunFits(events);
    assert WellFormed(w.sessions[c]) by { assert SessionFits(w, c); }
    RunMore(events, e);
    RunFits(events + [e]);
    OneMessageStrandsIff(w, c, p, msg);
  }

  const ALICE_JOINS := Receive(0, JoinRequest(Some(Claims("room", "Alice"))))

  lemma AliceIsJoined()
    ensures JoinedAs(Run([Open(0), ALICE_JOINS]), 0, "p0")
  {
    var w, d := Run([Open(0)]), NOBODY;
    assert [Open(0)][..0] == [] && [Open(0), ALICE_JOINS][..1] == [Open(0)];
    assert w == START.(hub := START.hub.(queues := map[0 := []]), sessions := map[0 := FRESH]);
    assert Sound(d);
    JoinAdmitsIff(d, "room", "Alice");
    DispatchKeeps(w.hub, FRESH, 0, ALICE_JOINS.msg);
    AdmitHandled(FRESH, d, ALICE_JOINS.msg);
    assert ParticipantId(0) == "p0" by { assert Decimal(0) == [Digit(0)]; }
  }

  /** One concrete run: Alice joins, then sends a join request again. */
  lemma AliceIsStranded()
    ensures Stranded(Run([Open(0), ALICE_JOINS, ALICE_JOINS]), "p0")
  {
    AliceIsJoined();
    StrandedIffSecondJoin([Open(0), ALICE_JOINS], 0, "p0", ALICE_JOINS.msg);
    assert [Open(0), ALICE_JOINS] + [ALICE_JOINS] == [Open(0), ALICE_JOINS, ALICE_JOINS];
  }

  lemma OwnerGone(w: World, p: string, c: Socket)
    requires Fits(w) && p in w.owner && w.owner[p] == c && c !in w.sessions
    ensures !InSomeRoom(w.hub.directory, p)
  {
    forall r ensures !Present(w.hub.directory, r, p) {
      assert Present(w.hub.directory, r, p) ==> MemberFits(w, r, p);
    }
  }

  lemma ShutLeavesNoEntry(w: World, c: Socket, p: string)
    requires Fits(w) && c in w.sessions && w.sessions[c].participantId == Some(p)
    ensures !InSomeRoom(Step(w, Shut(c)).hub.directory, p)
  {
    assert SessionFits(w, c);
    ShutFits(w, c);
    OwnerGone(Step(w, Shut(c)), p, c);
  }

  /** Once the socket that was given p has closed, p is in no room, whatever happened before. */
  lemma ClosedSocketLeavesNoEntry(events: seq<Event>, c: Socket, p: string)
    requires c in Run(events).sessions && Run(events).sessions[c].participantId == Some(p)
    ensures !InSomeRoom(Run(events + [Shut(c)]).hub.directory, p)
  {
    RunMore(events, Shut(c));
    RunFits(events);
    ShutLeavesNoEntry(Run(events), c, p);
  }
}
