/**
 * Whose word counts: in every run, the tracks the registry keeps for a joined
 * participant are those it last published, as it last described them, and that
 * is what its peers are shown.
 */
module HubTracks {
  import opened Convergence
  import opened Hubs
  import opened HubMirroring
  import opened HubRuns
  import opened Maps
  import opened Messages
  import opened RoomEffects
  import opened Rooms
  import opened RoomViews
  import opened Sessions
  import opened TrackLists
  import opened Worlds
  import opened Wrappers

  /** One thing said about one track. */
  datatype Word = Publishes(track: Track) | Withdraws(id: string)

  function About(w: Word): string {
    if w.Publishes? then w.track.id else w.id
  }

  function Published(ts: seq<Track>): (ws: seq<Word>)
    ensures |ws| == |ts| && forall i :: 0 <= i < |ws| ==> ws[i] == Publishes(ts[i])
  {
    seq(|ts|, i requires 0 <= i < |ts| => Publishes(ts[i]))
  }

  function Withdrawn(ids: seq<string>): (ws: seq<Word>)
    ensures |ws| == |ids| && forall i :: 0 <= i < |ws| ==> ws[i] == Withdraws(ids[i])
  {
    seq(|ids|, i requires 0 <= i < |ids| => Withdraws(ids[i]))
  }

  /** What a message says about tracks: its publishes, then its unpublishes. */
  function WordsOf(msg: ClientMessage): seq<Word> {
    if msg.UpdateLocalTracks? then Published(msg.publish) + Withdrawn(msg.unpublish) else []
  }

  function Said(msgs: seq<ClientMessage>): seq<Word> {
    if msgs == [] then [] else Said(msgs[..|msgs| - 1]) + WordsOf(msgs[|msgs| - 1])
  }

  /** The i-th word is the last one about this track. */
  ghost predicate LastWord(ws: seq<Word>, i: int, id: string) {
    0 <= i < |ws| && About(ws[i]) == id && forall j :: i < j < |ws| ==> About(ws[j]) != id
  }

  /** The ids of acceptable length that were ever published. */
  function Ids(ws: seq<Word>): set<string> {
    set w | w in ws && w.Publishes? && 1 <= |w.track.id| <= 128 :: w.track.id
  }

  /** Every track kept was published by the last word about it, which described it as it is kept. */
  ghost predicate AsLastSaid(tracks: Tracks, ws: seq<Word>) {
    forall id :: id in tracks ==>
      && 1 <= |id| <= 128
      && exists i :: LastWord(ws, i, id) && ws[i].Publishes? && Stores(tracks[id], CoreMeta(ws[i].track))
  }

  /** Every track whose last word published it is kept. */
  ghost predicate AllKept(tracks: Tracks, ws: seq<Word>) {
    forall i, id :: LastWord(ws, i, id) && ws[i].Publishes? && 1 <= |id| <= 128 ==> id in tracks
  }

  // ── Word by word ──────────────────────────────────────────────────────

  function Hear(tracks: Tracks, w: Word): Tracks {
    match w
    case Publishes(t) => if Sized(t.id, MAX_ID_LEN) then PublishTrack(tracks, t.id, Trimmed(CoreMeta(t))).0 else tracks
    case Withdraws(id) => tracks - {id}
  }

  function HearAll(tracks: Tracks, ws: seq<Word>): Tracks {
    if ws == [] then tracks else Hear(HearAll(tracks, ws[..|ws| - 1]), ws[|ws| - 1])
  }

  lemma {:induction false} HearMore(tracks: Tracks, a: seq<Word>, b: seq<Word>)
    ensures HearAll(tracks, a + b) == HearAll(HearAll(tracks, a), b)
    decreases |b|
  {
    if b == [] {
      assert a + b == a;
    } else {
      var front, last := b[..|b| - 1], b[|b| - 1];
      HearMore(tracks, a, front);
      FrontAndLast(a, b);
      HearOne(tracks, a + front, last);
    }
  }

  lemma FrontAndLast(a: seq<Word>, b: seq<Word>)
    requires b != []
    ensures a + b == (a + b[..|b| - 1]) + [b[|b| - 1]]
  {
  }

  lemma HearOne(tracks: Tracks, ws: seq<Word>, w: Word)
    ensures HearAll(tracks, ws + [w]) == Hear(HearAll(tracks, ws), w)
  {
    assert (ws + [w])[..|ws|] == ws;
  }

  lemma {:induction false} PublishesHeard(tracks: Tracks, pid: string, publish: seq<Track>)
    ensures PublishAll(tracks, pid, publish).0 == HearAll(tracks, Published(publish))
  {
    if publish != [] {
      PublishesHeard(tracks, pid, publish[..|publish| - 1]);
      assert Published(publish)[..|publish| - 1] == Published(publish[..|publish| - 1]);
    }
  }

  lemma {:induction false} WithdrawalsHeard(tracks: Tracks, pid: string, ids: seq<string>)
    ensures UnpublishAll(tracks, pid, ids).0 == HearAll(tracks, Withdrawn(ids))
  {
    if ids != [] {
      WithdrawalsHeard(tracks, pid, ids[..|ids| - 1]);
      assert Withdrawn(ids)[..|ids| - 1] == Withdrawn(ids[..|ids| - 1]);
    }
  }

  /** A batch comes to its words, one by one. */
  lemma BatchHeard(tracks: Tracks, pid: string, publish: seq<Track>, unpublish: seq<string>)
    ensures ChangeTracks(tracks, pid, publish, unpublish).0 ==
            HearAll(tracks, WordsOf(UpdateLocalTracks(publish, unpublish)))
  {
    PublishesHeard(tracks, pid, publish);
    WithdrawalsHeard(PublishAll(tracks, pid, publish).0, pid, unpublish);
    HearMore(tracks, Published(publish), Withdrawn(unpublish));
  }

  lemma LaterWord(ws: seq<Word>, w: Word, i: int, id: string)
    requires LastWord(ws, i, id) && About(w) != id
    ensures LastWord(ws + [w], i, id) && (ws + [w])[i] == ws[i]
  {
  }

  lemma HearSaid(tracks: Tracks, ws: seq<Word>, w: Word)
    requires AsLastSaid(tracks, ws)
    ensures AsLastSaid(Hear(tracks, w), ws + [w])
  {
    var after := Hear(tracks, w);
    forall id | id in after
      ensures 1 <= |id| <= 128 && exists i :: LastWord(ws + [w], i, id) && (ws + [w])[i].Publishes? && Stores(after[id], CoreMeta((ws + [w])[i].track))
    {
      if About(w) == id {
        NewestWord(tracks, ws, w, id);
      } else {
        var i :| LastWord(ws, i, id) && ws[i].Publishes? && Stores(tracks[id], CoreMeta(ws[i].track));
        LaterWord(ws, w, i, id);
      }
    }
  }

  lemma NewestWord(tracks: Tracks, ws: seq<Word>, w: Word, id: string)
    requires About(w) == id && id in Hear(tracks, w) && (id in tracks ==> 1 <= |id| <= 128)
    ensures 1 <= |id| <= 128 && LastWord(ws + [w], |ws|, id) && w.Publishes? && Stores(Hear(tracks, w)[id], CoreMeta(w.track))
  {
  }

  lemma IdsGrow(ws: seq<Word>, w: Word)
    ensures Ids(ws) <= Ids(ws + [w])
    ensures w.Publishes? && 1 <= |w.track.id| <= 128 ==> w.track.id in Ids(ws + [w])
  {
    forall id | id in Ids(ws) ensures id in Ids(ws + [w]) {
      var x :| x in ws && x.Publishes? && 1 <= |x.track.id| <= 128 && x.track.id == id;
      assert x in ws + [w];
    }
    assert w in ws + [w];
  }

  lemma RoomForOne(tracks: Tracks, ids: set<string>, id: string)
    requires tracks.Keys <= ids && id in ids && id !in tracks
    ensures |tracks| < |ids|
  {
    SubsetSize(tracks.Keys, ids - {id});
    assert |tracks| == |tracks.Keys|;
  }

  /** With at most 16 ids ever published nothing said is turned away. */
  lemma HearKeeps(tracks: Tracks, ws: seq<Word>, w: Word)
    requires tracks.Keys <= Ids(ws) && |Ids(ws + [w])| <= 16 && AllKept(tracks, ws)
    ensures Hear(tracks, w).Keys <= Ids(ws + [w]) && AllKept(Hear(tracks, w), ws + [w])
  {
    IdsGrow(ws, w);
    var after := Hear(tracks, w);
    forall i, id | LastWord(ws + [w], i, id) && (ws + [w])[i].Publishes? && 1 <= |id| <= 128
      ensures id in after
    {
      if i == |ws| {
        if id !in tracks { RoomForOne(tracks, Ids(ws + [w]), id); }
      } else {
        EarlierWord(ws, w, i, id);
      }
    }
  }

  lemma EarlierWord(ws: seq<Word>, w: Word, i: int, id: string)
    requires LastWord(ws + [w], i, id) && i < |ws|
    ensures About(w) != id && LastWord(ws, i, id) && ws[i] == (ws + [w])[i]
  {
    assert (ws + [w])[|ws|] == w;
    forall j | i < j < |ws| ensures About(ws[j]) != id { assert (ws + [w])[j] == ws[j]; }
  }

  /** Whatever was said, starting with no tracks. */
  lemma {:induction false} HeardIsSaid(ws: seq<Word>)
    ensures AsLastSaid(HearAll(map[], ws), ws)
  {
    if ws != [] {
      var front, last := ws[..|ws| - 1], ws[|ws| - 1];
      HeardIsSaid(front);
      HearSaid(HearAll(map[], front), front, last);
      assert ws == front + [last];
    }
  }

  lemma {:induction false} HeardIsKept(ws: seq<Word>)
    requires |Ids(ws)| <= 16
    ensures HearAll(map[], ws).Keys <= Ids(ws) && AllKept(HearAll(map[], ws), ws)
  {
    if ws != [] {
      var front, last := ws[..|ws| - 1], ws[|ws| - 1];
      assert ws == front + [last];
      IdsGrow(front, last);
      SubsetSize(Ids(front), Ids(ws));
      HeardIsKept(front);
      HearKeeps(HearAll(map[], front), front, last);
    }
  }

  // ── Over whole runs ───────────────────────────────────────────────────

  ghost predicate Follows(w: World, x: Socket, inbox: seq<ClientMessage>)
    requires x in w.sessions
  {
    var s := w.sessions[x];
    && (s.state == State.AwaitingJoin ==> inbox == [])
    && (s.state == State.Joined && s.participantId.Some? && s.roomId.Some? ==>
          && Present(w.hub.directory, s.roomId.value, s.participantId.value)
          && w.hub.directory.rooms[s.roomId.value][s.participantId.value].tracks == HearAll(map[], Said(inbox)))
  }

  lemma SaidOneMore(inbox: seq<ClientMessage>, msg: ClientMessage)
    ensures HearAll(map[], Said(inbox + [msg])) == HearAll(HearAll(map[], Said(inbox)), WordsOf(msg))
  {
    assert (inbox + [msg])[..|inbox|] == inbox;
    HearMore(map[], Said(inbox), WordsOf(msg));
  }

  /** What handling a message does to the tracks of the sender's own entry. */
  lemma OwnTracks(s: SessionValue, d: Directory, msg: ClientMessage)
    requires WellFormed(s) && s.state == State.Joined && KindOf(s, d, msg) == Stays
    requires Present(d, s.roomId.value, s.participantId.value)
    ensures var d' := DirectoryAfter(s, d, msg);
            && Present(d', s.roomId.value, s.participantId.value)
            && d'.rooms[s.roomId.value][s.participantId.value].tracks ==
               HearAll(d.rooms[s.roomId.value][s.participantId.value].tracks, WordsOf(msg))
  {
    if msg.UpdateLocalTracks? {
      BatchHeard(d.rooms[s.roomId.value][s.participantId.value].tracks, s.participantId.value, msg.publish, msg.unpublish);
    }
  }

  lemma StayFollows(w: World, w': World, c: Socket, msg: ClientMessage, inbox: seq<ClientMessage>)
    requires Fits(w) && c in w.sessions && WellFormed(w.sessions[c]) && Follows(w, c, inbox)
    requires KindOf(w.sessions[c], w.hub.directory, msg) == Stays
    requires var r := Handle(w.sessions[c], w.hub.directory, msg);
             c in w'.sessions && w'.sessions[c] == r.session && w'.hub.directory == r.directory
    ensures Follows(w', c, inbox + [msg])
  {
    var s, d := w.sessions[c], w.hub.directory;
    StayHandled(s, d, msg);
    HandleDirectory(s, d, msg);
    SaidOneMore(inbox, msg);
    if s.state == State.Joined { OwnTracks(s, d, msg); }
  }

  lemma AdmittedTracks(s: SessionValue, d: Directory, msg: ClientMessage)
    requires WellFormed(s) && KindOf(s, d, msg) == Admits
    ensures var r := Handle(s, d, msg);
            && WordsOf(msg) == [] && r.session.state == State.Joined
            && r.session.roomId.Some? && r.session.participantId.Some?
            && Present(r.directory, r.session.roomId.value, r.session.participantId.value)
            && r.directory.rooms[r.session.roomId.value][r.session.participantId.value].tracks == map[]
  {
    AdmitHandled(s, d, msg);
  }

  lemma OwnFollows(w: World, w': World, c: Socket, msg: ClientMessage, inbox: seq<ClientMessage>)
    requires Fits(w) && c in w.sessions && WellFormed(w.sessions[c]) && Follows(w, c, inbox)
    requires var r := Handle(w.sessions[c], w.hub.directory, msg);
             c in w'.sessions && w'.sessions[c] == r.session && w'.hub.directory == r.directory
    ensures Follows(w', c, inbox + [msg])
  {
    var s, d := w.sessions[c], w.hub.directory;
    match KindOf(s, d, msg) {
      case Admits => AdmittedTracks(s, d, msg); SaidOneMore([], msg);
      case Rejects => RejectHandled(s, d, msg);
      case Departs => DepartHandled(s, d, msg);
      case Stays => StayFollows(w, w', c, msg, inbox);
    }
  }

  lemma OtherFollows(w: World, w': World, c: Socket, msg: ClientMessage, x: Socket, inbox: seq<ClientMessage>)
    requires Fits(w) && c in w.sessions && WellFormed(w.sessions[c]) && x in w.sessions && x != c
    requires x in w'.sessions && w'.sessions[x] == w.sessions[x]
    requires w'.hub.directory == DirectoryAfter(w.sessions[c], w.hub.directory, msg)
    requires Follows(w, x, inbox)
    ensures Follows(w', x, inbox)
  {
    var s := w.sessions[x];
    if s.state == State.Joined && s.participantId.Some? && s.roomId.Some? {
      assert SessionFits(w, x) && SessionFits(w, c);
      NextIdUnowned(w);
      OtherEntryKept(w.sessions[c], w.hub.directory, msg, s.roomId.value, s.participantId.value);
    }
  }

  lemma ReceiveFollows(w: World, c: Socket, msg: ClientMessage, x: Socket, inbox: seq<ClientMessage>)
    requires Fits(w) && Enabled(w, Receive(c, msg)) && x in w.sessions && Follows(w, x, inbox)
    ensures x in Step(w, Receive(c, msg)).sessions
    ensures Follows(Step(w, Receive(c, msg)), x, if x == c then inbox + [msg] else inbox)
  {
    DispatchKeeps(w.hub, w.sessions[c], c, msg);
    HandleDirectory(w.sessions[c], w.hub.directory, msg);
    if x == c {
      OwnFollows(w, Step(w, Receive(c, msg)), c, msg, inbox);
    } else {
      OtherFollows(w, Step(w, Receive(c, msg)), c, msg, x, inbox);
    }
  }

  lemma ShutFollows(w: World, c: Socket, x: Socket, inbox: seq<ClientMessage>)
    requires Fits(w) && c in w.sessions && x in w.sessions && x != c && Follows(w, x, inbox)
    ensures Follows(Step(w, Shut(c)), x, inbox)
  {
    var s, d := w.sessions[c], w.hub.directory;
    ShutKeeps(w.hub, s);
    if s.participantId.Some? && s.roomId.Some? {
      LeavePresence(d, s.roomId.value, s.participantId.value);
      if w.sessions[x].participantId.Some? { DifferentPids(w, x, c); }
    }
  }

  lemma StepFollows(w: World, e: Event, x: Socket, inbox: seq<ClientMessage>)
    requires Fits(w) && Enabled(w, e) && (x in w.sessions ==> Follows(w, x, inbox))
    ensures x in Step(w, e).sessions ==> Follows(Step(w, e), x, InboxAfter(inbox, e, x))
  {
    match e {
      case Open(c) =>
      case Receive(c, msg) => if x in w.sessions { ReceiveFollows(w, c, msg, x, inbox); }
      case Shut(c) => if x in w.sessions && x != c { ShutFollows(w, c, x, inbox); }
    }
  }

  lemma {:induction false} RunFollows(events: seq<Event>, x: Socket)
    ensures x in Run(events).sessions ==> Follows(Run(events), x, Inbox(events, x))
  {
    if events != [] {
      var front, e := events[..|events| - 1], events[|events| - 1];
      RunFollows(front, x);
      RunFits(front);
      if Enabled(Run(front), e) { StepFollows(Run(front), e, x, Inbox(front, x)); }
    }
  }

  /**
   * In every run, each track the registry keeps for a joined participant was
   * published by the last thing its socket said about it, with that kind, source
   * and mute flag; and if it never published more than 16 different ids, every
   * track whose last word published it is kept.
   */
  lemma TracksAreTheLastWords(events: seq<Event>, c: Socket, p: string)
    requires JoinedAs(Run(events), c, p)
    ensures var w := Run(events);
            && w.sessions[c].roomId.Some? && Present(w.hub.directory, w.sessions[c].roomId.value, p)
            && var tracks := w.hub.directory.rooms[w.sessions[c].roomId.value][p].tracks;
               var said := Said(Inbox(events, c));
               AsLastSaid(tracks, said) && (|Ids(said)| <= 16 ==> AllKept(tracks, said))
  {
    RunFollows(events, c);
    RunFits(events);
    assert SessionFits(Run(events), c);
    var said := Said(Inbox(events, c));
    HeardIsSaid(said);
    if |Ids(said)| <= 16 { HeardIsKept(said); }
  }

  /** A shown track is one its participant last published, with the flag of that publish. */
  ghost predicate ShownAsSaid(t: Track, ws: seq<Word>) {
    exists i :: LastWord(ws, i, t.id) && ws[i].Publishes? && t.muted == ws[i].track.muted
  }

  lemma ListedAsSaid(ts: seq<Track>, tracks: Tracks, ws: seq<Word>, k: int)
    requires Lists(ts, tracks) && AsLastSaid(tracks, ws) && 0 <= k < |ts|
    ensures ShownAsSaid(ts[k], ws)
  {
    var id := ts[k].id;
    FlagsHold(ts, id);
    assert Named(ts, k, id);
    var i :| LastWord(ws, i, id) && ws[i].Publishes? && Stores(tracks[id], CoreMeta(ws[i].track));
  }

  /**
   * So a joined client that has drained its queue shows, for any other socket
   * joined to its room, only tracks that socket last published, each muted or
   * not as that publish said.
   */
  lemma PeersSeeTheLastWord(events: seq<Event>, c: Socket, p: string, other: Socket, q: string,
                            name: string, local: seq<Track>, k: int)
    requires JoinedAs(Run(events), c, p) && JoinedAs(Run(events), other, q) && c != other
    requires Run(events).sessions[c].roomId == Run(events).sessions[other].roomId
    requires c in Run(events).hub.queues && q in Seen(Run(events).hub.queues[c], name, local)
    requires 0 <= k < |Seen(Run(events).hub.queues[c], name, local)[q].tracks|
    ensures ShownAsSaid(Seen(Run(events).hub.queues[c], name, local)[q].tracks[k], Said(Inbox(events, other)))
  {
    var w := Run(events);
    DrainedClientHoldsTheRoom(events, c, p, name, local);
    TracksAreTheLastWords(events, other, q);
    RunFits(events);
    DifferentPids(w, c, other);
    var room, v := w.hub.directory.rooms[w.sessions[c].roomId.value], Seen(w.hub.queues[c], name, local);
    assert Mirrors(v[q], q, room[q], p);
    ListedAsSaid(v[q].tracks, room[q].tracks, Said(Inbox(events, other)), k);
  }
}
