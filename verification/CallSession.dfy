/** The client session as the object that keeps the participants and what it asked for. */
module CallSessions {
  import opened ClientSubscriptions
  import opened KeyOrder
  import opened Messages
  import opened Rooms
  import opened RoomViews
  import opened Seqs
  import opened SubscriptionKeys
  import opened TrackLists
  import opened Wrappers

  class CallSession {
    var joined: bool
    var selfId: string
    var participants: View
    var requested: set<string>
    var subRevision: nat
    var rejoinPending: bool
    var open: bool
    var sent: seq<ClientMessage>

    ghost function Value(): Client
      reads this
    {
      Client(joined, selfId, participants, requested, subRevision, rejoinPending)
    }

    constructor ()
      ensures Value() == NEW_CLIENT && sent == [] && !open
    {
      joined, selfId, participants, requested, subRevision, rejoinPending := false, "", map[], {}, 0, false;
      open, sent := false, [];
    }

    method HandleJoinResponse(participantId: string, listed: seq<Entry>, selfName: string, localTracks: seq<Track>)
      modifies `joined, `selfId, `participants, `requested, `subRevision, `rejoinPending, `sent
      ensures var (cl, said) := OnJoinResponse(old(Value()), participantId, listed, selfName, localTracks, open);
              Value() == cl && sent == old(sent) + said
    {
      TakePicture(participantId, listed, selfName, localTracks);
      ghost var answering := Value();
      var announce := if open && localTracks != [] then [UpdateLocalTracks(localTracks, [])] else [];
      sent := sent + announce;
      assert Value() == answering;
      SubscribeToRemoteTracks();
      Assoc(old(sent), announce, Subscribe(answering, open).1);
    }

    /** Replaces the picture of the room; a rejoin marked as one forgets what was asked for. */
    method TakePicture(participantId: string, listed: seq<Entry>, selfName: string, localTracks: seq<Track>)
      modifies `joined, `selfId, `participants, `requested, `subRevision, `rejoinPending
      ensures Value() == Answering(old(Value()), participantId, listed, selfName, localTracks)
    {
      joined := true;
      var roster, _ := Entered(map[], listed);
      if participantId != "" && participantId !in roster {
        roster := roster[participantId := Entry(participantId, selfName, localTracks)];
      }
      if rejoinPending {
        rejoinPending := false;
        requested := {};
        subRevision := 0;
      }
      selfId, participants := participantId, roster;
    }

    /** The delta is applied to a copy, which replaces the participants if anything in it was. */
    method ApplyRoomDelta(d: RoomDelta)
      modifies `participants, `requested, `subRevision, `sent
      ensures var (cl, said) := OnRoomDelta(old(Value()), d, open);
              Value() == cl && sent == old(sent) + said
    {
      var copy, changed := Entered(participants, d.joined);
      var more: bool;
      copy, more := Exited(copy, d.left);
      changed := changed || more;
      copy, more := Announced(copy, d.published);
      changed := changed || more;
      copy, more := Withdrawn(copy, d.unpublished);
      changed := changed || more;
      copy, more := Muted(copy, d.muteChanges);
      changed := changed || more;
      if changed {
        participants := copy;
      }
      SubscribeToRemoteTracks();
    }

    static method Entered(v: View, es: seq<Entry>) returns (copy: View, changed: bool)
      ensures copy == Enter(v, es) && (!changed ==> copy == v)
    {
      copy, changed := v, false;
      for i := 0 to |es|
        invariant copy == Enter(v, es[..i]) && (!changed ==> copy == v)
      {
        assert es[..i + 1][..i] == es[..i];
        copy, changed := copy[es[i].id := es[i]], true;
      }
      assert es[..|es|] == es;
    }

    static method Exited(v: View, ids: seq<string>) returns (copy: View, changed: bool)
      ensures copy == Exit(v, ids) && (!changed ==> copy == v)
    {
      copy, changed := v, false;
      for i := 0 to |ids|
        invariant copy == Exit(v, ids[..i]) && (!changed ==> copy == v)
      {
        assert ids[..i + 1][..i] == ids[..i];
        if ids[i] in copy {
          copy, changed := copy - {ids[i]}, true;
        } else {
          assert copy - {ids[i]} == copy;
        }
      }
      assert ids[..|ids|] == ids;
    }

    static method Announced(v: View, pubs: seq<TrackPublished>) returns (copy: View, changed: bool)
      ensures copy == Announce(v, pubs) && (!changed ==> copy == v)
    {
      copy, changed := v, false;
      for i := 0 to |pubs|
        invariant copy == Announce(v, pubs[..i]) && (!changed ==> copy == v)
      {
        assert pubs[..i + 1][..i] == pubs[..i];
        var pid := pubs[i].participantId;
        if pid in copy {
          copy, changed := copy[pid := copy[pid].(tracks := copy[pid].tracks + [pubs[i].track])], true;
        }
      }
      assert pubs[..|pubs|] == pubs;
    }

    static method Withdrawn(v: View, refs: seq<TrackRef>) returns (copy: View, changed: bool)
      ensures copy == Withdraw(v, refs) && (!changed ==> copy == v)
    {
      copy, changed := v, false;
      for i := 0 to |refs|
        invariant copy == Withdraw(v, refs[..i]) && (!changed ==> copy == v)
      {
        assert refs[..i + 1][..i] == refs[..i];
        var pid := refs[i].participantId;
        if pid in copy {
          copy, changed := copy[pid := copy[pid].(tracks := Without(copy[pid].tracks, refs[i].trackId))], true;
        }
      }
      assert refs[..|refs|] == refs;
    }

    static method Muted(v: View, mutes: seq<TrackMuted>) returns (copy: View, changed: bool)
      ensures copy == MuteAll(v, mutes) && (!changed ==> copy == v)
    {
      copy, changed := v, false;
      for i := 0 to |mutes|
        invariant copy == MuteAll(v, mutes[..i]) && (!changed ==> copy == v)
      {
        assert mutes[..i + 1][..i] == mutes[..i];
        var ref := mutes[i].track;
        if ref.participantId in copy {
          var p := copy[ref.participantId];
          copy, changed := copy[ref.participantId := p.(tracks := MuteOne(p.tracks, ref.trackId, mutes[i].muted))], true;
        }
      }
      assert mutes[..|mutes|] == mutes;
    }

    method SubscribeToRemoteTracks()
      modifies `requested, `subRevision, `sent
      ensures var (cl, said) := Subscribe(old(Value()), open);
              Value() == cl && sent == old(sent) + said
    {
      if !open || !joined {
        return;
      }
      var desired := Collect(participants, Listed(participants.Keys), selfId);
      var (upsert, remove) := Diff(desired, requested);
      assert Subscribe(Value(), open) == Ask(Value(), upsert, remove);
      SendDifference(upsert, remove);
    }

    method SendDifference(upsert: seq<WireSubscription>, remove: seq<TrackRef>)
      modifies `requested, `subRevision, `sent
      ensures var (cl, said) := Ask(old(Value()), upsert, remove);
              Value() == cl && sent == old(sent) + said
    {
      if upsert == [] && remove == [] {
        return;
      }
      requested := Record(requested, upsert, remove);
      subRevision := subRevision + 1;
      sent := sent + [UpdateSubscriptions(upsert, remove, subRevision)];
    }

    static method CollectFrom(before: map<string, Wanted>, pid: string, ts: seq<Track>) returns (desired: map<string, Wanted>)
      ensures desired == WantFrom(before, pid, ts)
    {
      desired := before;
      for j := 0 to |ts|
        invariant desired == WantFrom(before, pid, ts[..j])
      {
        assert ts[..j + 1][..j] == ts[..j];
        var ref := TrackRef(pid, ts[j].id);
        desired := desired[Key(ref) := Wanted(ref, ts[j].kind)];
      }
      assert ts[..|ts|] == ts;
    }

    /** Every track of every participant but the client itself, by key. */
    static method Collect(v: View, ids: seq<string>, self: string) returns (desired: map<string, Wanted>)
      requires forall i :: 0 <= i < |ids| ==> ids[i] in v
      ensures desired == WantAll(v, ids, self)
    {
      desired := map[];
      for i := 0 to |ids|
        invariant desired == WantAll(v, ids[..i], self)
      {
        assert ids[..i + 1][..i] == ids[..i];
        var p := v[ids[i]];
        if p.id != self {
          desired := CollectFrom(desired, p.id, p.tracks);
        }
      }
      assert ids[..|ids|] == ids;
    }

    /** The record after asking: additions first, then removals. */
    static method Record(requested: set<string>, upsert: seq<WireSubscription>, remove: seq<TrackRef>)
      returns (r: set<string>)
      ensures r == Recorded(requested, upsert, remove)
    {
      r := requested;
      for i := 0 to |upsert|
        invariant r == requested + (set s | s in upsert[..i] && s.track.Some? :: Key(s.track.value))
      {
        assert upsert[..i + 1] == upsert[..i] + [upsert[i]];
        if upsert[i].track.Some? {
          r := r + {Key(upsert[i].track.value)};
        }
      }
      assert upsert[..|upsert|] == upsert;
      ghost var added := r;
      for i := 0 to |remove|
        invariant r == added - (set t | t in remove[..i] :: Key(t))
      {
        assert remove[..i + 1] == remove[..i] + [remove[i]];
        r := r - {Key(remove[i])};
      }
      assert remove[..|remove|] == remove;
    }
  }
}
