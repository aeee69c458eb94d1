/**
 * What a caller of the room registry finds afterwards: what each operation
 * stored and reported, and that it touched nothing else.
 */
module RoomEffects {
  import opened Maps
  import opened Rooms
  import opened Wrappers
  import KeyOrder
  import Registries

  /** Every entry but one participant's is as it was, and no id was given out. */
  ghost predicate OnlyTouches(d: Directory, d': Directory, room: string, pid: string) {
    && d'.nextSeq == d.nextSeq
    && (forall r, p :: (r, p) != (room, pid) ==> (Present(d', r, p) <==> Present(d, r, p)))
    && (forall r, p :: (r, p) != (room, pid) && Present(d, r, p) ==> d'.rooms[r][p] == d.rooms[r][p])
  }

  lemma SetOnlyTouches(d: Directory, room: string, pid: string, m: Member)
    requires Present(d, room, pid)
    ensures OnlyTouches(d, SetMember(d, room, pid, m), room, pid)
    ensures Present(SetMember(d, room, pid, m), room, pid) && SetMember(d, room, pid, m).rooms[room][pid] == m
  {
  }

  // ── Joining and leaving ───────────────────────────────────────────────

  /** An admitted participant starts under the given name with nothing; nobody else changes. */
  lemma JoinAdds(d: Directory, room: string, name: string)
    requires Sound(d) && Join(d, room, name).1.Ok?
    ensures var (d', r) := Join(d, room, name);
            && r.value == "p" + KeyOrder.Decimal(d.nextSeq) && d'.nextSeq == d.nextSeq + 1
            && !Present(d, room, r.value) && Present(d', room, r.value)
            && d'.rooms[room][r.value] == Member(name, map[], map[], None)
            && OnlyTouches(d.(nextSeq := d'.nextSeq), d', room, r.value)
  {
    NextIdIsNew(d, room);
    JoinPresence(d, room, name);
    var (d', r) := Join(d, room, name);
    var e := d.(nextSeq := d'.nextSeq);
    assert forall x, p :: Present(e, x, p) <==> Present(d, x, p);
    forall x, p | (x, p) != (room, r.value) && Present(e, x, p) ensures d'.rooms[x][p] == e.rooms[x][p] {
    }
  }

  /** Why a participant is not admitted. */
  lemma JoinRefusal(d: Directory, room: string, name: string)
    requires Join(d, room, name).1.Err?
    ensures var e := Join(d, room, name).1.error;
            if !(1 <= |room| <= 128 && 1 <= |name| <= 128) then e == InvalidInput
            else if room in d.rooms then e == RoomFull && |d.rooms[room]| >= 512
            else e == TooManyRooms && |d.rooms| >= 1024
  {
  }

  lemma LeaveTakesAway(d: Directory, room: string, pid: string)
    ensures var (d', removed) := Leave(d, room, pid);
            && removed == Present(d, room, pid) && !Present(d', room, pid)
            && OnlyTouches(d, d', room, pid)
            && (room in d'.rooms && Present(d, room, pid) ==> d'.rooms[room] != map[])
  {
    LeavePresence(d, room, pid);
  }

  // ── Tracks ────────────────────────────────────────────────────────────

  /** A cut list is the first `bound` elements, or all when there are fewer. */
  ghost predicate CutTo<T>(kept: seq<T>, given: seq<T>, bound: nat) {
    kept <= given && |kept| == if |given| < bound then |given| else bound
  }

  /** The stored metadata are the given ones, with at most 8 layers and 64 characters of mid. */
  ghost predicate Stores(stored: TrackMeta, given: TrackMeta) {
    && stored.kind == given.kind && stored.source == given.source && stored.muted == given.muted
    && CutTo(stored.layers, given.layers, 8) && CutTo(stored.mid, given.mid, 64)
  }

  ghost predicate SameButFor(before: Tracks, after: Tracks, id: string) {
    forall t :: t != id ==> (t in after <==> t in before) && (t in before ==> after[t] == before[t])
  }

  /**
   * A publish is taken exactly when the id fits, the participant is there and the
   * track is one it has or there is room for one more. It stores the given
   * metadata, whatever was stored before, and reports novelty and flag change.
   */
  lemma PublishStores(d: Directory, room: string, pid: string, id: string, meta: TrackMeta)
    ensures Publish(d, room, pid, id, meta).1.Ok? <==>
              && 1 <= |id| <= 128 && Present(d, room, pid)
              && (id in d.rooms[room][pid].tracks || |d.rooms[room][pid].tracks| < 16)
    ensures var (d', r) := Publish(d, room, pid, id, meta);
            r.Ok? ==>
              var old', new' := d.rooms[room][pid], d'.rooms[room][pid];
              && OnlyTouches(d, d', room, pid) && new' == old'.(tracks := new'.tracks)
              && id in new'.tracks && Stores(new'.tracks[id], meta) && SameButFor(old'.tracks, new'.tracks, id)
              && r.value.isNew == (id !in old'.tracks)
              && (r.value.muteChange.Some? <==> id in old'.tracks && old'.tracks[id].muted != meta.muted)
              && (r.value.muteChange.Some? ==> r.value.muteChange.value == meta.muted)
  {
    if Present(d, room, pid) {
      var m := d.rooms[room][pid];
      SetOnlyTouches(d, room, pid, m.(tracks := PublishTrack(m.tracks, id, Trimmed(meta)).0));
    }
  }

  /** A refused publish changes nothing and says why. */
  lemma PublishRefusal(d: Directory, room: string, pid: string, id: string, meta: TrackMeta)
    requires Publish(d, room, pid, id, meta).1.Err?
    ensures Publish(d, room, pid, id, meta).0 == d
    ensures Publish(d, room, pid, id, meta).1.error ==
            if !(1 <= |id| <= 128) then InvalidInput
            else if room !in d.rooms then NoSuchRoom
            else if pid !in d.rooms[room] then NoSuchParticipant
            else TooManyTracks
  {
    if Present(d, room, pid) { Registries.PutMemberBack(d, room, pid); }
  }

  /** An unpublished track is gone, and the answer says whether it was there. */
  lemma UnpublishTakesAway(d: Directory, room: string, pid: string, id: string)
    ensures var (d', r) := Unpublish(d, room, pid, id);
            if room !in d.rooms then r == Err(NoSuchRoom) && d' == d
            else if pid !in d.rooms[room] then r == Err(NoSuchParticipant) && d' == d
            else
              var old', new' := d.rooms[room][pid], d'.rooms[room][pid];
              && OnlyTouches(d, d', room, pid) && new' == old'.(tracks := new'.tracks)
              && r == Ok(id in old'.tracks) && id !in new'.tracks && SameButFor(old'.tracks, new'.tracks, id)
  {
    if Present(d, room, pid) {
      var m := d.rooms[room][pid];
      SetOnlyTouches(d, room, pid, m.(tracks := m.tracks - {id}));
    }
  }

  // ── Subscriptions ─────────────────────────────────────────────────────

  /** The i-th upsert is the last one for its track. */
  ghost predicate LastFor(upsert: seq<Subscription>, i: int, t: TrackRef) {
    0 <= i < |upsert| && upsert[i].track == t && forall j :: i < j < |upsert| ==> upsert[j].track != t
  }

  /** Exactly the tracks upserted last so, and of the others those held before and not removed. */
  ghost predicate BatchedAs(before: Subscriptions, upsert: seq<Subscription>, remove: seq<TrackRef>, after: Subscriptions) {
    && (forall i, t :: LastFor(upsert, i, t) ==> t in after && after[t] == upsert[i])
    && (forall t :: (forall i :: 0 <= i < |upsert| ==> upsert[i].track != t) ==>
          && (t in after <==> t in before && t !in remove)
          && (t in after ==> after[t] == before[t]))
  }

  lemma {:induction false} UpsertedLast(subs: Subscriptions, upsert: seq<Subscription>, i: int, t: TrackRef)
    requires LastFor(upsert, i, t)
    ensures t in Upserted(subs, upsert) && Upserted(subs, upsert)[t] == upsert[i]
  {
    var n := |upsert| - 1;
    if i < n {
      assert upsert[n].track != t;
      UpsertedLast(subs, upsert[..n], i, t);
    }
  }

  lemma {:induction false} UpsertedOther(subs: Subscriptions, upsert: seq<Subscription>, t: TrackRef)
    requires forall i :: 0 <= i < |upsert| ==> upsert[i].track != t
    ensures t in Upserted(subs, upsert) <==> t in subs
    ensures t in subs ==> Upserted(subs, upsert)[t] == subs[t]
  {
    if upsert != [] { UpsertedOther(subs, upsert[..|upsert| - 1], t); }
  }

  lemma BatchedIs(subs: Subscriptions, upsert: seq<Subscription>, remove: seq<TrackRef>)
    ensures BatchedAs(subs, upsert, remove, Batched(subs, upsert, remove))
  {
    var kept := subs - (set t | t in remove);
    forall i, t | LastFor(upsert, i, t)
      ensures t in Batched(subs, upsert, remove) && Batched(subs, upsert, remove)[t] == upsert[i]
    {
      UpsertedLast(kept, upsert, i, t);
    }
    forall t | forall i :: 0 <= i < |upsert| ==> upsert[i].track != t
      ensures t in Batched(subs, upsert, remove) <==> t in subs && t !in remove
      ensures t in Batched(subs, upsert, remove) ==> Batched(subs, upsert, remove)[t] == subs[t]
    {
      UpsertedOther(kept, upsert, t);
    }
  }

  /** There is one such table. */
  lemma BatchedIsUnique(before: Subscriptions, upsert: seq<Subscription>, remove: seq<TrackRef>, a: Subscriptions, b: Subscriptions)
    requires BatchedAs(before, upsert, remove, a) && BatchedAs(before, upsert, remove, b)
    ensures a == b
  {
    forall t ensures (t in a <==> t in b) && (t in a ==> a[t] == b[t]) {
      if i :| 0 <= i < |upsert| && upsert[i].track == t {
        var last := LastOf(upsert, t, i);
      }
    }
  }

  lemma {:induction false} LastOf(upsert: seq<Subscription>, t: TrackRef, i: nat) returns (last: nat)
    requires i < |upsert| && upsert[i].track == t
    ensures LastFor(upsert, last, t)
    decreases |upsert| - i
  {
    if j :| i < j < |upsert| && upsert[j].track == t {
      last := LastOf(upsert, t, j);
    } else {
      last := i;
    }
  }

  /**
   * A batch is stale exactly when its revision is not above the one applied last,
   * and refused exactly when what it comes to is over 2048; otherwise it is applied
   * whole and its revision remembered. Refused or stale, nothing changes.
   */
  lemma UpdateApplies(d: Directory, room: string, pid: string,
                      upsert: seq<Subscription>, remove: seq<TrackRef>, revision: nat, after: Subscriptions)
    requires Present(d, room, pid) && BatchedAs(d.rooms[room][pid].subscriptions, upsert, remove, after)
    ensures var (d', r) := UpdateSubscriptions(d, room, pid, upsert, remove, revision);
            var m := d.rooms[room][pid];
            if m.applied.Some? && revision <= m.applied.value then
              r == Err(StaleRevision(m.applied.value)) && d' == d
            else if |after| > 2048 then r == Err(TooManySubscriptions) && d' == d
            else
              && r == Ok(revision) && OnlyTouches(d, d', room, pid) && Present(d', room, pid)
              && d'.rooms[room][pid] == m.(subscriptions := after, applied := Some(revision))
  {
    var m := d.rooms[room][pid];
    BatchedIs(m.subscriptions, upsert, remove);
    BatchedIsUnique(m.subscriptions, upsert, remove, after, Batched(m.subscriptions, upsert, remove));
    SetOnlyTouches(d, room, pid, UpdateMember(m, upsert, remove, revision).0);
    Registries.PutMemberBack(d, room, pid);
  }

  /** For somebody who is not there nothing is applied. */
  lemma UpdateOfAbsent(d: Directory, room: string, pid: string,
                       upsert: seq<Subscription>, remove: seq<TrackRef>, revision: nat)
    requires !Present(d, room, pid)
    ensures UpdateSubscriptions(d, room, pid, upsert, remove, revision) ==
            (d, Err(if room in d.rooms then NoSuchParticipant else NoSuchRoom))
  {
  }
}
