/** The client's string keys for remote tracks, and taking them apart again. */
module SubscriptionKeys {
  import opened KeyOrder
  import opened Rooms

  function Key(r: TrackRef): string {
    r.participantId + "/" + r.trackId
  }

  /** Up to the first slash. */
  function Head(s: string): string {
    if s == "" || s[0] == '/' then "" else [s[0]] + Head(s[1..])
  }

  /** After the first slash. */
  function Rest(s: string): string {
    if s == "" then "" else if s[0] == '/' then s[1..] else Rest(s[1..])
  }

  /** The first two parts of a key split at its slashes, as a track reference. */
  function Unkey(key: string): TrackRef {
    TrackRef(Head(key), Head(Rest(key)))
  }

  predicate SlashFree(s: string) {
    '/' !in s
  }

  lemma {:induction false} HeadAndRest(a: string, b: string)
    requires SlashFree(a)
    ensures Head(a + "/" + b) == a && Rest(a + "/" + b) == b
  {
    if a != "" {
      assert a[0] in a && a[0] != '/';
      assert (a + "/" + b)[1..] == a[1..] + "/" + b;
      assert SlashFree(a[1..]);
      HeadAndRest(a[1..], b);
      assert a == [a[0]] + a[1..];
    } else {
      assert (a + "/" + b)[1..] == b;
    }
  }

  lemma {:induction false} HeadIsSlashFree(s: string)
    ensures SlashFree(Head(s))
    ensures Head(s) == s <==> SlashFree(s)
  {
    if s != "" {
      HeadIsSlashFree(s[1..]);
      assert s == [s[0]] + s[1..];
      assert s[0] == '/' ==> s[0] in s;
    }
  }

  /** Splitting a key gives the track back exactly when the track id has no slash. */
  lemma UnkeyIff(r: TrackRef)
    requires SlashFree(r.participantId)
    ensures Unkey(Key(r)) == r <==> SlashFree(r.trackId)
    ensures SlashFree(Unkey(Key(r)).trackId)
  {
    HeadAndRest(r.participantId, r.trackId);
    HeadIsSlashFree(r.trackId);
  }

  lemma KeyInjective(r: TrackRef, s: TrackRef)
    requires SlashFree(r.participantId) && SlashFree(s.participantId) && Key(r) == Key(s)
    ensures r == s
  {
    HeadAndRest(r.participantId, r.trackId);
    HeadAndRest(s.participantId, s.trackId);
  }

  /** Ids the server gives out have no slash. */
  lemma IssuedSlashFree(n: nat)
    ensures SlashFree(ParticipantId(n))
  {
    var d := Decimal(n);
    forall i | 0 <= i < |ParticipantId(n)| ensures ParticipantId(n)[i] != '/' {
      if i > 0 { assert ParticipantId(n)[i] == d[i - 1]; }
    }
  }
}
