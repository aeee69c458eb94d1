/**
 * The ICE-lite agent: which requests it accepts, what it tracks and selects, and
 * what holds over every run with a clock that does not go back.
 */
module IceAgents {
  import opened Bytes
  import opened IceTable
  import opened Wrappers

  /** UTF-8 text by its octets. */
  type Text = seq<byte>

  const COLON: byte := 0x3A

  datatype Role = Controlling | Controlled

  /** What a Binding request carries, as far as the agent looks at it. */
  datatype Request = Request(
    username: Option<Text>,
    hasIntegrity: bool,
    verifies: bool, // under the local password
    unknownRequired: bool, // an attribute that must be understood and is not
    role: Option<Role>,
    useCandidate: bool)

  datatype Reply = Success(mapped: Addr) | Error(code: nat, signed: bool)

  datatype Agent = Agent(
    localUfrag: Text,
    remoteUfrag: Option<Text>,
    selected: Option<Addr>,
    slots: Slots,
    nonStun: nat,
    malformed: nat,
    rejected: nat,
    checks: nat,
    nominations: nat)

  function NewAgent(localUfrag: Text, remoteUfrag: Option<Text>): Agent {
    Agent(localUfrag, remoteUfrag, None, seq(MAX_PAIRS, i => None), 0, 0, 0, 0, 0)
  }

  /** The reply to a request and the address newly nominated by it, if any. */
  datatype Handled = Handled(agent: Agent, reply: Reply, nominated: Option<Addr>)

  /** Our ufrag, a colon, and the peer's ufrag, or anything non-empty while that is unknown. */
  predicate UsernameValid(a: Agent, username: Text) {
    && |username| > |a.localUfrag|
    && username[..|a.localUfrag|] == a.localUfrag && username[|a.localUfrag|] == COLON
    && var remote := username[|a.localUfrag| + 1..];
       if a.remoteUfrag.Some? then remote == a.remoteUfrag.value else remote != []
  }

  /** The reason to refuse a request, in the order in which reasons are looked for. */
  function Refusal(a: Agent, q: Request): Option<Reply> {
    if q.username.None? || !q.hasIntegrity then Some(Error(400, false))
    else if !UsernameValid(a, q.username.value) then Some(Error(401, false))
    else if !q.verifies then Some(Error(401, false))
    else if q.unknownRequired then Some(Error(420, true))
    else if q.role == Some(Controlled) then Some(Error(487, true))
    else if q.role == None then Some(Error(400, true))
    else None
  }

  /** The request proves knowledge of the local password and names this session. */
  predicate Authenticated(a: Agent, q: Request) {
    q.username.Some? && q.hasIntegrity && UsernameValid(a, q.username.value) && q.verifies
  }

  function OnRequest(a: Agent, q: Request, remote: Addr, now: nat): Handled {
    var no := Refusal(a, q);
    if no.Some? then Handled(a.(rejected := a.rejected + 1), no.value, None)
    else
      var a1 := a.(slots := Touch(a.slots, remote, now), checks := a.checks + 1);
      if q.useCandidate && a.selected != Some(remote) then
        Handled(a1.(selected := Some(remote), nominations := a1.nominations + 1), Success(remote), Some(remote))
      else Handled(a1, Success(remote), None)
  }

  /** A keepalive refreshes a known pair and creates none. */
  function OnIndication(a: Agent, remote: Addr, now: nat): Agent {
    if IndexOf(a.slots, remote, 0) < |a.slots| || a.selected == Some(remote) then
      a.(slots := Touch(a.slots, remote, now))
    else a
  }

  function OnTimeout(a: Agent, now: nat): Agent {
    a.(slots := Expire(a.slots, a.selected, now))
  }

  /** Learning the remote ufrag, or a new one, flushes pairs and nomination. */
  function Restarted(a: Agent, ufrag: Text): Agent {
    if a.remoteUfrag == Some(ufrag) then a
    else a.(remoteUfrag := Some(ufrag), slots := seq(|a.slots|, i => None), selected := None)
  }

  // ── Runs ──────────────────────────────────────────────────────────────

  datatype Event =
    | Requested(q: Request, remote: Addr, at: nat)
    | Indicated(remote: Addr, at: nat)
    | TimedOut(at: nat)
    | RemoteUfrag(ufrag: Text)

  /**
   * The agent, the latest instant it was told, the addresses that sent an
   * authenticated request since the remote ufrag last changed, and the
   * nominations announced, in order.
   */
  datatype State = State(agent: Agent, clock: nat, proven: set<Addr>, announced: seq<Addr>)

  function Start(localUfrag: Text, remoteUfrag: Option<Text>): State {
    State(NewAgent(localUfrag, remoteUfrag), 0, {}, [])
  }

  /** Is this event no earlier than the last? */
  predicate InTime(s: State, e: Event) {
    e.RemoteUfrag? || e.at >= s.clock
  }

  function Step(s: State, e: Event): State {
    match e
    case Requested(q, remote, at) =>
      var h := OnRequest(s.agent, q, remote, at);
      State(h.agent, at, if Authenticated(s.agent, q) then s.proven + {remote} else s.proven,
            if h.nominated.Some? then s.announced + [h.nominated.value] else s.announced)
    case Indicated(remote, at) => s.(agent := OnIndication(s.agent, remote, at), clock := at)
    case TimedOut(at) => s.(agent := OnTimeout(s.agent, at), clock := at)
    case RemoteUfrag(ufrag) =>
      s.(agent := Restarted(s.agent, ufrag), proven := if s.agent.remoteUfrag == Some(ufrag) then s.proven else {})
  }

  function Run(localUfrag: Text, remoteUfrag: Option<Text>, events: seq<Event>): State {
    if events == [] then Start(localUfrag, remoteUfrag)
    else
      var s, e := Run(localUfrag, remoteUfrag, events[..|events| - 1]), events[|events| - 1];
      if InTime(s, e) then Step(s, e) else s
  }

  ghost predicate TrackedProven(s: State) {
    forall a :: Tracked(s.agent.slots, a) ==> a in s.proven
  }

  /** At most 64 pairs, no address twice, none from the future; tracked and selected addresses are proven. */
  ghost predicate Invariant(s: State) {
    && |s.agent.slots| == MAX_PAIRS && Distinct(s.agent.slots) && SeenBy(s.agent.slots, s.clock)
    && TrackedProven(s)
    && (s.agent.selected.Some? ==> s.agent.selected.value in s.proven)
  }

  lemma EmptyTracksNothing(slots: Slots)
    requires forall i :: 0 <= i < |slots| ==> slots[i].None?
    ensures Distinct(slots) && forall a :: !Tracked(slots, a)
  {
  }

  lemma TouchStep(s: State, remote: Addr, at: nat, s': State)
    requires Invariant(s) && at >= s.clock && s.proven <= s'.proven && remote in s'.proven
    requires s'.agent.slots == Touch(s.agent.slots, remote, at) && s'.clock == at
    requires s'.agent.selected == s.agent.selected || s'.agent.selected == Some(remote)
    ensures Invariant(s')
  {
    TouchKeeps(s.agent.slots, remote, at);
    forall a | Tracked(s'.agent.slots, a) ensures a in s'.proven {
      if a != remote { assert Tracked(s.agent.slots, a); }
    }
  }

  lemma RequestStep(s: State, q: Request, remote: Addr, at: nat)
    requires Invariant(s) && at >= s.clock
    ensures Invariant(Step(s, Requested(q, remote, at)))
  {
    var s' := Step(s, Requested(q, remote, at));
    if Refusal(s.agent, q).None? {
      TouchStep(s, remote, at, s');
    } else {
      assert s'.agent.slots == s.agent.slots;
    }
  }

  lemma IndicationStep(s: State, remote: Addr, at: nat)
    requires Invariant(s) && at >= s.clock
    ensures Invariant(Step(s, Indicated(remote, at)))
  {
    var s' := Step(s, Indicated(remote, at));
    var i := IndexOf(s.agent.slots, remote, 0);
    if i < |s.agent.slots| || s.agent.selected == Some(remote) {
      if i < |s.agent.slots| { assert Tracked(s.agent.slots, remote); }
      TouchStep(s, remote, at, s');
    }
  }

  lemma TimeoutStep(s: State, at: nat)
    requires Invariant(s) && at >= s.clock
    ensures Invariant(Step(s, TimedOut(at)))
  {
    ExpiredIsFresh(s.agent.slots, s.agent.selected, at);
  }

  lemma UfragStep(s: State, ufrag: Text)
    requires Invariant(s)
    ensures Invariant(Step(s, RemoteUfrag(ufrag)))
  {
    if s.agent.remoteUfrag != Some(ufrag) {
      EmptyTracksNothing(seq(|s.agent.slots|, i => None));
    }
  }

  /**
   * Over every run: pairs are unique and at most 64, and every tracked or
   * selected address sent an authenticated request since the remote ufrag last
   * changed.
   */
  lemma {:induction false} RunKeeps(localUfrag: Text, remoteUfrag: Option<Text>, events: seq<Event>)
    ensures Invariant(Run(localUfrag, remoteUfrag, events))
  {
    if events == [] {
      EmptyTracksNothing(NewAgent(localUfrag, remoteUfrag).slots);
    } else {
      var s, e := Run(localUfrag, remoteUfrag, events[..|events| - 1]), events[|events| - 1];
      RunKeeps(localUfrag, remoteUfrag, events[..|events| - 1]);
      if InTime(s, e) {
        match e {
          case Requested(q, remote, at) => RequestStep(s, q, remote, at);
          case Indicated(remote, at) => IndicationStep(s, remote, at);
          case TimedOut(at) => TimeoutStep(s, at);
          case RemoteUfrag(ufrag) => UfragStep(s, ufrag);
        }
      }
    }
  }

  /**
   * A nomination is announced exactly when the selection changes to another
   * address, and it is that address; a restart clears it silently.
   */
  lemma NominationIff(s: State, e: Event)
    ensures var s' := Step(s, e);
            if s'.agent.selected.Some? && s'.agent.selected != s.agent.selected
            then s'.announced == s.announced + [s'.agent.selected.value] && s'.agent.nominations == s.agent.nominations + 1
            else s'.announced == s.announced && s'.agent.nominations == s.agent.nominations
  {
    if e.Requested? && Refusal(s.agent, e.q).None? && e.q.useCandidate && s.agent.selected != Some(e.remote) {
      assert OnRequest(s.agent, e.q, e.remote, e.at).nominated == Some(e.remote);
    }
  }

  /** A request is accepted exactly when it is authenticated, understood, and from a controlling peer. */
  lemma AcceptedIff(a: Agent, q: Request, remote: Addr, now: nat)
    ensures OnRequest(a, q, remote, now).reply.Success? <==>
              Authenticated(a, q) && !q.unknownRequired && q.role == Some(Controlling)
    ensures OnRequest(a, q, remote, now).reply.Error? ==>
              OnRequest(a, q, remote, now).agent == a.(rejected := a.rejected + 1)
    ensures OnRequest(a, q, remote, now).reply.Error? && !Authenticated(a, q) ==>
              !OnRequest(a, q, remote, now).reply.signed
  {
    assert q.role.Some? ==> q.role.value == Controlling || q.role.value == Controlled;
  }

  /** An accepted request's address is tracked afterwards as seen now, even when the table was full. */
  lemma AcceptedIsTracked(s: State, q: Request, remote: Addr, at: nat)
    requires Invariant(s) && at >= s.clock && Refusal(s.agent, q).None?
    ensures var slots := Step(s, Requested(q, remote, at)).agent.slots;
            exists i :: Holds(slots, i, remote) && slots[i].value.lastSeen == at
  {
    TouchKeeps(s.agent.slots, remote, at);
    assert Holds(Touch(s.agent.slots, remote, at), Place(s.agent.slots, remote, at), remote);
  }

  // ── The agent object ──────────────────────────────────────────────────

  class IceLiteAgent {
    const localUfrag: Text
    var remoteUfrag: Option<Text>
    var selected: Option<Addr>
    const pairs: array<Option<Pair>>
    var nonStun: nat
    var malformed: nat
    var rejected: nat
    var checks: nat
    var nominations: nat

    ghost function Value(): Agent
      reads this, pairs
    {
      Agent(localUfrag, remoteUfrag, selected, pairs[..], nonStun, malformed, rejected, checks, nominations)
    }

    constructor (ufrag: Text, remote: Option<Text>)
      ensures Value() == NewAgent(ufrag, remote)
      ensures fresh(pairs)
    {
      localUfrag, remoteUfrag, selected := ufrag, remote, None;
      pairs := new Option<Pair>[MAX_PAIRS](i => None);
      nonStun, malformed, rejected, checks, nominations := 0, 0, 0, 0, 0;
    }

    method Locate(remote: Addr) returns (i: nat)
      ensures i == IndexOf(pairs[..], remote, 0)
    {
      i := 0;
      while i < pairs.Length && !(pairs[i].Some? && pairs[i].value.remote == remote)
        invariant i <= pairs.Length
        invariant IndexOf(pairs[..], remote, 0) == IndexOf(pairs[..], remote, i)
      {
        i := i + 1;
      }
    }

    method LocateFree() returns (i: nat)
      ensures i == FirstFree(pairs[..], 0)
    {
      i := 0;
      while i < pairs.Length && pairs[i].Some?
        invariant i <= pairs.Length
        invariant FirstFree(pairs[..], 0) == FirstFree(pairs[..], i)
      {
        i := i + 1;
      }
    }

    method LocateOldest(now: nat) returns (oldest: nat)
      ensures oldest == Oldest(pairs[..], pairs.Length, now)
    {
      oldest := pairs.Length;
      var oldestSeen := now;
      for i := 0 to pairs.Length
        invariant oldest == Oldest(pairs[..], i, now)
        invariant oldestSeen == if oldest < i then pairs[oldest].value.lastSeen else now
      {
        if pairs[i].Some? && pairs[i].value.lastSeen <= oldestSeen {
          oldestSeen := pairs[i].value.lastSeen;
          oldest := i;
        }
      }
    }

    method Touch(remote: Addr, now: nat)
      modifies pairs
      ensures pairs[..] == IceTable.Touch(old(pairs[..]), remote, now)
    {
      var i := Locate(remote);
      if i < pairs.Length {
        pairs[i] := Some(Pair(remote, now));
        return;
      }
      i := LocateFree();
      if i < pairs.Length {
        pairs[i] := Some(Pair(remote, now));
        return;
      }
      i := LocateOldest(now);
      if i < pairs.Length {
        pairs[i] := Some(Pair(remote, now));
      }
    }

    method OnBindingRequest(q: Request, remote: Addr, now: nat) returns (reply: Reply, nominated: Option<Addr>)
      modifies this, pairs
      ensures Handled(Value(), reply, nominated) == OnRequest(old(Value()), q, remote, now)
    {
      nominated := None;
      var no := Refusal(Agent(localUfrag, remoteUfrag, selected, [], 0, 0, 0, 0, 0), q);
      if no.Some? {
        reply := no.value;
        rejected := rejected + 1;
        return;
      }
      Touch(remote, now);
      checks := checks + 1;
      reply := Success(remote);
      if q.useCandidate && selected != Some(remote) {
        selected := Some(remote);
        nominations := nominations + 1;
        nominated := Some(remote);
      }
    }

    method OnBindingIndication(remote: Addr, now: nat)
      modifies pairs
      ensures Value() == OnIndication(old(Value()), remote, now)
    {
      var i := Locate(remote);
      if i < pairs.Length || selected == Some(remote) {
        Touch(remote, now);
      }
    }

    method HandleTimeout(now: nat)
      modifies pairs
      ensures Value() == OnTimeout(old(Value()), now)
    {
      for i := 0 to pairs.Length
        invariant forall j :: 0 <= j < i ==> pairs[j] == (if Stale(old(pairs[j]), selected, now) then None else old(pairs[j]))
        invariant forall j :: i <= j < pairs.Length ==> pairs[j] == old(pairs[j])
      {
        if Stale(pairs[i], selected, now) {
          pairs[i] := None;
        }
      }
      assert pairs[..] == Expire(old(pairs[..]), selected, now);
    }

    method PollTimeout() returns (r: Option<nat>)
      ensures r == IceTable.PollTimeout(pairs[..], selected)
    {
      r := None;
      for i := 0 to pairs.Length
        invariant r == Deadline(pairs[..], selected, i)
      {
        if Timed(pairs[i], selected) {
          r := Earlier(r, pairs[i].value.lastSeen + PAIR_TTL);
        }
      }
    }

    method SetRemoteUfrag(ufrag: Text)
      modifies this, pairs
      ensures Value() == Restarted(old(Value()), ufrag)
    {
      if remoteUfrag == Some(ufrag) {
        return;
      }
      remoteUfrag := Some(ufrag);
      for i := 0 to pairs.Length
        modifies pairs
        invariant forall j :: 0 <= j < i ==> pairs[j] == None
      {
        pairs[i] := None;
      }
      selected := None;
      assert pairs[..] == seq(pairs.Length, i => None);
    }
  }
}
