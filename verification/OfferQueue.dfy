/**
 * Subscriber offers that arrive while one is being applied: only the newest
 * waits, and offers are applied one at a time. The handler runs between awaits,
 * so an arrival and the end of an application are its steps.
 */
module OfferQueue {
  import opened Wrappers

  /** An offer, by its position among the arrivals. */
  datatype Offer = Offer(index: nat, sdp: string)

  datatype Queue = Queue(pending: Option<Offer>, current: Option<Offer>)

  datatype Event = Arrived(sdp: string) | Settled // applied or failed

  /** The queue with everything that arrived and everything whose application began. */
  datatype State = State(queue: Queue, arrivals: seq<string>, begun: seq<Offer>)

  const IDLE := State(Queue(None, None), [], [])

  /** Take the waiting offer, if there is one. */
  function Begin(s: State): State {
    if s.queue.pending.None? then s.(queue := Queue(None, None))
    else s.(queue := Queue(None, s.queue.pending), begun := s.begun + [s.queue.pending.value])
  }

  function Step(s: State, e: Event): State {
    match e
    case Arrived(sdp) =>
      var s1 := s.(queue := s.queue.(pending := Some(Offer(|s.arrivals|, sdp))), arrivals := s.arrivals + [sdp]);
      if s.queue.current.Some? then s1 else Begin(s1)
    case Settled => if s.queue.current.None? then s else Begin(s)
  }

  function Run(events: seq<Event>): State {
    if events == [] then IDLE else Step(Run(events[..|events| - 1]), events[|events| - 1])
  }

  predicate IsArrival(s: State, o: Offer) {
    o.index < |s.arrivals| && s.arrivals[o.index] == o.sdp
  }

  /** Has this arrival begun to be applied, or is it waiting? */
  ghost predicate Live(s: State, i: nat) {
    (exists k :: 0 <= k < |s.begun| && s.begun[k].index == i) || (s.queue.pending.Some? && s.queue.pending.value.index == i)
  }

  ghost predicate Invariant(s: State) {
    && (forall k :: 0 <= k < |s.begun| ==> IsArrival(s, s.begun[k]))
    && (forall j, k :: 0 <= j < k < |s.begun| ==> s.begun[j].index < s.begun[k].index)
    && (s.queue.pending.Some? ==>
          && IsArrival(s, s.queue.pending.value) && s.queue.current.Some?
          && s.queue.pending.value.index == |s.arrivals| - 1
          && forall k :: 0 <= k < |s.begun| ==> s.begun[k].index < s.queue.pending.value.index)
    && (s.queue.current.Some? ==> s.begun != [] && s.begun[|s.begun| - 1] == s.queue.current.value)
    && (s.queue.pending.None? && s.arrivals != [] ==> s.begun != [] && s.begun[|s.begun| - 1].index == |s.arrivals| - 1)
  }

  lemma BeginKeeps(s: State)
    requires && (forall k :: 0 <= k < |s.begun| ==> IsArrival(s, s.begun[k]))
             && (forall j, k :: 0 <= j < k < |s.begun| ==> s.begun[j].index < s.begun[k].index)
    requires s.queue.pending.Some? ==>
               && IsArrival(s, s.queue.pending.value) && s.queue.pending.value.index == |s.arrivals| - 1
               && forall k :: 0 <= k < |s.begun| ==> s.begun[k].index < s.queue.pending.value.index
    requires s.queue.pending.None? && s.arrivals != [] ==> s.begun != [] && s.begun[|s.begun| - 1].index == |s.arrivals| - 1
    ensures Invariant(Begin(s))
  {
  }

  lemma StepKeeps(s: State, e: Event)
    requires Invariant(s)
    ensures Invariant(Step(s, e))
  {
    match e {
      case Arrived(sdp) =>
        var s1 := s.(queue := s.queue.(pending := Some(Offer(|s.arrivals|, sdp))), arrivals := s.arrivals + [sdp]);
        forall k | 0 <= k < |s.begun| ensures IsArrival(s1, s1.begun[k]) { assert IsArrival(s, s.begun[k]); }
        if s.queue.current.None? { BeginKeeps(s1); }
      case Settled => if s.queue.current.Some? { BeginKeeps(s); }
    }
  }

  lemma {:induction false} RunKeeps(events: seq<Event>)
    ensures Invariant(Run(events))
  {
    if events != [] {
      RunKeeps(events[..|events| - 1]);
      StepKeeps(Run(events[..|events| - 1]), events[|events| - 1]);
    }
  }

  /**
   * For every interleaving: what was begun is a subsequence of what arrived, in
   * order and with the offer's own text; an offer that was not begun is waiting
   * or has a later one that was begun or waits; and when the handler is idle the
   * last to arrive is the last begun.
   */
  lemma OffersCoalesce(events: seq<Event>)
    ensures var s := Run(events);
            && (forall k :: 0 <= k < |s.begun| ==> IsArrival(s, s.begun[k]))
            && (forall j, k :: 0 <= j < k < |s.begun| ==> s.begun[j].index < s.begun[k].index)
            && (forall i :: 0 <= i < |s.arrivals| && !Live(s, i) ==> exists j :: i < j < |s.arrivals| && Live(s, j))
            && (s.queue.current.None? && s.arrivals != [] ==>
                  s.begun != [] && s.begun[|s.begun| - 1] == Offer(|s.arrivals| - 1, s.arrivals[|s.arrivals| - 1]))
  {
    RunKeeps(events);
    var s := Run(events);
    if s.arrivals != [] {
      var last := |s.arrivals| - 1;
      assert Live(s, last);
      forall i | 0 <= i < |s.arrivals| && !Live(s, i) ensures exists j :: i < j < |s.arrivals| && Live(s, j) {
        assert i < last;
      }
    }
    if s.begun != [] { assert IsArrival(s, s.begun[|s.begun| - 1]); }
  }

  /** How many applications have ended. */
  function Ended(events: seq<Event>): nat {
    if events == [] then 0
    else
      var front, last := events[..|events| - 1], events[|events| - 1];
      Ended(front) + if last.Settled? && Run(front).queue.current.Some? then 1 else 0
  }

  /**
   * For every interleaving offers are applied one at a time: as many have begun as
   * have ended, and one more exactly while the handler is busy; and nothing waits
   * while it is idle.
   */
  lemma {:induction false} OneAtATime(events: seq<Event>)
    ensures var s := Run(events);
            && |s.begun| == Ended(events) + (if s.queue.current.Some? then 1 else 0)
            && (s.queue.current.None? ==> s.queue.pending.None?)
  {
    RunKeeps(events);
    if events != [] {
      OneAtATime(events[..|events| - 1]);
      RunKeeps(events[..|events| - 1]);
    }
  }

  /** The handler's two flags: one offer text waiting, and whether an application is under way. */
  class OfferHandler {
    var subscriberOfferPending: Option<string>
    var subscriberOfferBusy: bool
    var applying: string
    ghost var state: State

    ghost predicate Valid()
      reads this
    {
      && Invariant(state)
      && subscriberOfferPending == (if state.queue.pending.Some? then Some(state.queue.pending.value.sdp) else None)
      && (subscriberOfferBusy <==> state.queue.current.Some?)
      && (state.queue.current.Some? ==> applying == state.queue.current.value.sdp)
    }

    constructor ()
      ensures Valid() && state == IDLE
    {
      subscriberOfferPending, subscriberOfferBusy, applying, state := None, false, "", IDLE;
    }

    /** An offer arrives: it replaces the one waiting, and starts the loop unless it runs already. */
    method HandleRemoteDescription(sdp: string)
      requires Valid()
      modifies this
      ensures Valid() && state == Step(old(state), Arrived(sdp))
    {
      StepKeeps(state, Arrived(sdp));
      state := Step(state, Arrived(sdp));
      subscriberOfferPending := Some(sdp);
      if subscriberOfferBusy {
        return;
      }
      subscriberOfferBusy := true;
      TakeNext();
    }

    /** The offer being applied has succeeded or failed: the loop goes on or ends. */
    method ApplicationSettled()
      requires Valid()
      modifies this
      ensures Valid() && state == Step(old(state), Settled)
    {
      StepKeeps(state, Settled);
      state := Step(state, Settled);
      if subscriberOfferBusy {
        TakeNext();
      }
    }

    /** The loop's head. */
    method TakeNext()
      requires subscriberOfferBusy
      modifies `subscriberOfferPending, `subscriberOfferBusy, `applying
      ensures subscriberOfferPending.None?
      ensures old(subscriberOfferPending).Some? ==> subscriberOfferBusy && applying == old(subscriberOfferPending).value
      ensures old(subscriberOfferPending).None? ==> !subscriberOfferBusy
    {
      if subscriberOfferPending.Some? {
        applying := subscriberOfferPending.value;
        subscriberOfferPending := None;
      } else {
        subscriberOfferBusy := false;
      }
    }
  }
}
