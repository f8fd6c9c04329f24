/** The swap routes: proposing a swap of two slots, answering a proposal, and
    listing a user's proposals. Each handler checks everything before it writes
    and then applies all of its writes in one transaction, so each is modelled
    as one specification function over the whole store (Propose, Respond) and
    one method that performs the same steps on a Database. */
module Swaps {
  import opened Domain
  import opened Store

  /** Both ids were sent, both slots exist, the caller owns the first and not
      the second, and both are open for swapping. */
  predicate CanPropose(s: State, caller: UserId, mySlotId: Option<EventId>, theirSlotId: Option<EventId>)
  {
    && mySlotId.Some? && theirSlotId.Some?
    && mySlotId.value in s.events && theirSlotId.value in s.events
    && s.events[mySlotId.value].owner == caller
    && s.events[theirSlotId.value].owner != caller
    && s.events[mySlotId.value].status == Swappable
    && s.events[theirSlotId.value].status == Swappable
  }

  /** POST /swap-request by `caller`; `id` is the id the new request receives. */
  function Propose(s: State, caller: UserId, mySlotId: Option<EventId>, theirSlotId: Option<EventId>, id: SwapId): (r: Result<State>)
    requires id !in s.swaps
    ensures r.Ok? <==> CanPropose(s, caller, mySlotId, theirSlotId)
    // the checks run in a fixed order and the first failure decides the code
    ensures mySlotId.None? || theirSlotId.None? ==> r == Err(BadRequest)
    ensures r == Err(NotFound) <==>
      mySlotId.Some? && theirSlotId.Some? && (mySlotId.value !in s.events || theirSlotId.value !in s.events)
    ensures r == Err(Forbidden) <==>
      mySlotId.Some? && theirSlotId.Some? && mySlotId.value in s.events && theirSlotId.value in s.events
      && s.events[mySlotId.value].owner != caller
    // offering a slot for itself never succeeds; once ownership passes, it is a 400
    ensures mySlotId.Some? && mySlotId == theirSlotId ==>
      r.Err? && (mySlotId.value in s.events && s.events[mySlotId.value].owner == caller ==> r.error == BadRequest)
    // success: one new PENDING request from the caller to the other owner, both slots reserved, nothing else touched
    ensures r.Ok? ==>
      var my, their := mySlotId.value, theirSlotId.value;
      && r.value.swaps == s.swaps[id := SwapRequest(my, their, caller, s.events[their].owner, Pending)]
      && r.value.events.Keys == s.events.Keys
      && r.value.events[my] == s.events[my].(status := SwapPending)
      && r.value.events[their] == s.events[their].(status := SwapPending)
      && (forall e :: e in s.events && e != my && e != their ==> r.value.events[e] == s.events[e])
    ensures r.Ok? && WellFormed(s) ==> WellFormed(r.value)
  {
    if mySlotId.None? || theirSlotId.None? then Err(BadRequest)
    else
      var my, their := mySlotId.value, theirSlotId.value;
      if my !in s.events || their !in s.events then Err(NotFound)
      else if s.events[my].owner != caller then Err(Forbidden)
      else if s.events[their].owner == caller then Err(BadRequest)
      else if s.events[my].status != Swappable || s.events[their].status != Swappable then Err(BadRequest)
      else
        var request := SwapRequest(my, their, caller, s.events[their].owner, Pending);
        var events := s.events[my := s.events[my].(status := SwapPending)];
        Ok(State(events[their := events[their].(status := SwapPending)], s.swaps[id := request]))
  }

  /** The request exists, `caller` is its recipient, it is still PENDING and
      both of its slots still exist. */
  predicate CanRespond(s: State, caller: UserId, id: SwapId)
  {
    && id in s.swaps
    && s.swaps[id].toUser == caller
    && s.swaps[id].status == Pending
    && s.swaps[id].mySlot in s.events
    && s.swaps[id].theirSlot in s.events
  }

  predicate ValidAction(action: string)
  {
    action == "accept" || action == "reject"
  }

  /** POST /swap-response/:id by `caller` with body field `action`. */
  function Respond(s: State, caller: UserId, id: SwapId, action: string): (r: Result<State>)
    ensures r.Ok? <==> ValidAction(action) && CanRespond(s, caller, id)
    // the checks run in a fixed order and the first failure decides the code
    ensures !ValidAction(action) ==> r == Err(BadRequest)
    ensures ValidAction(action) && id !in s.swaps ==> r == Err(NotFound)
    ensures r == Err(Forbidden) <==> ValidAction(action) && id in s.swaps && s.swaps[id].toUser != caller
    // a resolved request is terminal
    ensures id in s.swaps && s.swaps[id].status != Pending ==> r.Err?
    ensures ValidAction(action) && id in s.swaps && s.swaps[id].toUser == caller && s.swaps[id].status != Pending ==>
      r == Err(BadRequest)
    // a slot that has vanished aborts the transaction: 404 and nothing written
    ensures ValidAction(action) && id in s.swaps && s.swaps[id].toUser == caller && s.swaps[id].status == Pending &&
              (s.swaps[id].mySlot !in s.events || s.swaps[id].theirSlot !in s.events) ==>
              r == Err(NotFound)
    // success: only this request changes, and only its status
    ensures r.Ok? ==>
      && r.value.swaps == s.swaps[id := s.swaps[id].(status := if action == "accept" then Accepted else Rejected)]
      && r.value.events.Keys == s.events.Keys
      && (forall e :: e in s.events && e != s.swaps[id].mySlot && e != s.swaps[id].theirSlot ==>
            r.value.events[e] == s.events[e])
    // reject: both slots are offered again, owners stay
    ensures r.Ok? && action == "reject" ==>
      var m, t := s.swaps[id].mySlot, s.swaps[id].theirSlot;
      && r.value.events[m].status == Swappable && r.value.events[t].status == Swappable
      && r.value.events[m].owner == s.events[m].owner && r.value.events[t].owner == s.events[t].owner
      && r.value.events[t] == s.events[t].(status := Swappable)
      && (m != t ==> r.value.events[m] == s.events[m].(status := Swappable))
    // accept: the two owners change places and both slots become BUSY
    ensures r.Ok? && action == "accept" && s.swaps[id].mySlot != s.swaps[id].theirSlot ==>
      var m, t := s.swaps[id].mySlot, s.swaps[id].theirSlot;
      && r.value.events[m].owner == s.events[t].owner
      && r.value.events[t].owner == s.events[m].owner
      && r.value.events[m].status == Busy && r.value.events[t].status == Busy
      && multiset{r.value.events[m].owner, r.value.events[t].owner} == multiset{s.events[m].owner, s.events[t].owner}
      && r.value.events[m].(owner := s.events[m].owner, status := s.events[m].status) == s.events[m]
      && r.value.events[t].(owner := s.events[t].owner, status := s.events[t].status) == s.events[t]
    ensures r.Ok? && WellFormed(s) ==> WellFormed(r.value)
  {
    if !ValidAction(action) then Err(BadRequest)
    else if id !in s.swaps then Err(NotFound)
    else
      var swap := s.swaps[id];
      if swap.toUser != caller then Err(Forbidden)
      else if swap.status != Pending then Err(BadRequest)
      else if swap.mySlot !in s.events || swap.theirSlot !in s.events then Err(NotFound)
      else
        var mine, theirs := s.events[swap.mySlot], s.events[swap.theirSlot];
        if action == "reject" then
          var events := s.events[swap.mySlot := mine.(status := Swappable)];
          Ok(State(events[swap.theirSlot := theirs.(status := Swappable)], s.swaps[id := swap.(status := Rejected)]))
        else
          var events := s.events[swap.mySlot := mine.(owner := theirs.owner, status := Busy)];
          Ok(State(events[swap.theirSlot := theirs.(owner := mine.owner, status := Busy)], s.swaps[id := swap.(status := Accepted)]))
  }

  datatype Requests = Requests(incoming: set<SwapId>, outgoing: set<SwapId>)

  /** GET /my-requests: the requests addressed to `caller` and those it sent. */
  function MyRequests(s: State, caller: UserId): (r: Requests)
    ensures forall id :: id in r.incoming <==> id in s.swaps && s.swaps[id].toUser == caller
    ensures forall id :: id in r.outgoing <==> id in s.swaps && s.swaps[id].fromUser == caller
    // nobody proposes to themself, so no request is listed on both sides
    ensures WellFormed(s) ==> r.incoming !! r.outgoing
  {
    Requests(set id | id in s.swaps && s.swaps[id].toUser == caller,
             set id | id in s.swaps && s.swaps[id].fromUser == caller)
  }

  /** Right after a successful proposal neither of its slots can be offered or
      asked for again: every proposal naming one of them fails, and with 400
      as soon as it gets past the existence and ownership checks. */
  lemma ProposalBlocksItsSlots(s: State, caller: UserId, my: EventId, their: EventId, id: SwapId,
                               other: UserId, a: Option<EventId>, b: Option<EventId>, id2: SwapId)
    requires id !in s.swaps
    requires Propose(s, caller, Some(my), Some(their), id).Ok?
    requires a in {Some(my), Some(their)} || b in {Some(my), Some(their)}
    requires id2 !in Propose(s, caller, Some(my), Some(their), id).value.swaps
    ensures Propose(Propose(s, caller, Some(my), Some(their), id).value, other, a, b, id2).Err?
    ensures var s' := Propose(s, caller, Some(my), Some(their), id).value;
      a.Some? && b.Some? && a.value in s'.events && b.value in s'.events && s'.events[a.value].owner == other ==>
      Propose(s', other, a, b, id2) == Err(BadRequest)
  {
  }

  /** Rejecting a proposal puts every slot back exactly as it was before the
      proposal; the request stays behind as REJECTED. */
  lemma RejectUndoesProposal(s: State, caller: UserId, my: EventId, their: EventId, id: SwapId)
    requires id !in s.swaps
    requires Propose(s, caller, Some(my), Some(their), id).Ok?
    ensures var s' := Propose(s, caller, Some(my), Some(their), id).value;
      Respond(s', s.events[their].owner, id, "reject") ==
        Ok(State(s.events, s.swaps[id := SwapRequest(my, their, caller, s.events[their].owner, Rejected)]))
  {
    var s' := Propose(s, caller, Some(my), Some(their), id).value;
    var r := Respond(s', s.events[their].owner, id, "reject");
    assert r.Ok?;
    assert r.value.events == s.events by {
      forall e | e in s.events ensures r.value.events[e] == s.events[e] {
        if e == my || e == their {
          assert s.events[e].status == Swappable;
        }
      }
    }
    assert r.value.swaps == s.swaps[id := SwapRequest(my, their, caller, s.events[their].owner, Rejected)];
  }

  /** Accepting a proposal hands the requester the slot it asked for and the
      recipient the slot offered; both become BUSY, every other slot is as it
      was before the proposal. */
  lemma AcceptCompletesProposal(s: State, caller: UserId, my: EventId, their: EventId, id: SwapId)
    requires id !in s.swaps
    requires Propose(s, caller, Some(my), Some(their), id).Ok?
    ensures var s' := Propose(s, caller, Some(my), Some(their), id).value;
      var r := Respond(s', s.events[their].owner, id, "accept");
      && r.Ok?
      && r.value.events[their] == s.events[their].(owner := caller, status := Busy)
      && r.value.events[my] == s.events[my].(owner := s.events[their].owner, status := Busy)
      && (forall e :: e in s.events && e != my && e != their ==> r.value.events[e] == s.events[e])
      && r.value.swaps[id] == SwapRequest(my, their, caller, s.events[their].owner, Accepted)
  {
  }

  /** Once a request has been answered, any further answer to it, by anyone,
      fails: ACCEPTED and REJECTED are terminal. */
  lemma AnsweredIsTerminal(s: State, caller: UserId, id: SwapId, action: string, anyone: UserId, action2: string)
    requires Respond(s, caller, id, action).Ok?
    ensures Respond(Respond(s, caller, id, action).value, anyone, id, action2).Err?
    ensures ValidAction(action2) && anyone == caller ==>
      Respond(Respond(s, caller, id, action).value, anyone, id, action2) == Err(BadRequest)
  {
  }

  /** A request can be answered only by a caller who sees it among its
      incoming requests. */
  lemma RespondersAreRecipients(s: State, caller: UserId, id: SwapId, action: string)
    requires ValidAction(action) && id in s.swaps
    ensures Respond(s, caller, id, action) != Err(Forbidden) <==> id in MyRequests(s, caller).incoming
  {
  }

  /** The route handler for POST /swap-request: load both slots, run the checks,
      then create the request and mark both slots SWAP_PENDING in one transaction. */
  method PostSwapRequest(db: Database, caller: UserId, mySlotId: Option<EventId>, theirSlotId: Option<EventId>)
    returns (r: Result<SwapId>)
    requires db.Valid()
    modifies db
    ensures db.Valid()
    ensures Follows(Propose(old(db.Snapshot()), caller, mySlotId, theirSlotId, old(db.nextSwapId)),
                    r, old(db.Snapshot()), db.Snapshot())
    ensures r.Ok? ==> r.value == old(db.nextSwapId) && db.nextSwapId == old(db.nextSwapId) + 1
    ensures r.Err? ==> db.nextSwapId == old(db.nextSwapId)
    ensures db.nextEventId == old(db.nextEventId)
  {
    if mySlotId.None? || theirSlotId.None? {
      return Err(BadRequest);
    }
    var myId, theirId := mySlotId.value, theirSlotId.value;
    if myId !in db.events || theirId !in db.events {
      return Err(NotFound);
    }
    var mySlot, theirSlot := db.events[myId], db.events[theirId];
    if mySlot.owner != caller {
      return Err(Forbidden);
    }
    if theirSlot.owner == caller {
      return Err(BadRequest);
    }
    if mySlot.status != Swappable || theirSlot.status != Swappable {
      return Err(BadRequest);
    }
    // one transaction: create the request, then two status updates
    var id := db.nextSwapId;
    db.nextSwapId := id + 1;
    db.swaps := db.swaps[id := SwapRequest(myId, theirId, caller, theirSlot.owner, Pending)];
    db.events := db.events[myId := db.events[myId].(status := SwapPending)];
    db.events := db.events[theirId := db.events[theirId].(status := SwapPending)];
    r := Ok(id);
  }

  /** The route handler for POST /swap-response/:id. Inside the transaction the
      two slots are reloaded; a missing one aborts before anything is saved.
      Returns the updated request. */
  method PostSwapResponse(db: Database, caller: UserId, id: SwapId, action: string) returns (r: Result<SwapRequest>)
    requires db.Valid()
    modifies db
    ensures db.Valid()
    ensures Follows(Respond(old(db.Snapshot()), caller, id, action), r, old(db.Snapshot()), db.Snapshot())
    ensures r.Ok? ==> id in db.swaps && r.value == db.swaps[id]
    ensures db.nextEventId == old(db.nextEventId) && db.nextSwapId == old(db.nextSwapId)
  {
    if action != "accept" && action != "reject" {
      return Err(BadRequest);
    }
    if id !in db.swaps {
      return Err(NotFound);
    }
    var swap := db.swaps[id];
    if swap.toUser != caller {
      return Err(Forbidden);
    }
    if swap.status != Pending {
      return Err(BadRequest);
    }
    if swap.mySlot !in db.events || swap.theirSlot !in db.events {
      return Err(NotFound);
    }
    var mySlot, theirSlot := db.events[swap.mySlot], db.events[swap.theirSlot];
    if action == "reject" {
      swap := swap.(status := Rejected);
      db.swaps := db.swaps[id := swap];
      mySlot := mySlot.(status := Swappable);
      theirSlot := theirSlot.(status := Swappable);
      db.events := db.events[swap.mySlot := mySlot];
      db.events := db.events[swap.theirSlot := theirSlot];
      return Ok(swap);
    }
    var tmpOwner := mySlot.owner;
    mySlot := mySlot.(owner := theirSlot.owner);
    theirSlot := theirSlot.(owner := tmpOwner);
    mySlot := mySlot.(status := Busy);
    theirSlot := theirSlot.(status := Busy);
    swap := swap.(status := Accepted);
    db.events := db.events[swap.mySlot := mySlot];
    db.events := db.events[swap.theirSlot := theirSlot];
    db.swaps := db.swaps[id := swap];
    r := Ok(swap);
  }
}
