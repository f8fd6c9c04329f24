/** Properties that join the swap routes and the event routes, which share one
    store: what an accepted swap does to each user's holdings, how the
    marketplace listing relates to proposing, and what the event routes can do
    to slots that a pending request still names. */
module Scenarios {
  import opened Domain
  import opened Swaps
  import opened Events

  /** Trading one member of a set for a non-member keeps the set's size. */
  lemma TradeKeepsSize(before: set<EventId>, out: EventId, into: EventId)
    requires out in before && into !in before
    ensures |before - {out} + {into}| == |before|
  {
    var moved := before - {out};
    assert |moved| == |before| - 1;
    assert into !in moved;
  }

  /** Exchanging the owners of two different slots leaves every user with as
      many slots as before. */
  lemma {:induction false} ExchangeKeepsHoldingCount(s: State, s': State, m: EventId, t: EventId, user: UserId)
    requires m != t && m in s.events && t in s.events && s'.events.Keys == s.events.Keys
    requires s'.events[m].owner == s.events[t].owner && s'.events[t].owner == s.events[m].owner
    requires forall e :: e in s.events && e != m && e != t ==> s'.events[e].owner == s.events[e].owner
    ensures |Holdings(s', user)| == |Holdings(s, user)|
  {
    var a, b := s.events[m].owner, s.events[t].owner;
    var before, after := Holdings(s, user), Holdings(s', user);
    if a == b || (user != a && user != b) {
      forall e ensures e in after <==> e in before {
        if e == m || e == t {
          assert e in after <==> s'.events[e].owner == user;
        }
      }
      assert after == before;
    } else if user == a {
      forall e ensures e in after <==> e in before - {m} + {t} {
        if e == m || e == t {
          assert e in after <==> s'.events[e].owner == user;
        }
      }
      assert after == before - {m} + {t};
      TradeKeepsSize(before, m, t);
    } else {
      forall e ensures e in after <==> e in before - {t} + {m} {
        if e == m || e == t {
          assert e in after <==> s'.events[e].owner == user;
        }
      }
      assert after == before - {t} + {m};
      TradeKeepsSize(before, t, m);
    }
  }

  /** An accepted swap exchanges one slot for one: every user owns as many
      slots afterwards as before, so every user's GET /events/me list keeps its
      length. */
  lemma AcceptKeepsHoldingCounts(s: State, caller: UserId, id: SwapId, user: UserId)
    requires WellFormed(s)
    requires Respond(s, caller, id, "accept").Ok?
    ensures |Holdings(Respond(s, caller, id, "accept").value, user)| == |Holdings(s, user)|
    ensures |MyEvents(Respond(s, caller, id, "accept").value, user)| == |MyEvents(s, user)|
  {
    var s' := Respond(s, caller, id, "accept").value;
    ExchangeKeepsHoldingCount(s, s', s.swaps[id].mySlot, s.swaps[id].theirSlot, user);
  }

  /** Any slot the marketplace shows `caller` can be asked for with any slot
      `caller` has marked SWAPPABLE. */
  lemma MarketplaceOffersAreProposable(s: State, caller: UserId, my: EventId, their: EventId, id: SwapId)
    requires id !in s.swaps
    requires their in SwappableEvents(s, caller)
    requires my in Holdings(s, caller) && s.events[my].status == Swappable
    ensures Propose(s, caller, Some(my), Some(their), id).Ok?
  {
  }

  /** A successful proposal takes both of its slots off every user's marketplace. */
  lemma ProposalWithdrawsSlots(s: State, caller: UserId, my: EventId, their: EventId, id: SwapId, anyone: UserId)
    requires id !in s.swaps
    requires Propose(s, caller, Some(my), Some(their), id).Ok?
    ensures var shown := SwappableEvents(Propose(s, caller, Some(my), Some(their), id).value, anyone);
      my !in shown && their !in shown
    ensures SwappableEvents(Propose(s, caller, Some(my), Some(their), id).value, anyone)
            == SwappableEvents(s, anyone) - {my, their}
  {
    var s' := Propose(s, caller, Some(my), Some(their), id).value;
    assert SwappableEvents(s', anyone) == SwappableEvents(s, anyone) - {my, their};
  }

  /** PUT /events/:id has no transition guard: an owner may put a slot that a
      pending request reserves back on the market, and the request stays PENDING. */
  lemma OwnerCanReopenReservedSlot(s: State, owner: UserId, e: EventId, anyone: UserId)
    requires e in s.events && s.events[e].owner == owner && s.events[e].status == SwapPending
    requires anyone != owner
    ensures var r := Update(s, owner, e, None, None, None, Some("SWAPPABLE"));
      && r.Ok?
      && r.value.events[e].status == Swappable
      && r.value.swaps == s.swaps
      && e in SwappableEvents(r.value, anyone)
  {
    assert ParseStatus("SWAPPABLE") == Some(Swappable);
  }

  /** Because of that, the code lets one slot be named by two PENDING requests:
      after a proposal, if both owners mark their slots SWAPPABLE again, the
      same proposal succeeds a second time. */
  lemma ReopenedSlotsAllowSecondProposal(s: State, caller: UserId, my: EventId, their: EventId, id: SwapId, id2: SwapId)
    requires id !in s.swaps && id2 !in s.swaps && id != id2
    requires Propose(s, caller, Some(my), Some(their), id).Ok?
    ensures
      var s1 := Propose(s, caller, Some(my), Some(their), id).value;
      var s2 := Update(s1, caller, my, None, None, None, Some("SWAPPABLE"));
      && s2.Ok?
      && var s3 := Update(s2.value, s.events[their].owner, their, None, None, None, Some("SWAPPABLE"));
      && s3.Ok?
      && id2 !in s3.value.swaps
      && var s4 := Propose(s3.value, caller, Some(my), Some(their), id2);
      && s4.Ok?
      && s4.value.swaps[id].status == Pending && s4.value.swaps[id2].status == Pending
      && s4.value.swaps[id].theirSlot == s4.value.swaps[id2].theirSlot
  {
    assert ParseStatus("SWAPPABLE") == Some(Swappable);
  }

  /** Deleting a reserved slot strands its request: the recipient's answer,
      accept or reject, is a 404 that writes nothing, and the request stays
      PENDING. */
  lemma DeletedSlotStrandsRequest(s: State, caller: UserId, my: EventId, their: EventId, id: SwapId, action: string)
    requires id !in s.swaps
    requires Propose(s, caller, Some(my), Some(their), id).Ok?
    requires ValidAction(action)
    ensures
      var s1 := Propose(s, caller, Some(my), Some(their), id).value;
      var s2 := Remove(s1, caller, my);
      && s2.Ok?
      && s2.value.swaps[id].status == Pending
      && Respond(s2.value, s.events[their].owner, id, action) == Err(NotFound)
  {
  }
}
