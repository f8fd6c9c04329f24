/** The event (slot) routes: create, update and delete one's own slots, list
    them by start time, and browse the slots other users offer for swapping.
    Create, update and delete are specified by functions over the whole store
    (Create, Update, Remove) and performed by handler methods on a Database;
    the two listings are pure queries. */
module Events {
  import opened Domain
  import opened Store

  /** POST /events by `caller`; `id` is the id the new event receives. The
      status of a new event is BUSY. */
  function Create(s: State, caller: UserId, title: Option<string>, startTime: Option<int>, endTime: Option<int>, id: EventId)
    : (r: Result<State>)
    requires id !in s.events
    ensures r.Ok? <==> Given(title) && startTime.Some? && endTime.Some?
    ensures r.Err? ==> r.error == BadRequest
    // exactly one new event, owned by the caller; the rest of the store is untouched
    ensures r.Ok? ==>
      && r.value.swaps == s.swaps
      && r.value.events.Keys == s.events.Keys + {id}
      && r.value.events[id] == Event(title.value, startTime.value, endTime.value, caller, Busy)
      && (forall e :: e in s.events ==> r.value.events[e] == s.events[e])
    ensures r.Ok? && WellFormed(s) ==> WellFormed(r.value)
  {
    if !Given(title) || startTime.None? || endTime.None? then Err(BadRequest)
    else Ok(State(s.events[id := Event(title.value, startTime.value, endTime.value, caller, Busy)], s.swaps))
  }

  /** The status names PUT /events/:id accepts; any other string is ignored. */
  function ParseStatus(name: string): (r: Option<EventStatus>)
    ensures r.Some? <==> name in {"BUSY", "SWAPPABLE", "SWAP_PENDING"}
  {
    if name == "BUSY" then Some(Busy)
    else if name == "SWAPPABLE" then Some(Swappable)
    else if name == "SWAP_PENDING" then Some(SwapPending)
    else None
  }

  /** The fields of `ev` after PUT /events/:id with the given body fields. */
  function Patch(ev: Event, title: Option<string>, startTime: Option<int>, endTime: Option<int>, status: Option<string>)
    : (r: Event)
    // the owner is never writable
    ensures r.owner == ev.owner
    // a field changes only when the body carries a value for it, and then takes that value
    ensures Given(title) ==> r.title == title.value
    ensures !Given(title) ==> r.title == ev.title
    ensures startTime.Some? ==> r.startTime == startTime.value
    ensures startTime.None? ==> r.startTime == ev.startTime
    ensures endTime.Some? ==> r.endTime == endTime.value
    ensures endTime.None? ==> r.endTime == ev.endTime
    // the status is taken only when it names one of the three statuses, whatever the current one is
    ensures status.Some? && ParseStatus(status.value).Some? ==> r.status == ParseStatus(status.value).value
    ensures status.None? || ParseStatus(status.value).None? ==> r.status == ev.status
  {
    var ev1 := if Given(title) then ev.(title := title.value) else ev;
    var ev2 := if startTime.Some? then ev1.(startTime := startTime.value) else ev1;
    var ev3 := if endTime.Some? then ev2.(endTime := endTime.value) else ev2;
    if status.Some? && status.value != "" && ParseStatus(status.value).Some? then
      ev3.(status := ParseStatus(status.value).value)
    else ev3
  }

  /** How a status is spelled in a request body. */
  function StatusName(st: EventStatus): (name: string)
    ensures ParseStatus(name) == Some(st)
  {
    match st
    case Busy => "BUSY"
    case Swappable => "SWAPPABLE"
    case SwapPending => "SWAP_PENDING"
  }

  /** PUT /events/:id by `caller`. */
  function Update(s: State, caller: UserId, id: EventId, title: Option<string>, startTime: Option<int>,
                  endTime: Option<int>, status: Option<string>): (r: Result<State>)
    ensures r.Ok? <==> id in s.events && s.events[id].owner == caller
    ensures r == Err(NotFound) <==> id !in s.events
    ensures r == Err(Forbidden) <==> id in s.events && s.events[id].owner != caller
    // only this event changes, it keeps its owner, and swap requests are left alone
    ensures r.Ok? ==>
      && r.value.swaps == s.swaps
      && r.value.events == s.events[id := Patch(s.events[id], title, startTime, endTime, status)]
      && r.value.events[id].owner == caller
    ensures r.Ok? && WellFormed(s) ==> WellFormed(r.value)
  {
    if id !in s.events then Err(NotFound)
    else if s.events[id].owner != caller then Err(Forbidden)
    else Ok(State(s.events[id := Patch(s.events[id], title, startTime, endTime, status)], s.swaps))
  }

  /** DELETE /events/:id by `caller`. */
  function Remove(s: State, caller: UserId, id: EventId): (r: Result<State>)
    ensures r.Ok? <==> id in s.events && s.events[id].owner == caller
    ensures r == Err(NotFound) <==> id !in s.events
    ensures r == Err(Forbidden) <==> id in s.events && s.events[id].owner != caller
    // only that event goes; requests naming it are kept and now dangle
    ensures r.Ok? ==>
      && r.value.swaps == s.swaps
      && r.value.events.Keys == s.events.Keys - {id}
      && (forall e :: e in r.value.events ==> r.value.events[e] == s.events[e])
    ensures r.Ok? && WellFormed(s) ==> WellFormed(r.value)
  {
    if id !in s.events then Err(NotFound)
    else if s.events[id].owner != caller then Err(Forbidden)
    else Ok(State(s.events - {id}, s.swaps))
  }

  /** GET /events/swappable: the slots other users offer for swapping. */
  function SwappableEvents(s: State, caller: UserId): (r: set<EventId>)
    ensures forall e :: e in r <==> e in s.events && s.events[e].owner != caller && s.events[e].status == Swappable
  {
    set e | e in s.events && s.events[e].owner != caller && s.events[e].status == Swappable
  }

  /** The slots `user` owns. */
  function Holdings(s: State, user: UserId): (r: set<EventId>)
    ensures forall e :: e in r <==> e in s.events && s.events[e].owner == user
  {
    set e | e in s.events && s.events[e].owner == user
  }

  /** `a` is listed before `b`: it starts earlier, or at the same time and has the smaller id. */
  predicate Earlier(events: map<EventId, Event>, a: EventId, b: EventId)
  {
    && a in events && b in events
    && (events[a].startTime < events[b].startTime || (events[a].startTime == events[b].startTime && a < b))
  }

  /** `a` is the first of `ids` to be listed. */
  predicate IsEarliest(events: map<EventId, Event>, ids: set<EventId>, a: EventId)
  {
    a in ids && forall b :: b in ids && b != a ==> Earlier(events, a, b)
  }

  lemma {:induction false} EarliestExists(events: map<EventId, Event>, ids: set<EventId>)
    requires ids != {} && ids <= events.Keys
    ensures exists a :: IsEarliest(events, ids, a)
    decreases |ids|
  {
    var x :| x in ids;
    var rest := ids - {x};
    if rest == {} {
      assert ids == {x};
      assert IsEarliest(events, ids, x);
    } else {
      EarliestExists(events, rest);
      var a :| IsEarliest(events, rest, a);
      if Earlier(events, a, x) {
        assert IsEarliest(events, ids, a);
      } else {
        forall b | b in ids && b != x ensures Earlier(events, x, b) {
          if b != a {
            assert Earlier(events, a, b);
          }
        }
        assert IsEarliest(events, ids, x);
      }
    }
  }

  /** The ids in `ids`, earliest start first. */
  function OrderByStart(events: map<EventId, Event>, ids: set<EventId>): (r: seq<EventId>)
    requires ids <= events.Keys
    ensures forall i :: 0 <= i < |r| ==> r[i] in ids
    ensures forall e :: e in ids ==> e in r
    ensures forall i, j :: 0 <= i < j < |r| ==> Earlier(events, r[i], r[j])
    ensures |r| == |ids|
    decreases |ids|
  {
    if ids == {} then []
    else
      EarliestExists(events, ids);
      var a :| IsEarliest(events, ids, a);
      var rest := OrderByStart(events, ids - {a});
      PrependEarliest(events, ids, a, rest);
      [a] + rest
  }

  /** Putting the earliest id in front of an ordered listing of the others
      gives an ordered listing of all. */
  lemma PrependEarliest(events: map<EventId, Event>, ids: set<EventId>, a: EventId, rest: seq<EventId>)
    requires IsEarliest(events, ids, a)
    requires forall i :: 0 <= i < |rest| ==> rest[i] in ids - {a}
    requires forall e :: e in ids - {a} ==> e in rest
    requires forall i, j :: 0 <= i < j < |rest| ==> Earlier(events, rest[i], rest[j])
    requires |rest| == |ids - {a}|
    ensures forall i :: 0 <= i < |[a] + rest| ==> ([a] + rest)[i] in ids
    ensures forall e :: e in ids ==> e in [a] + rest
    ensures forall i, j :: 0 <= i < j < |[a] + rest| ==> Earlier(events, ([a] + rest)[i], ([a] + rest)[j])
    ensures |[a] + rest| == |ids|
  {
    var r := [a] + rest;
    forall i | 0 <= i < |r| ensures r[i] in ids {
      if i > 0 {
        assert r[i] == rest[i - 1];
      }
    }
    forall e | e in ids ensures e in r {
      if e != a {
        assert e in rest;
      }
    }
    forall i, j | 0 <= i < j < |r| ensures Earlier(events, r[i], r[j]) {
      assert r[j] == rest[j - 1];
      if i > 0 {
        assert r[i] == rest[i - 1];
      }
    }
  }

  /** GET /events/me: the caller's own slots sorted by start time. */
  function MyEvents(s: State, caller: UserId): (r: seq<EventId>)
    ensures forall i :: 0 <= i < |r| ==> r[i] in s.events && s.events[r[i]].owner == caller
    ensures forall e :: e in s.events && s.events[e].owner == caller ==> e in r
    ensures forall i, j :: 0 <= i < j < |r| ==>
      r[i] != r[j] && s.events[r[i]].startTime <= s.events[r[j]].startTime
    ensures |r| == |Holdings(s, caller)|
  {
    OrderByStart(s.events, Holdings(s, caller))
  }

  /** Every status name the filter accepts is the spelling of the status it yields. */
  lemma StatusNamesRoundTrip(name: string)
    requires ParseStatus(name).Some?
    ensures StatusName(ParseStatus(name).value) == name
  {
  }

  /** Deleting a freshly created event restores the store exactly. */
  lemma RemoveUndoesCreate(s: State, caller: UserId, title: Option<string>, startTime: Option<int>,
                           endTime: Option<int>, id: EventId)
    requires id !in s.events
    requires Create(s, caller, title, startTime, endTime, id).Ok?
    ensures Remove(Create(s, caller, title, startTime, endTime, id).value, caller, id) == Ok(s)
  {
    var s' := Create(s, caller, title, startTime, endTime, id).value;
    assert s'.events - {id} == s.events;
  }

  /** A created event joins its creator's holdings; nobody else's change. */
  lemma CreateAddsToCreatorOnly(s: State, caller: UserId, title: Option<string>, startTime: Option<int>,
                                endTime: Option<int>, id: EventId, user: UserId)
    requires id !in s.events
    requires Create(s, caller, title, startTime, endTime, id).Ok?
    ensures Holdings(Create(s, caller, title, startTime, endTime, id).value, user)
            == if user == caller then Holdings(s, user) + {id} else Holdings(s, user)
  {
    var s' := Create(s, caller, title, startTime, endTime, id).value;
    var added := if user == caller then Holdings(s, user) + {id} else Holdings(s, user);
    forall e ensures e in Holdings(s', user) <==> e in added {
      if e == id {
        assert s'.events[e].owner == caller;
      }
    }
    assert Holdings(s', user) == added;
  }

  /** So a successful create lengthens the creator's GET /events/me list by one. */
  lemma CreateLengthensMyEvents(s: State, caller: UserId, title: Option<string>, startTime: Option<int>,
                                endTime: Option<int>, id: EventId)
    requires id !in s.events
    requires Create(s, caller, title, startTime, endTime, id).Ok?
    ensures |MyEvents(Create(s, caller, title, startTime, endTime, id).value, caller)| == |MyEvents(s, caller)| + 1
  {
    var s' := Create(s, caller, title, startTime, endTime, id).value;
    CreateAddsToCreatorOnly(s, caller, title, startTime, endTime, id, caller);
    assert id !in Holdings(s, caller);
  }

  /** PUT never moves a slot between users: every user's holdings stay the same. */
  lemma UpdateKeepsHoldings(s: State, caller: UserId, id: EventId, title: Option<string>, startTime: Option<int>,
                            endTime: Option<int>, status: Option<string>, user: UserId)
    requires Update(s, caller, id, title, startTime, endTime, status).Ok?
    ensures Holdings(Update(s, caller, id, title, startTime, endTime, status).value, user) == Holdings(s, user)
  {
    var s' := Update(s, caller, id, title, startTime, endTime, status).value;
    assert Holdings(s', user) == Holdings(s, user);
  }

  /** DELETE takes the slot out of its owner's holdings and touches no one else's. */
  lemma RemoveTakesFromOwnerOnly(s: State, caller: UserId, id: EventId, user: UserId)
    requires Remove(s, caller, id).Ok?
    ensures Holdings(Remove(s, caller, id).value, user) == Holdings(s, user) - {id}
    ensures user != caller ==> Holdings(Remove(s, caller, id).value, user) == Holdings(s, user)
  {
    var s' := Remove(s, caller, id).value;
    assert Holdings(s', user) == Holdings(s, user) - {id};
  }

  /** The route handler for POST /events. */
  method PostEvent(db: Database, caller: UserId, title: Option<string>, startTime: Option<int>, endTime: Option<int>)
    returns (r: Result<EventId>)
    requires db.Valid()
    modifies db
    ensures db.Valid()
    ensures Follows(Create(old(db.Snapshot()), caller, title, startTime, endTime, old(db.nextEventId)),
                    r, old(db.Snapshot()), db.Snapshot())
    ensures r.Ok? ==> r.value == old(db.nextEventId) && db.nextEventId == old(db.nextEventId) + 1
    ensures r.Err? ==> db.nextEventId == old(db.nextEventId)
    ensures db.nextSwapId == old(db.nextSwapId)
  {
    if !Given(title) || startTime.None? || endTime.None? {
      return Err(BadRequest);
    }
    var id := db.nextEventId;
    db.nextEventId := id + 1;
    db.events := db.events[id := Event(title.value, startTime.value, endTime.value, caller, Busy)];
    r := Ok(id);
  }

  /** The route handler for PUT /events/:id: load, check, overwrite the fields
      the body carries, save. Returns the saved event. */
  method PutEvent(db: Database, caller: UserId, id: EventId, title: Option<string>, startTime: Option<int>,
                  endTime: Option<int>, status: Option<string>) returns (r: Result<Event>)
    requires db.Valid()
    modifies db
    ensures db.Valid()
    ensures Follows(Update(old(db.Snapshot()), caller, id, title, startTime, endTime, status),
                    r, old(db.Snapshot()), db.Snapshot())
    ensures r.Ok? ==> id in db.events && r.value == db.events[id]
    ensures db.nextEventId == old(db.nextEventId) && db.nextSwapId == old(db.nextSwapId)
  {
    if id !in db.events {
      return Err(NotFound);
    }
    var ev := db.events[id];
    if ev.owner != caller {
      return Err(Forbidden);
    }
    if Given(title) {
      ev := ev.(title := title.value);
    }
    if startTime.Some? {
      ev := ev.(startTime := startTime.value);
    }
    if endTime.Some? {
      ev := ev.(endTime := endTime.value);
    }
    if status.Some? && status.value != "" {
      var parsed := ParseStatus(status.value);
      if parsed.Some? {
        ev := ev.(status := parsed.value);
      }
    }
    db.events := db.events[id := ev];
    r := Ok(ev);
  }

  /** The route handler for DELETE /events/:id. */
  method DeleteEvent(db: Database, caller: UserId, id: EventId) returns (r: Result<()>)
    requires db.Valid()
    modifies db
    ensures db.Valid()
    ensures Follows(Remove(old(db.Snapshot()), caller, id), r, old(db.Snapshot()), db.Snapshot())
    ensures db.nextEventId == old(db.nextEventId) && db.nextSwapId == old(db.nextSwapId)
  {
    if id !in db.events {
      return Err(NotFound);
    }
    if db.events[id].owner != caller {
      return Err(Forbidden);
    }
    db.events := db.events - {id};
    r := Ok(());
  }
}
