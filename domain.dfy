/** The records of the slot-swap backend and the shape of its store.
    Events (slots) and swap requests live in two collections keyed by id;
    callers are identified by an opaque user id resolved before any handler runs. */
module Domain {

  type UserId = nat
  type EventId = nat
  type SwapId = nat

  datatype Option<T> = None | Some(value: T)

  /** The status codes a handler sets before throwing: 400, 403 and 404. */
  datatype Error = BadRequest | Forbidden | NotFound

  datatype Result<T> = Ok(value: T) | Err(error: Error)

  datatype EventStatus = Busy | Swappable | SwapPending

  datatype SwapStatus = Pending | Accepted | Rejected

  /** Times are only compared, never computed with, so they are plain integers. */
  datatype Event = Event(title: string, startTime: int, endTime: int, owner: UserId, status: EventStatus)

  datatype SwapRequest = SwapRequest(mySlot: EventId, theirSlot: EventId, fromUser: UserId, toUser: UserId, status: SwapStatus)

  /** Both collections at one instant. */
  datatype State = State(events: map<EventId, Event>, swaps: map<SwapId, SwapRequest>)

  /** A string field of a request body that JavaScript finds truthy: sent and not empty. */
  predicate Given(field: Option<string>)
  {
    field.Some? && field.value != ""
  }

  /** Every stored swap request names two different slots and two different users.
      Requests are created only by a successful proposal and only their status
      changes afterwards, so every handler keeps this. */
  predicate WellFormed(s: State)
  {
    forall id :: id in s.swaps ==>
      s.swaps[id].mySlot != s.swaps[id].theirSlot && s.swaps[id].fromUser != s.swaps[id].toUser
  }
}
