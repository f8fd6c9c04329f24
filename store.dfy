/** The two collections the route handlers share, as one mutable object.
    The handlers themselves live with their routes (modules Swaps and Events). */
module Store {
  import opened Domain

  class Database {
    var events: map<EventId, Event>
    var swaps: map<SwapId, SwapRequest>
    /** Ids handed out so far; stands for the database minting a fresh id on every insert. */
    var nextEventId: EventId
    var nextSwapId: SwapId

    ghost predicate Valid()
      reads this
    {
      && (forall id :: id in events ==> id < nextEventId)
      && (forall id :: id in swaps ==> id < nextSwapId)
      && WellFormed(State(events, swaps))
    }

    function Snapshot(): State
      reads this
    {
      State(events, swaps)
    }

    constructor ()
      ensures Valid()
      ensures events == map[] && swaps == map[]
    {
      events, swaps := map[], map[];
      nextEventId, nextSwapId := 0, 0;
    }
  }

  /** A handler ended as its specification `spec` says: with the specified
      error and the store as it was `before`, or successfully with the store
      holding the specified state. */
  ghost predicate Follows<T>(spec: Result<State>, r: Result<T>, before: State, after: State)
  {
    match spec
    case Err(e) => r == Err(e) && after == before
    case Ok(s) => r.Ok? && after == s
  }
}
