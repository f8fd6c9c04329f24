# Slot swapper: the slot-swap engine

This project models the backend core of a slot-swapping service. Users publish
calendar slots (events). A user can propose to exchange one of their SWAPPABLE
slots for another user's SWAPPABLE slot. The other user accepts or rejects the
proposal. The core is the two Express routers `backend/routes/swaps.js` and
`backend/routes/events.js`, which share one store of two collections:

- events: `id -> {title, startTime, endTime, owner, status}`, where status is
  BUSY, SWAPPABLE or SWAP_PENDING;
- swap requests: `id -> {mySlot, theirSlot, fromUser, toUser, status}`, where
  status is PENDING, ACCEPTED or REJECTED.

Files:

- `domain.dfy` (module `Domain`): the records, the status codes 400/403/404 that a
  route sets before it throws, as `BadRequest | Forbidden | NotFound`, and `WellFormed`. That invariant says
  every stored request names two different slots and two different users.
- `store.dfy` (module `Store`): class `Database`. It holds both collections as
  maps and mints fresh ids with two counters. `Follows` states that a handler
  either returned its specified error with the store untouched, or succeeded
  with the store in the specified state.
- `swaps.dfy` (module `Swaps`): the specification functions `Propose` and
  `Respond`, the query `MyRequests`, and the handler methods `PostSwapRequest`
  and `PostSwapResponse`. These methods perform the route's steps on a
  `Database`: checks first, then the writes of the transaction. It also holds
  lemmas that chain several calls.
- `events.dfy` (module `Events`): the specification functions `Create`,
  `Update` (with `Patch`) and `Remove`, and the handler methods `PostEvent`,
  `PutEvent` and `DeleteEvent`. It also holds the queries `MyEvents` (sorted by
  start time) and `SwappableEvents`.
- `scenarios.dfy` (module `Scenarios`): properties that involve both routers.

Each handler checks everything before it writes. The swap handlers make their
writes in one transaction, and each event handler makes a single write without
a session (`backend/routes/events.js:14`, `:37`, `:46`). So each handler is one
method, and its postcondition ties the new
store to a specification function of the old one. The properties the routes
promise are proved about those functions.

Where the repository's tests and the routes disagree, the model follows the
routes. The tests also post other body fields (`targetEventId`/`myEventId`,
`response: 'ACCEPTED'`) than the routes read.

- After an accept, the tests expect both slots to be SWAPPABLE
  (`backend/__tests__/swaps.test.js:191-192`). The route sets both to BUSY
  (`backend/routes/swaps.js:84-85`).
- When someone other than the recipient answers a request, the tests expect
  404 (`backend/__tests__/swaps.test.js:233`). The route sets 403
  (`backend/routes/swaps.js:55`).
- When one slot has vanished, the tests expect 500
  (`backend/__tests__/swaps.test.js:337`). The route sets 404
  (`backend/routes/swaps.js:63`) and writes nothing.
- The tests expect a second identical proposal to fail with "Swap request
  already exists" (`backend/__tests__/swaps.test.js:128-148`). The route has no
  such check: only the status check guards against duplicates, and the owner
  can reset a status with PUT. So one slot can end up named by two PENDING
  requests (`Scenarios.ReopenedSlotsAllowSecondProposal`).
- The tests ask for one direction with `?type=sent` or `?type=received`
  (`backend/__tests__/swaps.test.js:262-305`). The route ignores the query and
  returns both lists at once (`backend/routes/swaps.js:103-106`).
- When a non-owner edits or deletes an event, the tests expect 404
  (`backend/__tests__/events.test.js:247`, `:296`). The route sets 403
  (`backend/routes/events.js:28`, `:45`).
- PUT accepts any of the three statuses from the owner, whatever the current
  status (`backend/routes/events.js:33-36`).

The field and route names are the ones in the routes (`mySlotId`/`theirSlotId`,
`action: 'accept' | 'reject'`, `mySlot`/`theirSlot`, `fromUser`/`toUser`).

## Model

| member | source | states |
|---|---|---|
| Swaps.Propose | backend/routes/swaps.js:11-46 | Succeeds exactly when both ids are sent, both slots exist, the caller owns the first and not the second, and both are SWAPPABLE. The codes the route sets are 400 for a missing id, 404 when a slot is absent and 403 when the caller does not own mySlot, with 400 for every later failure. The same slot passed twice always fails, with 400 once ownership passes. On success there is exactly one new PENDING request from the caller to the owner of theirSlot, both slots are SWAP_PENDING with unchanged owners, and every other record is unchanged. The invariant holds afterwards. |
| Swaps.Respond | backend/routes/swaps.js:49-100 | Succeeds exactly for a valid action on an existing PENDING request whose recipient is the caller and whose two slots still exist. The codes the route sets, in order, are 400 for a bad action, 404 for no request, 403 for a non-recipient, 400 when the request is already resolved and 404 when a slot has vanished. Only the request's status changes, to ACCEPTED or REJECTED. Reject sets both slots SWAPPABLE and keeps the owners. Accept exchanges the two owners, sets both slots BUSY and preserves the multiset of the two owners. No other slot changes. |
| Swaps.MyRequests | backend/routes/swaps.js:103-107 | `incoming` holds exactly the requests addressed to the caller and `outgoing` exactly those it sent. Under the store invariant the two are disjoint. |
| Swaps.ProposalBlocksItsSlots | backend/routes/swaps.js:25-37 | After a successful proposal, every proposal that names either of its slots fails. It fails with 400 as soon as the existence and ownership checks pass. |
| Swaps.RejectUndoesProposal | backend/routes/swaps.js:34-71 | Proposing and then rejecting returns every slot to exactly its state before the proposal. Only the REJECTED request remains. |
| Swaps.AcceptCompletesProposal | backend/routes/swaps.js:78-90 | Proposing and then accepting gives the requester the slot it asked for and the recipient the offered slot. Both slots are BUSY, every other slot is as before the proposal, and the request is ACCEPTED. |
| Swaps.AnsweredIsTerminal | backend/routes/swaps.js:56 | After a successful answer, every further answer to that request fails, whoever sends it. The recipient gets 400. |
| Swaps.RespondersAreRecipients | backend/routes/swaps.js:55 | For a valid action and an existing request, the caller is refused with 403 exactly when the request is not in the caller's incoming list. |
| Swaps.PostSwapRequest | backend/routes/swaps.js:11-46 | The handler follows `Propose`: on an error the store is unchanged, and on success it holds the specified state and returns the new request's id. It keeps the store invariant. |
| Swaps.PostSwapResponse | backend/routes/swaps.js:49-100 | The handler follows `Respond`, including the owner exchange through a temporary. On any error, including a vanished slot inside the transaction, the store is unchanged. On success it returns the saved request. |
| Events.Create | backend/routes/events.js:8-16 | A missing title, startTime or endTime gives 400. Otherwise exactly one new event is added, owned by the caller and BUSY, and the rest of the store is untouched. |
| Events.Patch | backend/routes/events.js:29-36 | The owner never changes. Title, start and end take the body's value when it carries one and are kept otherwise. A status string that names BUSY, SWAPPABLE or SWAP_PENDING is applied whatever the current status. Any other string, or none, leaves the status as it was. |
| Events.StatusName | backend/routes/events.js:35 | Every status, spelled as in a request body, is accepted by the status filter. |
| Events.ParseStatus | backend/routes/events.js:35 | A status string is accepted exactly when it is one of BUSY, SWAPPABLE and SWAP_PENDING. |
| Events.StatusNamesRoundTrip | backend/routes/events.js:35 | Every accepted status string is the spelling of the status it yields, so parsing and spelling are inverse. |
| Events.Update | backend/routes/events.js:25-39 | The result is 404 exactly when the event is absent and 403 exactly when the caller is not its owner. On success only that event is rewritten, with `Patch`. It keeps its owner, and swap requests are untouched. |
| Events.Remove | backend/routes/events.js:42-48 | The result is 404 exactly when the event is absent and 403 exactly when the caller is not its owner. On success only that event is removed. Swap requests are kept even when they name it. |
| Events.SwappableEvents | backend/routes/events.js:51-54 | Exactly the events not owned by the caller whose status is SWAPPABLE. |
| Events.Holdings | backend/routes/events.js:20 | Exactly the events owned by the given user. |
| Events.OrderByStart | backend/routes/events.js:20 | A listing of exactly the given ids, each once (its length is the set's size), in ascending startTime with ties broken by id. |
| Events.MyEvents | backend/routes/events.js:19-22 | A duplicate-free listing of exactly the caller's events, in ascending startTime, as long as the caller's holdings. |
| Events.RemoveUndoesCreate | backend/routes/events.js:10-46 | Deleting a freshly created event, as its creator, restores the store exactly. |
| Events.CreateAddsToCreatorOnly | backend/routes/events.js:14 | A created event joins its creator's holdings, and nobody else's holdings change. |
| Events.CreateLengthensMyEvents | backend/routes/events.js:14-20 | A successful create lengthens the creator's `/me` list by exactly one. |
| Events.UpdateKeepsHoldings | backend/routes/events.js:29-37 | An update never moves a slot between users, so every user's holdings stay the same. |
| Events.RemoveTakesFromOwnerOnly | backend/routes/events.js:45-46 | A delete removes the slot from its owner's holdings and leaves every other user's holdings alone. |
| Events.PostEvent | backend/routes/events.js:8-16 | The handler follows `Create` and returns the new event's id. On an error the store is unchanged. |
| Events.PutEvent | backend/routes/events.js:25-39 | The handler follows `Update` and returns the saved event. On an error the store is unchanged. |
| Events.DeleteEvent | backend/routes/events.js:42-48 | The handler follows `Remove`. On an error the store is unchanged. |
| Scenarios.ExchangeKeepsHoldingCount | backend/routes/swaps.js:81-83 | Exchanging the owners of two different slots leaves every user owning as many slots as before. |
| Scenarios.AcceptKeepsHoldingCounts | backend/routes/swaps.js:77-90 | After an accept, every user owns as many slots as before, so every user's `/me` list keeps its length. |
| Scenarios.MarketplaceOffersAreProposable | backend/routes/events.js:52 | Any slot the marketplace shows the caller can be requested with any SWAPPABLE slot the caller owns. |
| Scenarios.ProposalWithdrawsSlots | backend/routes/swaps.js:36-37 | A successful proposal removes exactly its two slots from every user's marketplace. |
| Scenarios.OwnerCanReopenReservedSlot | backend/routes/events.js:33-36 | The owner can set a SWAP_PENDING slot back to SWAPPABLE. It then shows in other users' marketplace while its request is still PENDING. |
| Scenarios.ReopenedSlotsAllowSecondProposal | backend/routes/swaps.js:25-28 | After a proposal, if both owners reopen their slots, the same proposal succeeds again. Two PENDING requests then name the same slot. |
| Scenarios.DeletedSlotStrandsRequest | backend/routes/events.js:46 | If the proposer deletes a reserved slot, the recipient's answer with a valid action is 404, writes nothing, and the request stays PENDING. |

## Left out

- Authentication (signup, login, password hashing, token signing and the
  Bearer middleware) is not part of this model. The caller is a given user id.
- `Error` records the status code the route sets. The deployed app does not
  send that code: the routes throw a plain `Error` without a `status` field,
  and the app's error handler answers `err.status || 500`
  (`backend/app.js:33-36`). So the deployed app sends 500 for every refusal,
  while the test apps, which have no such handler, keep the route's code. The
  app wiring is not part of this model.
- The request model, `backend/models/SwapRequest.js`, is not covered by this
  model. A new request is PENDING only through that model's default, because
  `backend/routes/swaps.js:34` passes no status. The tests expect PENDING
  (`backend/__tests__/swaps.test.js:84`). That test posts
  `targetEventId`/`myEventId` (`backend/__tests__/swaps.test.js:69-70`), which
  the route does not read, so the route would stop with 400 at
  `backend/routes/swaps.js:13` before the assertion.
- Sessions, transactions and `populate()` joins are not modelled. Each handler
  is one atomic method. The queries return ids, not populated documents.
- Concurrency is left out. The race between the status check and the
  transactional write cannot occur in a sequential model.
- The event model, `backend/models/Event.js` (required at
  `backend/routes/events.js:4` and `backend/routes/swaps.js:7`), is not
  covered by this model. Its checks that the end time follows the start time
  and that the start is in the future are left out. A new event is BUSY through
  that model's default, which the event tests expect
  (`backend/__tests__/events.test.js:51`).
- A malformed id, which makes the database throw a cast error and answer 500,
  is not modelled. Ids are natural numbers minted by the store.
- JavaScript truthiness is reduced to presence. An absent id, time or status is
  `None`, and a title must also be non-empty. The falsy number 0 sent as a
  time is not modelled.
- Times are integers that are only compared. Date parsing is left out.
- A save writes the whole record rather than only the modified paths. This
  makes no difference when a request's two slots differ, which the store
  invariant guarantees.
- Swaps.MyRequests returns sets, and Events.SwappableEvents returns a set,
  because the database promises no order. Events.MyEvents breaks ties between
  equal start times by id, where the database leaves that order open.
- Response bodies, messages and HTTP plumbing are left out. So are
  infrastructure (connection, bootstrap, health route, init script), the
  frontend, and the helpers defined only inside the unit tests.
