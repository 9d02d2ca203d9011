# Travel reservations: the reservation lifecycle, verified

This project models the reservation core of a small travel-booking web service
(`reservasviajes.py`). It covers four things:

- the trip catalog, which lists the trips marked available;
- the payment check, a format test on the card number;
- creating a reservation for an available trip;
- cancelling a reservation, which sets its refund flag.

The relational database becomes an explicit store. It holds the trips in storage
order, the reservations by id, the id the next reservation receives, and an outbox
of the notification e-mails handed to the mail relay.

Modules, in dependency order:

- `Wrappers` (`wrappers.dfy`): `Option` and `Result`.
- `CardFormat` (`card_format.dfy`): the card-number check. It is Python's
  `re.match(r'^[0-9]{16}$', card_number)`, written as a matcher that follows the
  pattern piece by piece. A lemma states the language it accepts.
- `Catalog` (`catalog.dfy`): the `Trip` row, the lookup of a trip by id, and the
  listing of available trips.
- `Lifecycle` (`lifecycle.dfy`): the reservation row, the error kinds with their
  HTTP status and detail text, and the database as a value (`Db`). It holds pure
  definitions of reserving (`Reserve`) and cancelling (`Cancel`). It also has
  request sequences (`Run`) and the lemmas about them.
- `Service` (`service.dfy`): class `Store`. It holds the database as fields that
  its methods update in place, in the order the endpoints do their steps. Each
  method is proved to give exactly the outcome `Lifecycle` describes. Client
  methods walk through a sample end-to-end run: user 1 reserves available trip 5
  with a sixteen-digit card, then cancels.

Behaviour the model keeps from the code:

- The card check accepts exactly 16 characters in '0'..'9'. It also accepts those
  16 followed by a single final `"\n"`, because `$` without MULTILINE also matches
  before a final newline. A reading of the pattern as "exactly 16 digits" misses
  this case; the model follows the code.
- Reserving checks the card first, so a malformed card is refused even when the
  trip is missing. Then it looks for a row with the trip id and `available` set.
  Only then does it insert one row, with the column defaults (status "Confirmed",
  refund flag false). The user id is never checked. Any number of reservations of
  the same trip are allowed, and reserving never clears `available`.
- Cancelling refuses an unknown id ("Reservation not found", 404). It refuses a
  row whose status is already "Cancelled" ("Reservation already cancelled", 400).
  Otherwise it sets status "Cancelled" and the refund flag, and commits.
  - `status` stays a string, as in the table. The check compares only against
    "Cancelled", so a row with any other status would be cancelled.
  - After the commit, the notice needs the destination of the reservation's trip.
    The database does not enforce the foreign key. When no trip row has that id,
    reading the destination raises an uncaught error (HTTP 500) and the committed
    change stays. The model returns `InternalError` with the store changed and no
    notice sent. `Lifecycle.CancelPreservesConsistency` proves this cannot happen
    on a store whose every reservation names an existing trip. `Store.Valid()`
    includes that property, every method keeps it, and so
    `Store.CancelReservation` never ends in `InternalError`.
- Notices carry the user id as the recipient. That is what the code passes where
  an e-mail address is expected. As written, that makes every send fail, so no
  notice ever goes out and no committed request is answered 200 (see the
  `Lifecycle.Reserve` and `Lifecycle.Cancel` lines under "## Left out").
- New reservation ids come from a counter that starts at 1. The database gives a
  new row the largest existing id plus one. The store invariant says the ids in use
  are exactly 1 up to the counter minus one. `Lifecycle.NextIdFollowsLargest`
  proves that the counter is then the database's own choice.
- Refusals are answered with the status and detail text the code raises: 400
  "Invalid card number", 404 "Trip not available", 404 "Reservation not found",
  400 "Reservation already cancelled". An uncaught error is answered with 500.

## Model

| member | source | states |
|---|---|---|
| CardFormat.DigitsThenEndExactly | reservasviajes.py:119 | `[0-9]{n}$` matched at the start accepts exactly n ASCII digits, or n digits and one final newline, and nothing else (both directions, for every n) |
| CardFormat.CardNumberAccepted | reservasviajes.py:119 | a card number passes iff it is 16 characters from '0'..'9', or those 16 followed by a single "\n" |
| CardFormat.AcceptedSample | reservasviajes.py:119 | "1234567890123456" passes the card check |
| CardFormat.AcceptedSampleWithNewline | reservasviajes.py:119 | "1234567890123456" followed by "\n" passes the card check too |
| CardFormat.RejectedLengthSamples | reservasviajes.py:119 | "1234", 17 digits, and 16 digits followed by two newlines are refused |
| CardFormat.RejectedCharacterSamples | reservasviajes.py:119 | "12345678901234ab" and 16 digits after a leading blank are refused |
| Catalog.FindTrip | reservasviajes.py:121 | finds nothing iff no row has the id (and, when asked, is available); whatever it finds is such a row of the table |
| Catalog.AvailableTrips | reservasviajes.py:114 | the listing holds only available trips and every available trip, keeps storage order (a subsequence), and is exactly as long as the number of available rows |
| Catalog.AvailableTripsUnique | reservasviajes.py:114 | any ordered selection of available rows that is as long as the number of available rows equals the listing, so the listing's contract determines it |
| Lifecycle.Reserve | reservasviajes.py:118-128 | refused with InvalidCardNumber iff the card is malformed, whatever the trip; refused with TripNotAvailable iff the card is well-formed and no available trip has the id; a refusal changes nothing; success adds exactly one row (the given user and trip, "Confirmed", no refund) under the next id, keeps trips and other rows, and appends one "confirmed" notice to the user with the trip's destination |
| Lifecycle.Cancel | reservasviajes.py:132-142 | ReservationNotFound iff the id is absent; AlreadyCancelled iff its status is "Cancelled"; both change nothing; otherwise only that row becomes "Cancelled" with the refund flag set, trips and the id counter stay, and a "cancelled" notice with the trip's destination is appended iff the trip row exists, else the request fails with InternalError after the change |
| Lifecycle.NextIdFollowsLargest | reservasviajes.py:44 | on a store with valid keys the counter is 1 iff the table is empty, and otherwise it is one more than the largest id in use, the id the table's integer primary key gives the next row |
| Lifecycle.ReserveRefusalResponse | reservasviajes.py:119-123 | a refused reservation is answered 400 "Invalid card number" when the card is malformed, whatever the trip, and otherwise 404 "Trip not available" |
| Lifecycle.CancelRefusalResponse | reservasviajes.py:133-141 | a refused cancellation is answered 404 "Reservation not found" for an unknown id, 400 "Reservation already cancelled" for a cancelled row, and 500 only when the row's trip does not exist |
| Lifecycle.ReservePreservesConsistency | reservasviajes.py:121-126 | reserving keeps key integrity, "status Confirmed without refund or Cancelled with refund" for every row, and every row naming an existing trip |
| Lifecycle.CancelPreservesConsistency | reservasviajes.py:133-141 | cancelling keeps the same invariants, and on such a store never ends in InternalError |
| Lifecycle.RunPreservesConsistency | reservasviajes.py:112-142 | every sequence of listing, reserve and cancel requests keeps the store consistent |
| Lifecycle.StepKeepsRows | reservasviajes.py:124-139 | one request never deletes a row, never changes its user or trip, and never changes a cancelled row |
| Lifecycle.RunFrame | reservasviajes.py:112-142 | over any sequence of requests: the trip table (including `available`) never changes, no reservation disappears or changes its user or trip, and earlier notices are kept as a prefix |
| Lifecycle.CancelledIsTerminal | reservasviajes.py:136-139 | once a reservation is "Cancelled", no later request changes its row: status and refund flag stay set |
| Lifecycle.ReserveThenCancelTwice | reservasviajes.py:118-142 | a successful reserve creates the row "Confirmed" without refund under the next id; cancelling it succeeds and sets "Cancelled" and the refund; cancelling again fails with AlreadyCancelled and changes nothing |
| Lifecycle.DuplicateReservationsAllowed | reservasviajes.py:121-126 | the same reservation request made twice succeeds twice, with two new distinct ids holding identical rows, and the trip stays available |
| Service.Store.constructor | reservasviajes.py:42-50 | a new store holds the given trips, no reservation, the id counter at 1 and no notice, and is consistent |
| Service.Store.GetTrips | reservasviajes.py:112-114 | returns only available trips, every available trip, in storage order |
| Service.Store.ReserveTrip | reservasviajes.py:117-128 | runs the card check, the lookup and the insert in place, keeps the store consistent (key integrity, status/refund invariant, trip references), and leaves the store and answer exactly as Lifecycle.Reserve says |
| Service.Store.CancelReservation | reservasviajes.py:131-142 | runs the lookup, the cancelled check and the in-place update, keeps the store consistent, leaves the store and answer exactly as Lifecycle.Cancel says, and never fails with InternalError |
| Service.RejectedScenario | reservasviajes.py:119-123 | a card cut to four digits and a reservation of an unavailable trip are refused, and the store is left unchanged |
| Service.ReserveScenario | reservasviajes.py:117-128 | on a fresh store, user 1 reserving available trip 5 with a 16-digit card yields exactly one row, "Confirmed" without refund, and one "confirmed" notice |
| Service.CancelScenario | reservasviajes.py:131-142 | cancelling that row succeeds once and sets the refund; a second cancel and a cancel of an unknown id fail and change nothing |
| Service.EndToEndScenario | reservasviajes.py:117-142 | the two halves compose on one fresh store: trip 5 reserved and then cancelled leaves one row, "Cancelled" with the refund set, the trip table unchanged, and a "confirmed" then a "cancelled" notice |

## Left out

- The HTTP reply to a successful request carries only a message. The model returns the new or cancelled reservation id instead, so that a cancellation can be tied to the reservation it cancels.

- Sending e-mail (`send_notification`, reservasviajes.py:145-155) is SMTP I/O. The model appends a `Notice` to the outbox and treats the send as isolated from the request and successful.
- Lifecycle.Reserve: on success the model answers `Ok(id)` and records a "confirmed" notice. That is the intended outcome with the notification isolated, not the program's. As written, the send after the commit always raises. Line 151 puts the int user id in the `To` header. The default `compat32` policy of `MIMEText` keeps the int, and serialising it in `msg.as_string()` (line 155) raises. Even before that, `server.login` (line 154) uses the placeholder credentials of lines 146-147. So the program answers every committed reservation with 500: the row stays and no mail is sent.
- Lifecycle.Cancel: the same holds for a successful cancellation (line 141). The program commits the status and refund change, then answers 500 and sends nothing. The model answers `Ok(id)` and records a "cancelled" notice.
- Registration, login, password hashing and token issuance (reservasviajes.py:82-109) wrap bcrypt, JWT and the clock. User uniqueness rests only on the database's unique constraints, so there is no user table in the model.
- The engine, session, table creation, `get_db`, routing and the request/response models (reservasviajes.py:15-79) are framework plumbing. HTTP codes and detail strings appear only as `Lifecycle.StatusCode` and `Lifecycle.Detail`.
- `Trip.price` is a float that no logic reads, so it is left out. `Trip.date` is kept as an unchecked string.
- There is no operation that creates trips, so the `available` column default (reservasviajes.py:40) is not exercised: the store starts from a given trip table.
- The payment's CVV and expiry date are carried but never checked, as in the code.
- Concurrency between requests, and races between a check and the update that follows it, are outside the model. Requests run one at a time.
- Integer ids are unbounded. The 64-bit limit of the database's row ids is not modelled.
