/**
  The reservation lifecycle over an explicit database value: creating a reservation
  for an available trip after the card-format check, and cancelling it with the
  refund flag. Every request either fails and leaves the database as it was, or
  makes exactly the change described in its contract. The notification sent after
  a committed change is recorded as a `Notice` appended to `outbox`.
*/
module Lifecycle {
  import opened Wrappers
  import opened Catalog
  import CardFormat

  /** The two values the reservation flow writes into the `status` column. */
  const Confirmed: string := "Confirmed"
  const Cancelled: string := "Cancelled"

  /** One row of the `reservations` table (the id is its key in `Db.reservations`). */
  datatype Reservation = Reservation(userId: int, tripId: int, status: string, refundIssued: bool)

  /** The payment details of a reservation request; only the card number is looked at. */
  datatype Payment = Payment(cardNumber: string, cvv: string, expirationDate: string)

  /**
    An e-mail handed to the mail relay: "Your trip to <destination> has been <event>."
    The recipient is the user id, which is what the code passes where an address
    is expected. As written, the send itself always raises after the commit (the
    int in the `To` header cannot be serialised, and the sender credentials are
    placeholders); the model records the notice as if sending were isolated from
    the request and succeeded.
  */
  datatype Notice = Notice(recipient: int, destination: string, event: string)

  /** The ways a request fails. `InternalError` is an uncaught exception (answered with 500). */
  datatype Error = InvalidCardNumber | TripNotAvailable | ReservationNotFound | AlreadyCancelled | InternalError

  /** The HTTP status each failure is answered with. */
  function StatusCode(e: Error): nat {
    match e
    case InvalidCardNumber => 400
    case TripNotAvailable => 404
    case ReservationNotFound => 404
    case AlreadyCancelled => 400
    case InternalError => 500
  }

  /** The `detail` text of each failure raised on purpose. */
  function Detail(e: Error): string {
    match e
    case InvalidCardNumber => "Invalid card number"
    case TripNotAvailable => "Trip not available"
    case ReservationNotFound => "Reservation not found"
    case AlreadyCancelled => "Reservation already cancelled"
    case InternalError => "Internal Server Error"
  }

  /**
    The database: the trip table in storage order, the reservation table by id,
    the id the next inserted reservation receives, and the notices sent so far.
  */
  datatype Db = Db(trips: seq<Trip>, reservations: map<int, Reservation>, nextId: int, outbox: seq<Notice>)

  /** The database after a request, and the request's answer (the reservation id on success). */
  datatype Outcome = Outcome(db: Db, result: Result<int, Error>)

  /**
    Key integrity: trip ids are unique, and the reservation ids are exactly
    1 .. nextId - 1 (rows are numbered from 1 and never deleted).
  */
  predicate KeysValid(db: Db) {
    && db.nextId >= 1
    && (forall id :: id in db.reservations ==> 1 <= id < db.nextId)
    && (forall id :: 1 <= id < db.nextId ==> id in db.reservations)
    && TripIdsUnique(db.trips)
  }

  /**
    The id counter is the id the table itself would hand out: 1 on an empty
    table, otherwise the largest id in use plus one.
  */
  lemma NextIdFollowsLargest(db: Db)
    requires KeysValid(db)
    ensures db.reservations.Keys == {} <==> db.nextId == 1
    ensures db.nextId > 1 ==>
              db.nextId - 1 in db.reservations && forall id :: id in db.reservations ==> id < db.nextId
  {
    if db.nextId > 1 {
      assert 1 in db.reservations;
    } else {
      assert forall id :: id !in db.reservations.Keys;
    }
  }

  /** A reservation is either confirmed without refund or cancelled with refund. */
  predicate StatusConsistent(r: Reservation) {
    (r.status == Confirmed && !r.refundIssued) || (r.status == Cancelled && r.refundIssued)
  }

  predicate LifecycleInvariant(db: Db) {
    forall id :: id in db.reservations ==> StatusConsistent(db.reservations[id])
  }

  /** Every reservation names a trip row that exists (the table's foreign key, which the store does not enforce). */
  predicate ReferencesResolve(db: Db) {
    forall id :: id in db.reservations ==> FindTrip(db.trips, db.reservations[id].tripId, false).Some?
  }

  predicate Consistent(db: Db) {
    KeysValid(db) && LifecycleInvariant(db) && ReferencesResolve(db)
  }

  /** Some row has this id and is available. */
  predicate TripAvailable(trips: seq<Trip>, tripId: int) {
    exists i :: 0 <= i < |trips| && trips[i].id == tripId && trips[i].available
  }

  /** Some row has this id, available or not. */
  predicate TripExists(trips: seq<Trip>, tripId: int) {
    exists i :: 0 <= i < |trips| && trips[i].id == tripId
  }

  /** A new row takes the column defaults for status and refund. */
  function NewReservation(userId: int, tripId: int): Reservation {
    Reservation(userId, tripId, Confirmed, false)
  }

  /**
    `reserve_trip`: card check, then the lookup of an available trip, then one insert
    and a "confirmed" notice. The user id is not checked and duplicates are allowed.
  */
  function Reserve(db: Db, userId: int, tripId: int, payment: Payment): (o: Outcome)
    ensures o.result == Err(InvalidCardNumber) <==> !CardFormat.MatchesCardPattern(payment.cardNumber)
    ensures o.result == Err(TripNotAvailable) <==>
              CardFormat.MatchesCardPattern(payment.cardNumber) && !TripAvailable(db.trips, tripId)
    ensures o.result.Ok? <==>
              CardFormat.MatchesCardPattern(payment.cardNumber) && TripAvailable(db.trips, tripId)
    ensures o.result.Err? ==> o.db == db
    ensures o.result.Ok? ==>
              && o.result.value == db.nextId
              && o.db.trips == db.trips
              && o.db.nextId == db.nextId + 1
              && o.db.reservations == db.reservations[db.nextId := Reservation(userId, tripId, Confirmed, false)]
              && |o.db.outbox| == |db.outbox| + 1
              && o.db.outbox[..|db.outbox|] == db.outbox
              && o.db.outbox[|db.outbox|].recipient == userId
              && o.db.outbox[|db.outbox|].event == "confirmed"
              && exists i :: 0 <= i < |db.trips| && db.trips[i].id == tripId && db.trips[i].available
                               && db.trips[i].destination == o.db.outbox[|db.outbox|].destination
  {
    if !CardFormat.MatchesCardPattern(payment.cardNumber) then
      Outcome(db, Err(InvalidCardNumber))
    else
      match FindTrip(db.trips, tripId, true)
      case None => Outcome(db, Err(TripNotAvailable))
      case Some(trip) =>
        var id := db.nextId;
        var db' := db.(reservations := db.reservations[id := NewReservation(userId, tripId)],
                       nextId := id + 1,
                       outbox := db.outbox + [Notice(userId, trip.destination, "confirmed")]);
        assert db'.outbox[..|db.outbox|] == db.outbox;
        Outcome(db', Ok(id))
  }

  /**
    `cancel_reservation`: the lookup by id, the "already cancelled" check, then the
    status and refund update (committed) and a "cancelled" notice with the
    destination of the reservation's trip. When that trip row is missing, reading
    its destination raises after the commit: the change stays, no notice is sent and
    the request fails with `InternalError`.
  */
  function Cancel(db: Db, reservationId: int): (o: Outcome)
    ensures o.result == Err(ReservationNotFound) <==> reservationId !in db.reservations
    ensures o.result == Err(AlreadyCancelled) <==>
              reservationId in db.reservations && db.reservations[reservationId].status == Cancelled
    ensures o.result == Err(ReservationNotFound) || o.result == Err(AlreadyCancelled) ==> o.db == db
    ensures o.result.Ok? ==> o.result.value == reservationId
    ensures reservationId in db.reservations && db.reservations[reservationId].status != Cancelled ==>
              var r := db.reservations[reservationId];
              && o.db.trips == db.trips
              && o.db.nextId == db.nextId
              && o.db.reservations == db.reservations[reservationId := r.(status := Cancelled, refundIssued := true)]
              && (o.result.Ok? <==> TripExists(db.trips, r.tripId))
              && (o.result.Ok? || o.result == Err(InternalError))
              && (o.result.Err? ==> o.db.outbox == db.outbox)
              && (o.result.Ok? ==>
                    && |o.db.outbox| == |db.outbox| + 1
                    && o.db.outbox[..|db.outbox|] == db.outbox
                    && o.db.outbox[|db.outbox|].recipient == r.userId
                    && o.db.outbox[|db.outbox|].event == "cancelled"
                    && exists i :: 0 <= i < |db.trips| && db.trips[i].id == r.tripId
                                     && db.trips[i].destination == o.db.outbox[|db.outbox|].destination)
  {
    if reservationId !in db.reservations then
      Outcome(db, Err(ReservationNotFound))
    else
      var r := db.reservations[reservationId];
      if r.status == Cancelled then
        Outcome(db, Err(AlreadyCancelled))
      else
        var committed := db.(reservations := db.reservations[reservationId := r.(status := Cancelled, refundIssued := true)]);
        match FindTrip(db.trips, r.tripId, false)
        case None => Outcome(committed, Err(InternalError))
        case Some(trip) =>
          var db' := committed.(outbox := db.outbox + [Notice(r.userId, trip.destination, "cancelled")]);
          assert db'.outbox[..|db.outbox|] == db.outbox;
          Outcome(db', Ok(reservationId))
  }

  /**
    How a refused reservation is answered: a malformed card with 400 "Invalid card
    number", whatever the trip; otherwise a missing or unavailable trip with 404
    "Trip not available".
  */
  lemma ReserveRefusalResponse(db: Db, userId: int, tripId: int, payment: Payment)
    ensures var o := Reserve(db, userId, tripId, payment);
            o.result.Err? ==>
              if !CardFormat.MatchesCardPattern(payment.cardNumber) then
                StatusCode(o.result.error) == 400 && Detail(o.result.error) == "Invalid card number"
              else
                StatusCode(o.result.error) == 404 && Detail(o.result.error) == "Trip not available"
  {
  }

  /**
    How a refused cancellation is answered: an unknown id with 404 "Reservation not
    found", a cancelled row with 400 "Reservation already cancelled", and a row whose
    trip is missing with the 500 of the uncaught error.
  */
  lemma CancelRefusalResponse(db: Db, reservationId: int)
    ensures var o := Cancel(db, reservationId);
            o.result.Err? ==>
              if reservationId !in db.reservations then
                StatusCode(o.result.error) == 404 && Detail(o.result.error) == "Reservation not found"
              else if db.reservations[reservationId].status == Cancelled then
                StatusCode(o.result.error) == 400 && Detail(o.result.error) == "Reservation already cancelled"
              else
                StatusCode(o.result.error) == 500 && !TripExists(db.trips, db.reservations[reservationId].tripId)
  {
  }

  /** A request as it reaches the service, one at a time. */
  datatype Request =
    | ReserveRequest(userId: int, tripId: int, payment: Payment)
    | CancelRequest(reservationId: int)
    | ListRequest

  /** The database after one request; the listing reads and changes nothing. */
  function Step(db: Db, req: Request): Db {
    match req
    case ReserveRequest(u, t, p) => Reserve(db, u, t, p).db
    case CancelRequest(id) => Cancel(db, id).db
    case ListRequest => db
  }

  /** The database after a series of requests, served in order. */
  function Run(db: Db, reqs: seq<Request>): Db
    decreases |reqs|
  {
    if reqs == [] then db else Run(Step(db, reqs[0]), reqs[1..])
  }

  /** Reserving keeps key integrity, the status/refund invariant and the trip references. */
  lemma ReservePreservesConsistency(db: Db, userId: int, tripId: int, payment: Payment)
    requires Consistent(db)
    ensures Consistent(Reserve(db, userId, tripId, payment).db)
  {
  }

  /** Cancelling keeps the invariants, and on a consistent database never hits the missing-trip failure. */
  lemma CancelPreservesConsistency(db: Db, reservationId: int)
    requires Consistent(db)
    ensures Consistent(Cancel(db, reservationId).db)
    ensures Cancel(db, reservationId).result != Err(InternalError)
  {
  }

  lemma StepPreservesConsistency(db: Db, req: Request)
    requires Consistent(db)
    ensures Consistent(Step(db, req))
  {
    match req
    case ReserveRequest(u, t, p) => ReservePreservesConsistency(db, u, t, p);
    case CancelRequest(id) => CancelPreservesConsistency(db, id);
    case ListRequest =>
  }

  /** Every series of requests keeps the database consistent. */
  lemma {:induction false} RunPreservesConsistency(db: Db, reqs: seq<Request>)
    requires Consistent(db)
    ensures Consistent(Run(db, reqs))
    decreases |reqs|
  {
    if reqs != [] {
      StepPreservesConsistency(db, reqs[0]);
      RunPreservesConsistency(Step(db, reqs[0]), reqs[1..]);
    }
  }

  /** Key integrity alone survives every request. */
  lemma StepPreservesKeysValid(db: Db, req: Request)
    requires KeysValid(db)
    ensures KeysValid(Step(db, req))
  {
  }

  /**
    What one request may change in an existing row: only the status and the refund
    flag, and only of a row that was not cancelled yet.
  */
  lemma StepKeepsRows(db: Db, req: Request, id: int)
    requires KeysValid(db) && id in db.reservations
    ensures id in Step(db, req).reservations
    ensures var before, after := db.reservations[id], Step(db, req).reservations[id];
            after.userId == before.userId && after.tripId == before.tripId &&
            (before.status == Cancelled ==> after == before)
  {
  }

  /**
    No request changes the trip table (reserving never clears `available`), no
    reservation is ever deleted, a reservation's user and trip never change, and
    notices are only ever appended.
  */
  lemma {:induction false} RunFrame(db: Db, reqs: seq<Request>)
    requires KeysValid(db)
    ensures Run(db, reqs).trips == db.trips
    ensures db.reservations.Keys <= Run(db, reqs).reservations.Keys
    ensures forall id :: id in db.reservations ==>
              && Run(db, reqs).reservations[id].userId == db.reservations[id].userId
              && Run(db, reqs).reservations[id].tripId == db.reservations[id].tripId
    ensures |db.outbox| <= |Run(db, reqs).outbox| && Run(db, reqs).outbox[..|db.outbox|] == db.outbox
    decreases |reqs|
  {
    if reqs != [] {
      var next := Step(db, reqs[0]);
      StepPreservesKeysValid(db, reqs[0]);
      RunFrame(next, reqs[1..]);
      forall id | id in db.reservations
        ensures id in next.reservations
        ensures next.reservations[id].userId == db.reservations[id].userId
        ensures next.reservations[id].tripId == db.reservations[id].tripId
      {
        StepKeepsRows(db, reqs[0], id);
      }
      assert Run(db, reqs) == Run(next, reqs[1..]);
      assert next.outbox[..|db.outbox|] == db.outbox;
      assert Run(db, reqs).outbox[..|db.outbox|] == Run(db, reqs).outbox[..|next.outbox|][..|db.outbox|];
    }
  }

  /** "Cancelled" is terminal: once cancelled, a reservation's row never changes again. */
  lemma {:induction false} CancelledIsTerminal(db: Db, reqs: seq<Request>, id: int)
    requires KeysValid(db)
    requires id in db.reservations && db.reservations[id].status == Cancelled
    ensures id in Run(db, reqs).reservations
    ensures Run(db, reqs).reservations[id] == db.reservations[id]
    decreases |reqs|
  {
    if reqs != [] {
      var next := Step(db, reqs[0]);
      StepPreservesKeysValid(db, reqs[0]);
      StepKeepsRows(db, reqs[0], id);
      CancelledIsTerminal(next, reqs[1..], id);
    }
  }

  /**
    Reserve, then cancel the new reservation: the cancel succeeds and sets the
    status to "Cancelled" and the refund flag; a second cancel fails with
    `AlreadyCancelled` and changes nothing.
  */
  lemma ReserveThenCancelTwice(db: Db, userId: int, tripId: int, payment: Payment)
    requires Consistent(db)
    requires CardFormat.MatchesCardPattern(payment.cardNumber) && TripAvailable(db.trips, tripId)
    ensures var reserved := Reserve(db, userId, tripId, payment);
            var id := reserved.result.value;
            var first := Cancel(reserved.db, id);
            && reserved.result == Ok(db.nextId)
            && reserved.db.reservations[id] == Reservation(userId, tripId, Confirmed, false)
            && first.result == Ok(id)
            && first.db.reservations[id] == Reservation(userId, tripId, Cancelled, true)
            && Cancel(first.db, id) == Outcome(first.db, Err(AlreadyCancelled))
  {
  }

  /**
    There is no capacity: the same request made twice creates two reservations with
    different ids, and the trip stays available.
  */
  lemma DuplicateReservationsAllowed(db: Db, userId: int, tripId: int, payment: Payment)
    requires KeysValid(db)
    requires CardFormat.MatchesCardPattern(payment.cardNumber) && TripAvailable(db.trips, tripId)
    ensures var first := Reserve(db, userId, tripId, payment);
            var second := Reserve(first.db, userId, tripId, payment);
            && first.result.Ok? && second.result.Ok?
            && first.result.value != second.result.value
            && first.result.value !in db.reservations && second.result.value !in db.reservations
            && second.db.reservations[first.result.value] == second.db.reservations[second.result.value]
            && TripAvailable(second.db.trips, tripId)
  {
  }
}
