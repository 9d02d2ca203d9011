/**
  The service's database session as a mutable store: the reservation endpoint
  inserts a row, the cancellation endpoint updates the looked-up row in place, and
  the listing endpoint only reads. Each method does its steps in the order the
  endpoint does them and is proved to produce exactly the outcome the pure
  definitions in `Lifecycle` describe.
*/
module Service {
  import opened Wrappers
  import opened Catalog
  import opened Lifecycle
  import CardFormat

  class Store {
    var trips: seq<Trip>
    var reservations: map<int, Reservation>
    var nextId: int
    var outbox: seq<Notice>

    /** The store's content as a database value. */
    ghost function Snapshot(): Db
      reads this
    {
      Db(trips, reservations, nextId, outbox)
    }

    /** Key integrity, the status/refund invariant and resolvable trip references. */
    ghost predicate Valid()
      reads this
    {
      Consistent(Snapshot())
    }

    /** A store holding the given trips (created outside the service) and no reservation yet. */
    constructor (initialTrips: seq<Trip>)
      requires TripIdsUnique(initialTrips)
      ensures Valid()
      ensures Snapshot() == Db(initialTrips, map[], 1, [])
    {
      trips := initialTrips;
      reservations := map[];
      nextId := 1;
      outbox := [];
    }

    /** `get_trips`: the available trips, in storage order. */
    method GetTrips() returns (listed: seq<Trip>)
      ensures forall k :: 0 <= k < |listed| ==> listed[k].available
      ensures forall i :: 0 <= i < |trips| && trips[i].available ==> trips[i] in listed
      ensures IsSubsequence(listed, trips) && |listed| == CountAvailable(trips)
    {
      listed := AvailableTrips(trips);
    }

    /** `reserve_trip`. */
    method ReserveTrip(userId: int, tripId: int, payment: Payment) returns (result: Result<int, Error>)
      requires Valid()
      modifies this
      ensures Valid()
      ensures Outcome(Snapshot(), result) == Reserve(old(Snapshot()), userId, tripId, payment)
    {
      ReservePreservesConsistency(Snapshot(), userId, tripId, payment);
      if !CardFormat.MatchesCardPattern(payment.cardNumber) {
        return Err(InvalidCardNumber);
      }
      var trip := FindTrip(trips, tripId, true);
      if trip.None? {
        return Err(TripNotAvailable);
      }
      var id := nextId;
      reservations := reservations[id := NewReservation(userId, tripId)];
      nextId := nextId + 1;
      outbox := outbox + [Notice(userId, trip.value.destination, "confirmed")];
      return Ok(id);
    }

    /** `cancel_reservation`. */
    method CancelReservation(reservationId: int) returns (result: Result<int, Error>)
      requires Valid()
      modifies this
      ensures Valid()
      ensures Outcome(Snapshot(), result) == Cancel(old(Snapshot()), reservationId)
      ensures result != Err(InternalError)
    {
      CancelPreservesConsistency(Snapshot(), reservationId);
      if reservationId !in reservations {
        return Err(ReservationNotFound);
      }
      var reservation := reservations[reservationId];
      if reservation.status == Cancelled {
        return Err(AlreadyCancelled);
      }
      reservation := reservation.(status := Cancelled);
      reservation := reservation.(refundIssued := true);
      reservations := reservations[reservationId := reservation];
      var trip := FindTrip(trips, reservation.tripId, false);
      // A missing trip row makes reading its destination fail after the commit.
      outbox := if trip.Some? then outbox + [Notice(reservation.userId, trip.value.destination, "cancelled")] else outbox;
      result := if trip.Some? then Ok(reservationId) else Err(InternalError);
    }
  }

  /**
    Requests that fail leave the store as it was: a card cut to four digits is
    refused even for an available trip, and trip 6 is refused because it is not
    available.
  */
  method RejectedScenario(store: Store, destination: string, date: string, card: string)
    requires store.Valid()
    requires store.trips == [Trip(5, destination, date, true), Trip(6, destination, date, false)]
    requires |card| == 16 && CardFormat.AllAsciiDigits(card)
    modifies store
    ensures store.Snapshot() == old(store.Snapshot())
  {
    CardFormat.CardNumberAccepted(card);
    CardFormat.CardNumberAccepted(card[..4]);
    var bad := store.ReserveTrip(1, 5, Payment(card[..4], "123", "12/30"));
    assert bad == Err(InvalidCardNumber);
    assert !TripAvailable(store.trips, 6);
    var closed := store.ReserveTrip(1, 6, Payment(card, "123", "12/30"));
    assert closed == Err(TripNotAvailable);
  }

  /**
    A sample end-to-end run, first half: trip 5 is available, user 1 reserves
    it with any sixteen-digit card number, which yields exactly one confirmed
    reservation and one "confirmed" notice.
  */
  method ReserveScenario(destination: string, date: string, card: string) returns (store: Store)
    requires |card| == 16 && CardFormat.AllAsciiDigits(card)
    ensures fresh(store)
    ensures store.Valid()
    ensures store.trips == [Trip(5, destination, date, true), Trip(6, destination, date, false)]
    ensures store.reservations == map[1 := Reservation(1, 5, Confirmed, false)]
    ensures store.outbox == [Notice(1, destination, "confirmed")]
  {
    store := new Store([Trip(5, destination, date, true), Trip(6, destination, date, false)]);
    RejectedScenario(store, destination, date, card);
    CardFormat.CardNumberAccepted(card);
    assert TripAvailable(store.trips, 5) by { assert store.trips[0].id == 5; }
    var made := store.ReserveTrip(1, 5, Payment(card, "123", "12/30"));
    assert made == Ok(1);
    assert |store.outbox| == 1;
    assert store.outbox[0].destination == destination by {
      var i :| 0 <= i < 2 && store.trips[i].id == 5 && store.trips[i].available
               && store.trips[i].destination == store.outbox[0].destination;
    }
    assert store.outbox[0] == Notice(1, destination, "confirmed");
    assert store.outbox == [store.outbox[0]];
  }

  /**
    Second half: cancelling that reservation succeeds once and sets the refund
    flag; cancelling it again fails with `AlreadyCancelled`, and an unknown id
    fails with `ReservationNotFound`, neither changing anything.
  */
  method CancelScenario(store: Store, destination: string, date: string)
    requires store.Valid()
    requires store.trips == [Trip(5, destination, date, true), Trip(6, destination, date, false)]
    requires store.reservations == map[1 := Reservation(1, 5, Confirmed, false)]
    requires store.outbox == [Notice(1, destination, "confirmed")]
    modifies store
    ensures store.Valid()
    ensures store.trips == old(store.trips)
    ensures store.reservations == map[1 := Reservation(1, 5, Cancelled, true)]
    ensures store.outbox == [Notice(1, destination, "confirmed"), Notice(1, destination, "cancelled")]
  {
    assert Confirmed != Cancelled by { assert Confirmed[1] != Cancelled[1]; }
    assert TripExists(store.trips, 5) by { assert store.trips[0].id == 5; }
    var first := store.CancelReservation(1);
    assert first == Ok(1);
    var second := store.CancelReservation(1);
    assert second == Err(AlreadyCancelled);
    var missing := store.CancelReservation(2);
    assert missing == Err(ReservationNotFound);
  }

  /** The whole sample run: the reservation half followed by the cancellation half. */
  method EndToEndScenario(destination: string, date: string, card: string) returns (store: Store)
    requires |card| == 16 && CardFormat.AllAsciiDigits(card)
    ensures fresh(store)
    ensures store.trips == [Trip(5, destination, date, true), Trip(6, destination, date, false)]
    ensures store.reservations == map[1 := Reservation(1, 5, Cancelled, true)]
    ensures store.outbox == [Notice(1, destination, "confirmed"), Notice(1, destination, "cancelled")]
  {
    store := ReserveScenario(destination, date, card);
    CancelScenario(store, destination, date);
  }
}
