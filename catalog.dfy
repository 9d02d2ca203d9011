/**
  The trip table and the two queries run against it: the catalog listing
  (`get_trips`, only trips whose `available` flag is set, in storage order) and the
  lookup of one trip by id (with or without the `available` filter).
*/
module Catalog {
  import opened Wrappers

  /** One row of the `trips` table. The price column is not modelled. */
  datatype Trip = Trip(id: int, destination: string, date: string, available: bool)

  /** The primary key: no two rows share an id. */
  predicate TripIdsUnique(trips: seq<Trip>) {
    forall i, j :: 0 <= i < j < |trips| ==> trips[i].id != trips[j].id
  }

  /** The row filter of a lookup by id, optionally restricted to available trips. */
  predicate Selects(t: Trip, tripId: int, onlyAvailable: bool) {
    t.id == tripId && (onlyAvailable ==> t.available)
  }

  /**
    `query(Trip).filter(Trip.id == tripId[, Trip.available == True]).first()`:
    the first row in storage order that passes the filter, or nothing.
  */
  function FindTrip(trips: seq<Trip>, tripId: int, onlyAvailable: bool): (r: Option<Trip>)
    ensures r.None? <==> forall i :: 0 <= i < |trips| ==> !Selects(trips[i], tripId, onlyAvailable)
    ensures r.Some? ==> exists i :: 0 <= i < |trips| && trips[i] == r.value && Selects(r.value, tripId, onlyAvailable)
  {
    if |trips| == 0 then None
    else if Selects(trips[0], tripId, onlyAvailable) then Some(trips[0])
    else
      var r := FindTrip(trips[1..], tripId, onlyAvailable);
      assert forall i :: 1 <= i < |trips| ==> trips[i] == trips[1..][i - 1];
      r
  }

  /** `s` can be obtained from `t` by deleting elements, keeping the order of the rest. */
  predicate IsSubsequence(s: seq<Trip>, t: seq<Trip>)
    decreases |t|
  {
    if s == [] then true
    else if t == [] then false
    else (s[0] == t[0] && IsSubsequence(s[1..], t[1..])) || IsSubsequence(s, t[1..])
  }

  /** How many rows of `trips` are marked available. */
  function CountAvailable(trips: seq<Trip>): nat {
    if trips == [] then 0
    else (if trips[0].available then 1 else 0) + CountAvailable(trips[1..])
  }

  /**
    `query(Trip).filter(Trip.available == True).all()`: every available row, in
    storage order, and no other.
  */
  function AvailableTrips(trips: seq<Trip>): (r: seq<Trip>)
    ensures forall k :: 0 <= k < |r| ==> r[k].available
    ensures forall i :: 0 <= i < |trips| && trips[i].available ==> trips[i] in r
    ensures forall t :: t in r ==> t in trips
    ensures IsSubsequence(r, trips)
    ensures |r| == CountAvailable(trips)
  {
    if trips == [] then []
    else
      var rest := AvailableTrips(trips[1..]);
      assert forall i :: 1 <= i < |trips| ==> trips[i] == trips[1..][i - 1];
      if trips[0].available then
        assert ([trips[0]] + rest)[1..] == rest;
        [trips[0]] + rest
      else rest
  }

  /** A subsequence made only of available rows has at most as many rows as are available. */
  lemma {:induction false} AvailableSubsequenceBound(s: seq<Trip>, t: seq<Trip>)
    requires IsSubsequence(s, t)
    requires forall k :: 0 <= k < |s| ==> s[k].available
    ensures |s| <= CountAvailable(t)
    decreases |t|
  {
    if s != [] {
      if s[0] == t[0] && IsSubsequence(s[1..], t[1..]) {
        AvailableSubsequenceBound(s[1..], t[1..]);
      } else {
        AvailableSubsequenceBound(s, t[1..]);
      }
    }
  }

  /**
    The listing is the only ordered selection of available rows that misses none:
    any subsequence of the table made of available rows, as long as the number of
    available rows, is the listing itself.
  */
  lemma {:induction false} AvailableTripsUnique(trips: seq<Trip>, r: seq<Trip>)
    requires IsSubsequence(r, trips)
    requires forall k :: 0 <= k < |r| ==> r[k].available
    requires |r| == CountAvailable(trips)
    ensures r == AvailableTrips(trips)
    decreases |trips|
  {
    if trips != [] && r != [] {
      if r[0] == trips[0] && IsSubsequence(r[1..], trips[1..]) {
        assert trips[0].available;
        AvailableTripsUnique(trips[1..], r[1..]);
        assert r == [r[0]] + r[1..];
      } else {
        AvailableSubsequenceBound(r, trips[1..]);
        AvailableTripsUnique(trips[1..], r);
      }
    }
  }
}
