/**
 The taxi record of the dispatch simulation, its derived average rating and
 the fleet-wide invariants every operation of the registry keeps.
 */
module Taxis {

  import opened Options
  import Arith

  /** One taxi: identity, position on the map, availability, bound client and
      the statistics accumulated over the day. */
  datatype Taxi = Taxi(
    id: int,
    x: real,
    y: real,
    free: bool,
    client: Option<int>,
    services: nat,
    earnings: real,
    ratingSum: real,
    ratingCount: nat
  )

  /** A taxi is available exactly when it is bound to no client. */
  predicate Consistent(t: Taxi) {
    t.free <==> t.client.None?
  }

  /** The state a taxi has when the simulation creates it. */
  predicate Fresh(t: Taxi) {
    && t.free
    && t.client == None
    && t.services == 0
    && t.earnings == 0.0
    && t.ratingSum == 0.0
    && t.ratingCount == 0
  }

  /** Every recorded rating lies in 1..5, stated on the running sum. */
  predicate RatingsInRange(t: Taxi) {
    t.ratingCount as real <= t.ratingSum <= 5.0 * t.ratingCount as real
  }

  /** The record as constructed with only id and position given; every
      other field takes its declared default. */
  function NewTaxi(id: int, x: real, y: real): (t: Taxi)
    ensures t.id == id && t.x == x && t.y == y
    ensures Fresh(t)
    ensures Consistent(t)
    ensures RatingsInRange(t)
  {
    Taxi(id, x, y, true, None, 0, 0.0, 0.0, 0)
  }

  /** Average rating: 0 when nothing has been rated yet. */
  function RatingAvg(t: Taxi): (a: real)
    ensures t.ratingCount == 0 ==> a == 0.0
    ensures t.ratingCount > 0 ==> a * t.ratingCount as real == t.ratingSum
  {
    if t.ratingCount == 0 then 0.0 else t.ratingSum / t.ratingCount as real
  }

  /** With every rating in 1..5, a rated taxi averages between 1 and 5. */
  lemma AvgWithinRatingScale(t: Taxi)
    requires RatingsInRange(t)
    ensures t.ratingCount > 0 ==> 1.0 <= RatingAvg(t) <= 5.0
    ensures t.ratingCount == 0 ==> RatingAvg(t) == 0.0
  {
    if t.ratingCount > 0 {
      var n := t.ratingCount as real;
      assert RatingAvg(t) == t.ratingSum / n;
      Arith.QuotientWithinScale(t.ratingSum, n);
    }
  }

  predicate AllConsistent(fleet: seq<Taxi>) {
    forall i :: 0 <= i < |fleet| ==> Consistent(fleet[i])
  }

  predicate DistinctIds(fleet: seq<Taxi>) {
    forall i, j :: 0 <= i < j < |fleet| ==> fleet[i].id != fleet[j].id
  }

  /** The fleet built at start-up: taxi i (0-based) gets id i + 1 and the
      i-th drawn position, everything else at its default. */
  function InitialFleet(positions: seq<(real, real)>): (fleet: seq<Taxi>)
    ensures |fleet| == |positions|
    ensures forall i :: 0 <= i < |fleet| ==>
              && fleet[i].id == i + 1
              && (fleet[i].x, fleet[i].y) == positions[i]
              && Fresh(fleet[i])
    ensures AllConsistent(fleet)
    ensures DistinctIds(fleet)
  {
    seq(|positions|, i requires 0 <= i < |positions| => NewTaxi(i + 1, positions[i].0, positions[i].1))
  }
}
