/**
 The taxi registry's two critical sections, each one atomic step on the
 fleet: dispatching the best free taxi within the search radius to a
 client, and completing a trip. Also the pre-rounding fare formula.

 Distances are compared through squared distances: the radius test
 `dist <= 2.0` is `dist^2 <= 4.0` because a distance is never negative.
 The sort key `round(dist, 6)` is a caller-given function `key` of the
 squared distance; the rounded distance is such a function (square root,
 then rounding), and every ordering fact below holds for any `key`.
 */
module Dispatch {

  import opened Options
  import opened Taxis
  import Arith

  const SEARCH_RADIUS_KM: real := 2.0

  function SqDist(t: Taxi, ox: real, oy: real): (d: real)
    ensures d >= 0.0
  {
    (t.x - ox) * (t.x - ox) + (t.y - oy) * (t.y - oy)
  }

  /** A taxi the dispatcher may choose: free and within the search radius
      of the client's origin. */
  predicate IsCandidate(t: Taxi, ox: real, oy: real) {
    t.free && SqDist(t, ox, oy) <= SEARCH_RADIUS_KM * SEARCH_RADIUS_KM
  }

  predicate NoCandidate(fleet: seq<Taxi>, ox: real, oy: real) {
    forall i :: 0 <= i < |fleet| ==> !IsCandidate(fleet[i], ox, oy)
  }

  /** Strict lexicographic order on (distance key, -average rating, id):
      nearer first, then better rated, then lower id. */
  predicate Precedes(t: Taxi, u: Taxi, ox: real, oy: real, key: real -> real) {
    var kt := key(SqDist(t, ox, oy));
    var ku := key(SqDist(u, ox, oy));
    || kt < ku
    || (kt == ku && RatingAvg(t) > RatingAvg(u))
    || (kt == ku && RatingAvg(t) == RatingAvg(u) && t.id < u.id)
  }

  /** `c` is the first taxi in fleet order among the candidates of minimal
      sort key: no candidate precedes it, and it precedes every earlier one. */
  predicate IsBest(fleet: seq<Taxi>, c: nat, ox: real, oy: real, key: real -> real) {
    && c < |fleet|
    && IsCandidate(fleet[c], ox, oy)
    && (forall j :: 0 <= j < |fleet| && IsCandidate(fleet[j], ox, oy) ==> !Precedes(fleet[j], fleet[c], ox, oy, key))
    && (forall j :: 0 <= j < c && IsCandidate(fleet[j], ox, oy) ==> Precedes(fleet[c], fleet[j], ox, oy, key))
  }

  /** The choice among the first n taxis, scanning in fleet order and
      switching only to a strictly preceding candidate; this is the first
      element the program's stable sort of the candidate list puts first. */
  function BestAmong(fleet: seq<Taxi>, n: nat, ox: real, oy: real, key: real -> real): (r: Option<nat>)
    requires n <= |fleet|
    ensures r.None? <==> NoCandidate(fleet[..n], ox, oy)
    ensures r.Some? ==> IsBest(fleet[..n], r.value, ox, oy, key)
    decreases n
  {
    if n == 0 then None
    else
      var b := BestAmong(fleet, n - 1, ox, oy, key);
      var t := fleet[n - 1];
      assert fleet[..n - 1] == fleet[..n][..n - 1];
      if !IsCandidate(t, ox, oy) then b
      else if b.None? || Precedes(t, fleet[b.value], ox, oy, key) then Some(n - 1)
      else b
  }

  /** The outcome of a dispatch request: the index of the chosen taxi, if
      any, and the fleet after the request. */
  datatype Dispatched = Dispatched(chosen: Option<nat>, fleet: seq<Taxi>)

  /** Dispatch a taxi to `client` waiting at (ox, oy). With no candidate
      nothing changes; otherwise the best candidate is marked busy and bound
      to the client, and no other taxi is touched. */
  function AssignTaxi(fleet: seq<Taxi>, client: int, ox: real, oy: real, key: real -> real): (r: Dispatched)
    ensures |r.fleet| == |fleet|
    ensures r.chosen.None? <==> NoCandidate(fleet, ox, oy)
    ensures r.chosen.None? ==> r.fleet == fleet
    ensures r.chosen.Some? ==>
              var c := r.chosen.value;
              && IsBest(fleet, c, ox, oy, key)
              && fleet[c].free
              && SqDist(fleet[c], ox, oy) <= 4.0
              && !r.fleet[c].free
              && r.fleet[c].client == Some(client)
              && r.fleet[c] == fleet[c].(free := r.fleet[c].free, client := r.fleet[c].client)
              && (forall j :: 0 <= j < |fleet| && j != c ==> r.fleet[j] == fleet[j])
    ensures AllConsistent(fleet) ==> AllConsistent(r.fleet)
  {
    assert fleet[..|fleet|] == fleet;
    var best := BestAmong(fleet, |fleet|, ox, oy, key);
    match best
    case None => Dispatched(None, fleet)
    case Some(c) =>
      Dispatched(Some(c), fleet[c := fleet[c].(free := false, client := Some(client))])
  }

  /** Complete the trip of taxi i: it becomes free and unbound, its
      counters absorb the fare and the rating, and it stands at the trip's
      destination. No other taxi is touched. */
  function FinishTrip(fleet: seq<Taxi>, i: nat, dx: real, dy: real, fare: real, rating: int): (r: seq<Taxi>)
    requires i < |fleet|
    ensures |r| == |fleet|
    ensures r[i].id == fleet[i].id
    ensures r[i].free && r[i].client == None
    ensures r[i].services == fleet[i].services + 1
    ensures r[i].earnings == fleet[i].earnings + fare
    ensures r[i].ratingSum == fleet[i].ratingSum + rating as real
    ensures r[i].ratingCount == fleet[i].ratingCount + 1
    ensures (r[i].x, r[i].y) == (dx, dy)
    ensures forall j :: 0 <= j < |fleet| && j != i ==> r[j] == fleet[j]
    ensures AllConsistent(fleet) ==> AllConsistent(r)
    ensures 1 <= rating <= 5 && RatingsInRange(fleet[i]) ==> RatingsInRange(r[i])
  {
    var t := fleet[i];
    fleet[i := t.(
      free := true,
      client := None,
      services := t.services + 1,
      earnings := t.earnings + fare,
      ratingSum := t.ratingSum + rating as real,
      ratingCount := t.ratingCount + 1,
      x := dx,
      y := dy)]
  }

  /** The rating order is a strict order on candidates with distinct ids:
      of two different taxis, exactly one precedes the other. */
  lemma PrecedesTotalOnDistinctIds(t: Taxi, u: Taxi, ox: real, oy: real, key: real -> real)
    requires t.id != u.id
    ensures Precedes(t, u, ox, oy, key) != Precedes(u, t, ox, oy, key)
  {
  }

  /** With distinct ids the dispatcher's choice is the only candidate that
      no other candidate precedes. */
  lemma BestIsUnique(fleet: seq<Taxi>, c: nat, d: nat, ox: real, oy: real, key: real -> real)
    requires DistinctIds(fleet)
    requires c < |fleet| && d < |fleet|
    requires IsCandidate(fleet[c], ox, oy) && IsCandidate(fleet[d], ox, oy)
    requires forall j :: 0 <= j < |fleet| && IsCandidate(fleet[j], ox, oy) ==> !Precedes(fleet[j], fleet[c], ox, oy, key)
    requires forall j :: 0 <= j < |fleet| && IsCandidate(fleet[j], ox, oy) ==> !Precedes(fleet[j], fleet[d], ox, oy, key)
    ensures c == d
  {
  }

  /** When the key keeps every distinction between distances (the unrounded
      distance, say), the chosen taxi is a nearest candidate. */
  lemma ChosenIsNearest(fleet: seq<Taxi>, client: int, ox: real, oy: real, key: real -> real)
    requires forall a: real, b: real :: a < b ==> key(a) < key(b)
    ensures var r := AssignTaxi(fleet, client, ox, oy, key);
            r.chosen.Some? ==>
              forall j :: 0 <= j < |fleet| && IsCandidate(fleet[j], ox, oy) ==>
                SqDist(fleet[r.chosen.value], ox, oy) <= SqDist(fleet[j], ox, oy)
  {
    var r := AssignTaxi(fleet, client, ox, oy, key);
    if r.chosen.Some? {
      var c := r.chosen.value;
      forall j | 0 <= j < |fleet| && IsCandidate(fleet[j], ox, oy)
        ensures SqDist(fleet[c], ox, oy) <= SqDist(fleet[j], ox, oy)
      {
        assert !Precedes(fleet[j], fleet[c], ox, oy, key);
      }
    }
  }

  /** Two free taxis at the same distance: the better rated one is chosen,
      whatever its place in the fleet; a busy nearer taxi is ignored. */
  lemma RatingBreaksDistanceTie()
    ensures
      var rated4 := Taxi(1, 1.0, 0.0, true, None, 2, 20.0, 8.0, 2);
      var rated5 := Taxi(2, 0.0, 1.0, true, None, 1, 10.0, 5.0, 1);
      var busy := Taxi(3, 0.5, 0.0, false, Some(9), 0, 0.0, 0.0, 0);
      AssignTaxi([rated4, rated5, busy], 7, 0.0, 0.0, d => d).chosen == Some(1)
  {
    var rated4 := Taxi(1, 1.0, 0.0, true, None, 2, 20.0, 8.0, 2);
    var rated5 := Taxi(2, 0.0, 1.0, true, None, 1, 10.0, 5.0, 1);
    var busy := Taxi(3, 0.5, 0.0, false, Some(9), 0, 0.0, 0.0, 0);
    var fleet := [rated4, rated5, busy];
    assert RatingAvg(rated4) == 4.0 && RatingAvg(rated5) == 5.0;
    assert Precedes(rated5, rated4, 0.0, 0.0, d => d);
    assert !IsCandidate(busy, 0.0, 0.0);
  }

  /** Same distance, same average: the lower id wins even when it comes
      later in the fleet. */
  lemma IdBreaksRatingTie()
    ensures
      var later := Taxi(7, 1.0, 1.0, true, None, 0, 0.0, 0.0, 0);
      var lower := Taxi(3, 1.0, 1.0, true, None, 0, 0.0, 0.0, 0);
      AssignTaxi([later, lower], 1, 0.0, 0.0, d => d).chosen == Some(1)
  {
    var later := Taxi(7, 1.0, 1.0, true, None, 0, 0.0, 0.0, 0);
    var lower := Taxi(3, 1.0, 1.0, true, None, 0, 0.0, 0.0, 0);
    assert Precedes(lower, later, 0.0, 0.0, d => d);
  }

  const BASE_FEE_EUR: real := 2.50
  const EUR_PER_KM_MIN: real := 1.8
  const EUR_PER_KM_MAX: real := 3.2

  /** The fare before rounding to cents: base fee plus distance times the
      per-kilometre rate drawn for this trip. */
  function Fare(distance: real, rate: real): (f: real)
    requires distance >= 0.0
    requires EUR_PER_KM_MIN <= rate <= EUR_PER_KM_MAX
    ensures BASE_FEE_EUR + EUR_PER_KM_MIN * distance <= f <= BASE_FEE_EUR + EUR_PER_KM_MAX * distance
  {
    Arith.MulNonNeg(rate - EUR_PER_KM_MIN, distance);
    Arith.MulNonNeg(EUR_PER_KM_MAX - rate, distance);
    assert (rate - EUR_PER_KM_MIN) * distance == distance * rate - EUR_PER_KM_MIN * distance;
    assert (EUR_PER_KM_MAX - rate) * distance == EUR_PER_KM_MAX * distance - distance * rate;
    BASE_FEE_EUR + distance * rate
  }

  /** For a fixed rate, a longer trip never costs less. */
  lemma FareMonotone(d1: real, d2: real, rate: real)
    requires 0.0 <= d1 <= d2
    requires EUR_PER_KM_MIN <= rate <= EUR_PER_KM_MAX
    ensures BASE_FEE_EUR <= Fare(d1, rate) <= Fare(d2, rate)
  {
    assert Fare(d2, rate) - Fare(d1, rate) == (d2 - d1) * rate;
    Arith.MulNonNeg(d2 - d1, rate);
  }
}
