/**
 One client's trip through the shared state, with each locked region taken
 as one atomic step: dispatch, start of service, completion of the trip,
 end of service. Other actors' steps may fall between these; the lemmas
 here say what each step does to taxis it does not own.
 */
module Simulation {

  import opened Options
  import opened Taxis
  import opened Dispatch
  import opened Clock
  import Ledger

  /** The shared state: the fleet, the clock and the in-progress trip count. */
  datatype System = System(fleet: seq<Taxi>, clock: ClockState, active: int)

  predicate SystemInv(s: System) {
    AllConsistent(s.fleet) && DistinctIds(s.fleet) && ClockInv(s.clock)
  }

  /** The state the driver starts the day in. */
  function InitialSystem(positions: seq<(real, real)>): (s: System)
    ensures SystemInv(s)
    ensures |s.fleet| == |positions| && s.active == 0 && s.clock == Start
  {
    System(InitialFleet(positions), Start, 0)
  }

  /** A dispatch never alters a busy taxi: once bound, a taxi stays with its
      client until that client's trip completes. */
  lemma AssignLeavesBusyTaxis(fleet: seq<Taxi>, client: int, ox: real, oy: real, key: real -> real)
    ensures var r := AssignTaxi(fleet, client, ox, oy, key);
            forall j :: 0 <= j < |fleet| && !fleet[j].free ==> r.fleet[j] == fleet[j]
  {
  }

  /** Once a dispatch binds taxi c to client a, the steps other clients may
      interleave keep it there: a second client's dispatch never picks c,
      and completing the trip of any other taxi leaves c busy with a. */
  lemma TaxiStaysWithClient(fleet: seq<Taxi>, a: int, ox: real, oy: real, key: real -> real,
                            b: int, px: real, py: real,
                            i: nat, dx: real, dy: real, fare: real, rating: int)
    requires i < |fleet|
    ensures var first := AssignTaxi(fleet, a, ox, oy, key);
            first.chosen.Some? ==>
              var c := first.chosen.value;
              var second := AssignTaxi(first.fleet, b, px, py, key);
              var finished := FinishTrip(first.fleet, i, dx, dy, fare, rating);
              && second.chosen != Some(c)
              && !second.fleet[c].free && second.fleet[c].client == Some(a)
              && (i != c ==> !finished[c].free && finished[c].client == Some(a))
  {
  }

  /** The driver's exit test reads only the clock and the service counter.
      A client given a taxi just before 24:00 that has not yet started
      service is invisible to it: with the day closed and no service
      started, the test passes while that taxi is still bound to the
      client. */
  lemma ExitWhileDispatchPending()
    ensures var d := AssignTaxi([NewTaxi(1, 0.0, 0.0)], 5, 0.0, 0.0, x => x);
            && d.chosen == Some(0)
            && !d.fleet[0].free && d.fleet[0].client == Some(5)
            && Ledger.MayExit(ClockState(DAY_MINUTES, true), Ledger.ActiveAfter([]))
  {
    assert IsCandidate(NewTaxi(1, 0.0, 0.0), 0.0, 0.0);
  }

  /** A whole trip of one client run without interleaving: no taxi found
      leaves the state as it was; otherwise the chosen taxi ends up free and
      unbound at the destination with one more service, the fare and the
      rating recorded, the trip count is back where it
      started, the other taxis are untouched, and the invariants still hold. */
  function ServeTrip(s: System, client: int, ox: real, oy: real, dx: real, dy: real,
                     fare: real, rating: int, key: real -> real): (r: (Option<nat>, System))
    ensures r.0.None? <==> NoCandidate(s.fleet, ox, oy)
    ensures r.0.None? ==> r.1 == s
    ensures r.0.Some? ==>
              var c := r.0.value;
              && IsBest(s.fleet, c, ox, oy, key)
              && |r.1.fleet| == |s.fleet|
              && r.1.active == s.active
              && r.1.clock == s.clock
              && r.1.fleet[c].id == s.fleet[c].id
              && r.1.fleet[c].free && r.1.fleet[c].client == None
              && (r.1.fleet[c].x, r.1.fleet[c].y) == (dx, dy)
              && r.1.fleet[c].services == s.fleet[c].services + 1
              && r.1.fleet[c].earnings == s.fleet[c].earnings + fare
              && r.1.fleet[c].ratingSum == s.fleet[c].ratingSum + rating as real
              && r.1.fleet[c].ratingCount == s.fleet[c].ratingCount + 1
              && (forall j :: 0 <= j < |s.fleet| && j != c ==> r.1.fleet[j] == s.fleet[j])
    ensures SystemInv(s) ==> SystemInv(r.1)
  {
    var d := AssignTaxi(s.fleet, client, ox, oy, key);
    match d.chosen
    case None => (None, s)
    case Some(c) =>
      var started := s.(fleet := d.fleet, active := Ledger.ApplyEvent(s.active, Ledger.Begin));
      var finished := started.(fleet := FinishTrip(started.fleet, c, dx, dy, fare, rating));
      var ended := finished.(active := Ledger.ApplyEvent(finished.active, Ledger.End));
      assert forall j :: 0 <= j < |s.fleet| ==> ended.fleet[j].id == s.fleet[j].id;
      (Some(c), ended)
  }
}
