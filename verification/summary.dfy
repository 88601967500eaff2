/**
 The end-of-day summary's two winners: the taxi with the highest earnings
 and the taxi with the highest average rating. Both are picked in one scan
 that replaces the current winner only on a strictly greater value, so the
 earliest taxi wins a tie.
 */
module Summary {

  import opened Options
  import opened Taxis

  /** g is the first taxi, in fleet order, whose earnings no taxi exceeds. */
  predicate FirstTopEarner(fleet: seq<Taxi>, g: nat) {
    && g < |fleet|
    && (forall j :: 0 <= j < |fleet| ==> fleet[j].earnings <= fleet[g].earnings)
    && (forall j :: 0 <= j < g ==> fleet[j].earnings < fleet[g].earnings)
  }

  /** r is the first taxi, in fleet order, whose average rating no taxi exceeds. */
  predicate FirstTopRated(fleet: seq<Taxi>, r: nat) {
    && r < |fleet|
    && (forall j :: 0 <= j < |fleet| ==> RatingAvg(fleet[j]) <= RatingAvg(fleet[r]))
    && (forall j :: 0 <= j < r ==> RatingAvg(fleet[j]) < RatingAvg(fleet[r]))
  }

  /** The summary scan: an empty fleet has no winners, any other fleet has
      both, each the earliest taxi attaining the maximum. */
  method FinalSummary(fleet: seq<Taxi>) returns (topEarner: Option<nat>, topRated: Option<nat>)
    ensures topEarner.None? <==> |fleet| == 0
    ensures topRated.None? <==> |fleet| == 0
    ensures topEarner.Some? ==> FirstTopEarner(fleet, topEarner.value)
    ensures topRated.Some? ==> FirstTopRated(fleet, topRated.value)
  {
    topEarner := None;
    topRated := None;
    var i := 0;
    while i < |fleet|
      invariant 0 <= i <= |fleet|
      invariant topEarner.None? <==> i == 0
      invariant topRated.None? <==> i == 0
      invariant topEarner.Some? ==> FirstTopEarner(fleet[..i], topEarner.value)
      invariant topRated.Some? ==> FirstTopRated(fleet[..i], topRated.value)
    {
      var t := fleet[i];
      if topEarner.None? || t.earnings > fleet[topEarner.value].earnings {
        topEarner := Some(i);
      }
      if topRated.None? || RatingAvg(t) > RatingAvg(fleet[topRated.value]) {
        topRated := Some(i);
      }
      i := i + 1;
    }
    assert fleet[..i] == fleet;
  }

  /** The winners are well defined: at most one taxi is the first top
      earner, and at most one the first top rated. */
  lemma WinnersUnique(fleet: seq<Taxi>, a: nat, b: nat)
    ensures FirstTopEarner(fleet, a) && FirstTopEarner(fleet, b) ==> a == b
    ensures FirstTopRated(fleet, a) && FirstTopRated(fleet, b) ==> a == b
  {
    if FirstTopEarner(fleet, a) && FirstTopEarner(fleet, b) {
      assert fleet[a].earnings <= fleet[b].earnings && fleet[b].earnings <= fleet[a].earnings;
    }
    if FirstTopRated(fleet, a) && FirstTopRated(fleet, b) {
      assert RatingAvg(fleet[a]) <= RatingAvg(fleet[b]) && RatingAvg(fleet[b]) <= RatingAvg(fleet[a]);
    }
  }
}
