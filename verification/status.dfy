/**
 The fleet status listing shown with every trip event: the free taxis, and
 the busy ones with the client each is bound to. Labels are kept as data
 (an id, or an id with a client) rather than as rendered text.
 */
module Status {

  import opened Options
  import opened Taxis

  /** A busy taxi's label: its id, with its client when one is bound. */
  datatype BusyLabel = BusyLabel(id: int, client: Option<int>)

  /** Ids of the free taxis, in fleet order. */
  function FreeIds(fleet: seq<Taxi>): (ids: seq<int>)
    ensures |ids| <= |fleet|
    decreases |fleet|
  {
    if |fleet| == 0 then []
    else
      var t := fleet[|fleet| - 1];
      FreeIds(fleet[..|fleet| - 1]) + (if t.free then [t.id] else [])
  }

  /** Labels of the busy taxis, in fleet order. */
  function BusyLabels(fleet: seq<Taxi>): (labels: seq<BusyLabel>)
    ensures |labels| <= |fleet|
    decreases |fleet|
  {
    if |fleet| == 0 then []
    else
      var t := fleet[|fleet| - 1];
      BusyLabels(fleet[..|fleet| - 1]) + (if t.free then [] else [BusyLabel(t.id, t.client)])
  }

  /** The free list holds the id of every free taxi, and nothing but ids of
      free taxis. */
  lemma {:induction false} FreeIdsAreExactlyFree(fleet: seq<Taxi>)
    ensures forall i :: 0 <= i < |fleet| && fleet[i].free ==> fleet[i].id in FreeIds(fleet)
    ensures forall k :: 0 <= k < |FreeIds(fleet)| ==>
              exists i :: 0 <= i < |fleet| && fleet[i].free && fleet[i].id == FreeIds(fleet)[k]
    decreases |fleet|
  {
    if |fleet| == 0 {
      assert FreeIds(fleet) == [];
    } else {
      var init := fleet[..|fleet| - 1];
      var t := fleet[|fleet| - 1];
      FreeIdsAreExactlyFree(init);
      var ids := FreeIds(fleet);
      assert ids == FreeIds(init) + (if t.free then [t.id] else []);
      forall k | 0 <= k < |ids|
        ensures exists i :: 0 <= i < |fleet| && fleet[i].free && fleet[i].id == ids[k]
      {
        if k < |FreeIds(init)| {
          assert ids[k] == FreeIds(init)[k];
          var i :| 0 <= i < |init| && init[i].free && init[i].id == FreeIds(init)[k];
          assert fleet[i] == init[i];
          assert 0 <= i < |fleet| && fleet[i].free && fleet[i].id == ids[k];
        } else {
          var w := |fleet| - 1;
          assert t.free && ids[k] == t.id;
          assert 0 <= w < |fleet| && fleet[w].free && fleet[w].id == ids[k];
        }
      }
      forall i | 0 <= i < |fleet| && fleet[i].free
        ensures fleet[i].id in ids
      {
        if i < |init| {
          assert init[i] == fleet[i];
        }
      }
    }
  }

  /** The busy list holds the label of every busy taxi, and nothing but
      labels of busy taxis. */
  lemma {:induction false} BusyLabelsAreExactlyBusy(fleet: seq<Taxi>)
    ensures forall i :: 0 <= i < |fleet| && !fleet[i].free ==> BusyLabel(fleet[i].id, fleet[i].client) in BusyLabels(fleet)
    ensures forall k :: 0 <= k < |BusyLabels(fleet)| ==>
              exists i :: 0 <= i < |fleet| && !fleet[i].free && BusyLabel(fleet[i].id, fleet[i].client) == BusyLabels(fleet)[k]
    decreases |fleet|
  {
    if |fleet| == 0 {
      assert BusyLabels(fleet) == [];
    } else {
      var init := fleet[..|fleet| - 1];
      var t := fleet[|fleet| - 1];
      BusyLabelsAreExactlyBusy(init);
      var labels := BusyLabels(fleet);
      assert labels == BusyLabels(init) + (if t.free then [] else [BusyLabel(t.id, t.client)]);
      forall k | 0 <= k < |labels|
        ensures exists i :: 0 <= i < |fleet| && !fleet[i].free && BusyLabel(fleet[i].id, fleet[i].client) == labels[k]
      {
        if k < |BusyLabels(init)| {
          assert labels[k] == BusyLabels(init)[k];
          var i :| 0 <= i < |init| && !init[i].free && BusyLabel(init[i].id, init[i].client) == BusyLabels(init)[k];
          assert fleet[i] == init[i];
          assert 0 <= i < |fleet| && !fleet[i].free && BusyLabel(fleet[i].id, fleet[i].client) == labels[k];
        } else {
          var w := |fleet| - 1;
          assert !t.free && labels[k] == BusyLabel(t.id, t.client);
          assert 0 <= w < |fleet| && !fleet[w].free && BusyLabel(fleet[w].id, fleet[w].client) == labels[k];
        }
      }
      forall i | 0 <= i < |fleet| && !fleet[i].free
        ensures BusyLabel(fleet[i].id, fleet[i].client) in labels
      {
        if i < |init| {
          assert init[i] == fleet[i];
        }
      }
    }
  }

  /** The free/busy split covers every taxi exactly once. */
  lemma {:induction false} SnapshotCoversFleet(fleet: seq<Taxi>)
    ensures |FreeIds(fleet)| + |BusyLabels(fleet)| == |fleet|
    decreases |fleet|
  {
    if |fleet| > 0 {
      SnapshotCoversFleet(fleet[..|fleet| - 1]);
    }
  }

  /** The free list follows fleet order: the free taxis of a front part of
      the fleet are listed before those of the rest. */
  lemma {:induction false} FreeIdsFollowFleetOrder(front: seq<Taxi>, back: seq<Taxi>)
    ensures FreeIds(front + back) == FreeIds(front) + FreeIds(back)
    decreases |back|
  {
    if |back| == 0 {
      assert front + back == front;
    } else {
      var whole := front + back;
      var init := back[..|back| - 1];
      var last := back[|back| - 1];
      var tail := if last.free then [last.id] else [];
      assert whole[..|whole| - 1] == front + init;
      assert whole[|whole| - 1] == last;
      assert FreeIds(whole) == FreeIds(front + init) + tail;
      assert FreeIds(back) == FreeIds(init) + tail;
      FreeIdsFollowFleetOrder(front, init);
    }
  }

  /** The busy list follows fleet order in the same way. */
  lemma {:induction false} BusyLabelsFollowFleetOrder(front: seq<Taxi>, back: seq<Taxi>)
    ensures BusyLabels(front + back) == BusyLabels(front) + BusyLabels(back)
    decreases |back|
  {
    if |back| == 0 {
      assert front + back == front;
    } else {
      var whole := front + back;
      var init := back[..|back| - 1];
      var last := back[|back| - 1];
      var tail := if last.free then [] else [BusyLabel(last.id, last.client)];
      assert whole[..|whole| - 1] == front + init;
      assert whole[|whole| - 1] == last;
      assert BusyLabels(whole) == BusyLabels(front + init) + tail;
      assert BusyLabels(back) == BusyLabels(init) + tail;
      BusyLabelsFollowFleetOrder(front, init);
    }
  }

  /** On a consistent fleet every busy label carries its client. */
  lemma BusyLabelsShowClients(fleet: seq<Taxi>)
    requires AllConsistent(fleet)
    ensures forall k :: 0 <= k < |BusyLabels(fleet)| ==> BusyLabels(fleet)[k].client.Some?
  {
    BusyLabelsAreExactlyBusy(fleet);
  }

  /** The locked snapshot taken for reporting: free ids and busy labels. */
  function StatusSnapshot(fleet: seq<Taxi>): (r: (seq<int>, seq<BusyLabel>))
    ensures |r.0| + |r.1| == |fleet|
    ensures forall i :: 0 <= i < |fleet| ==>
              if fleet[i].free then fleet[i].id in r.0
              else BusyLabel(fleet[i].id, fleet[i].client) in r.1
  {
    SnapshotCoversFleet(fleet);
    FreeIdsAreExactlyFree(fleet);
    BusyLabelsAreExactlyBusy(fleet);
    (FreeIds(fleet), BusyLabels(fleet))
  }

  /** The same listing built in a single pass over the fleet, each taxi
      going to one of the two lists; it agrees with the snapshot. */
  method ShowTaxiStatus(fleet: seq<Taxi>) returns (free: seq<int>, busy: seq<BusyLabel>)
    ensures (free, busy) == StatusSnapshot(fleet)
  {
    free := [];
    busy := [];
    var i := 0;
    while i < |fleet|
      invariant 0 <= i <= |fleet|
      invariant free == FreeIds(fleet[..i])
      invariant busy == BusyLabels(fleet[..i])
    {
      var t := fleet[i];
      var prefix := fleet[..i + 1];
      assert prefix[..i] == fleet[..i] && prefix[i] == t;
      assert FreeIds(prefix) == FreeIds(fleet[..i]) + (if t.free then [t.id] else []);
      assert BusyLabels(prefix) == BusyLabels(fleet[..i]) + (if t.free then [] else [BusyLabel(t.id, t.client)]);
      if t.free {
        free := free + [t.id];
      } else {
        busy := busy + [BusyLabel(t.id, t.client)];
      }
      i := i + 1;
    }
    assert fleet[..i] == fleet;
  }
}
