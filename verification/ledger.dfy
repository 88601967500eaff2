/**
 The count of trips in service. A trip increments it when its service starts and
 decrements it when it ends; the driver stops the simulation only once the
 day is closed and the count is back to zero.

 Every client runs its trips one after another, so in the log of all
 starts and ends each client's own entries alternate start, end, start, ...
 beginning with a start. On such a log the counter is exactly the number of
 clients with a trip open.
 */
module Ledger {

  import opened Clock

  datatype Event = Begin | End

  /** One call of the service counter: a start adds one, an end takes one
      away. The counter is a plain integer, decremented without any guard. */
  function ApplyEvent(active: int, e: Event): (r: int)
    ensures r - active == Count([e], Begin) - Count([e], End)
  {
    assert [e][..0] == [];
    match e
    case Begin => active + 1
    case End => active - 1
  }

  function Count(events: seq<Event>, e: Event): (n: nat)
    ensures n <= |events|
  {
    if |events| == 0 then 0
    else Count(events[..|events| - 1], e) + (if events[|events| - 1] == e then 1 else 0)
  }

  /** The counter after replaying a trace of starts and ends from zero: the
      starts seen minus the ends seen. */
  function ActiveAfter(events: seq<Event>): (n: int)
    ensures n == Count(events, Begin) - Count(events, End)
  {
    if |events| == 0 then 0 else ApplyEvent(ActiveAfter(events[..|events| - 1]), events[|events| - 1])
  }

  /** Every end is matched by an earlier start: neither the trace nor any
      shorter prefix of it has more ends than starts. */
  predicate Bracketed(events: seq<Event>)
    decreases |events|
  {
    && Count(events, End) <= Count(events, Begin)
    && (|events| == 0 || Bracketed(events[..|events| - 1]))
  }

  /** One entry of the log: a client starting or ending a trip. */
  datatype Entry = Entry(client: int, event: Event)

  /** The log seen by the counter, without client names. */
  function Events(trace: seq<Entry>): (events: seq<Event>)
    ensures |events| == |trace|
    ensures forall k :: 0 <= k < |trace| ==> events[k] == trace[k].event
  {
    seq(|trace|, k requires 0 <= k < |trace| => trace[k].event)
  }

  /** The clients with a trip open after the log. */
  function OpenTrips(trace: seq<Entry>): set<int> {
    if |trace| == 0 then {}
    else
      var last := trace[|trace| - 1];
      var before := OpenTrips(trace[..|trace| - 1]);
      match last.event
      case Begin => before + {last.client}
      case End => before - {last.client}
  }

  /** Each client's own entries alternate start, end, start, ...: every
      entry is a start exactly when its client has no trip open before it,
      so a client ends a trip only when it has one open. */
  predicate Alternating(trace: seq<Entry>)
    decreases |trace|
  {
    || |trace| == 0
    || (&& Alternating(trace[..|trace| - 1])
        && (trace[|trace| - 1].event == Begin <==> trace[|trace| - 1].client !in OpenTrips(trace[..|trace| - 1])))
  }

  lemma {:induction false} AlternatingPrefix(trace: seq<Entry>, n: nat)
    requires Alternating(trace) && n <= |trace|
    ensures Alternating(trace[..n])
    decreases |trace|
  {
    if n < |trace| {
      var init := trace[..|trace| - 1];
      assert init[..n] == trace[..n];
      AlternatingPrefix(init, n);
    } else {
      assert trace[..n] == trace;
    }
  }

  /** One more entry of an alternating log moves the number of open trips
      as it moves the counter. */
  lemma OpenTripsStep(trace: seq<Entry>)
    requires Alternating(trace) && |trace| > 0
    ensures |OpenTrips(trace)| == ApplyEvent(|OpenTrips(trace[..|trace| - 1])|, trace[|trace| - 1].event)
  {
    var n := |trace| - 1;
    var last := trace[n];
    var before := OpenTrips(trace[..n]);
    assert last.event == Begin <==> last.client !in before;
    if last.event == Begin {
      assert OpenTrips(trace) == before + {last.client};
      assert |before + {last.client}| == |before| + 1;
    } else {
      assert OpenTrips(trace) == before - {last.client};
      assert |before - {last.client}| == |before| - 1;
    }
  }

  /** Replaying one more entry applies its event to the counter. */
  lemma ActiveStep(trace: seq<Entry>)
    requires |trace| > 0
    ensures ActiveAfter(Events(trace)) == ApplyEvent(ActiveAfter(Events(trace[..|trace| - 1])), trace[|trace| - 1].event)
  {
    var n := |trace| - 1;
    assert Events(trace)[..n] == Events(trace[..n]);
  }

  /** On an alternating log the counter equals the number of clients with a
      trip open. */
  lemma {:induction false} ActiveIsOpenTrips(trace: seq<Entry>)
    requires Alternating(trace)
    ensures ActiveAfter(Events(trace)) == |OpenTrips(trace)|
    decreases |trace|
  {
    if |trace| > 0 {
      var n := |trace| - 1;
      AlternatingPrefix(trace, n);
      ActiveIsOpenTrips(trace[..n]);
      ActiveStep(trace);
      OpenTripsStep(trace);
    }
  }

  /** On an alternating log the counter is never negative after a prefix. */
  lemma PrefixNonNegative(trace: seq<Entry>, k: nat)
    requires Alternating(trace) && k <= |trace|
    ensures ActiveAfter(Events(trace)[..k]) >= 0
  {
    AlternatingPrefix(trace, k);
    ActiveIsOpenTrips(trace[..k]);
    assert Events(trace)[..k] == Events(trace[..k]);
  }

  /** On an alternating log no prefix has more ends than starts, so the
      counter is never negative at any point. */
  lemma {:induction false} ActiveNeverNegative(trace: seq<Entry>, k: nat)
    requires Alternating(trace)
    requires k <= |trace|
    ensures Bracketed(Events(trace))
    ensures ActiveAfter(Events(trace)[..k]) >= 0
    decreases |trace|
  {
    PrefixNonNegative(trace, k);
    PrefixNonNegative(trace, |trace|);
    assert Events(trace)[..|trace|] == Events(trace);
    if |trace| > 0 {
      var n := |trace| - 1;
      AlternatingPrefix(trace, n);
      ActiveNeverNegative(trace[..n], n);
      assert Events(trace)[..n] == Events(trace[..n]);
    }
  }

  /** Counting over a concatenation adds the counts of the parts. */
  lemma {:induction false} CountAppend(a: seq<Event>, b: seq<Event>, e: Event)
    ensures Count(a + b, e) == Count(a, e) + Count(b, e)
    decreases |b|
  {
    if |b| == 0 {
      assert a + b == a;
    } else {
      var init := b[..|b| - 1];
      assert (a + b)[..|a + b| - 1] == a + init;
      assert (a + b)[|a + b| - 1] == b[|b| - 1];
      CountAppend(a, init, e);
    }
  }

  /** A completed trip leaves the counter as if it had never happened,
      whatever came before it, whatever other clients' starts and ends fell
      between its start and its end, and whatever followed. */
  lemma TripLeavesCountUnchanged(before: seq<Event>, during: seq<Event>, after: seq<Event>)
    ensures ActiveAfter(before + [Begin] + during + [End] + after) == ActiveAfter(before + during + after)
  {
    forall e: Event
      ensures Count(before + [Begin] + during + [End] + after, e)
              == Count(before + during + after, e) + Count([Begin], e) + Count([End], e)
    {
      CountAppend(before, [Begin], e);
      CountAppend(before + [Begin], during, e);
      CountAppend(before + [Begin] + during, [End], e);
      CountAppend(before + [Begin] + during + [End], after, e);
      CountAppend(before, during, e);
      CountAppend(before + during, after, e);
    }
    assert [Begin][..0] == [] && [End][..0] == [];
  }

  /** The driver's exit test. */
  predicate MayExit(c: ClockState, active: int) {
    c.dayFinished && active == 0
  }

  /** Replaying an alternating log, the driver exits exactly when the clock
      has closed the day at 24:00 and no client has a trip open; while any
      trip is open, or before 24:00, it does not exit. */
  lemma ExitOnlyAfterDayEnd(c: ClockState, trace: seq<Entry>)
    requires ClockInv(c)
    requires Alternating(trace)
    ensures MayExit(c, ActiveAfter(Events(trace))) <==>
              c.dayFinished && c.minute == DAY_MINUTES && OpenTrips(trace) == {}
    ensures OpenTrips(trace) != {} ==> !MayExit(c, ActiveAfter(Events(trace)))
    ensures c.minute < DAY_MINUTES ==> !MayExit(c, ActiveAfter(Events(trace)))
  {
    ActiveIsOpenTrips(trace);
  }
}
