/**
 The simulated clock: a minute counter advanced once per tick from 00:00 to
 24:00, after which the day is closed and the clock stops. Also the
 admission gate a client checks before starting a new trip, and the trip
 duration rule.
 */
module Clock {

  /** Length of the simulated day in minutes (24 * 60). */
  const DAY_MINUTES: nat := 1440

  datatype ClockState = ClockState(minute: nat, dayFinished: bool)

  const Start := ClockState(0, false)

  /** What every reachable clock state satisfies: the counter never passes
      the day length, and the day is closed only at exactly 24:00. */
  predicate ClockInv(c: ClockState) {
    c.minute <= DAY_MINUTES && (c.dayFinished ==> c.minute == DAY_MINUTES)
  }

  /** One pass of the clock loop, after its one-minute sleep: close the day
      once the counter has reached the day length, otherwise advance it. */
  function Tick(c: ClockState): (r: ClockState)
    ensures r.minute >= c.minute
    ensures r.dayFinished <==> c.dayFinished || c.minute >= DAY_MINUTES
    ensures r.minute == c.minute || (c.minute < DAY_MINUTES && r.minute == c.minute + 1)
    ensures c.minute < DAY_MINUTES ==> r.minute == c.minute + 1 && r.dayFinished == c.dayFinished
    ensures ClockInv(c) ==> ClockInv(r)
  {
    if c.minute >= DAY_MINUTES then c.(dayFinished := true)
    else c.(minute := c.minute + 1)
  }

  /** The clock after up to n passes of its loop; the loop exits on the pass
      that closes the day, so later passes change nothing. */
  function Advance(c: ClockState, n: nat): (r: ClockState)
    ensures c.minute <= r.minute <= c.minute + n
    ensures c.dayFinished ==> r == c
    ensures ClockInv(c) ==> ClockInv(r)
    decreases n
  {
    if n == 0 || c.dayFinished then c else Advance(Tick(c), n - 1)
  }

  /** From any open minute m, n passes reach minute m + n, or close the day
      at 24:00 once m + n passes the day length. */
  lemma {:induction false} AdvanceFrom(m: nat, n: nat)
    requires m <= DAY_MINUTES
    ensures Advance(ClockState(m, false), n) ==
              if m + n <= DAY_MINUTES then ClockState(m + n, false)
              else ClockState(DAY_MINUTES, true)
    decreases n
  {
    if n == 0 {
    } else if m < DAY_MINUTES {
      AdvanceFrom(m + 1, n - 1);
    } else {
      assert Tick(ClockState(m, false)) == ClockState(DAY_MINUTES, true);
    }
  }

  /** The timeline of one day: n passes after start show minute n, and the
      day is closed from pass 1441 on. */
  lemma ClockTimeline(n: nat)
    ensures Advance(Start, n).minute == if n <= DAY_MINUTES then n else DAY_MINUTES
    ensures Advance(Start, n).dayFinished <==> n > DAY_MINUTES
    ensures ClockInv(Advance(Start, n))
  {
    AdvanceFrom(0, n);
  }

  /** The clock thread run to completion: it closes the day at 24:00 after
      exactly one pass more than the day has minutes. */
  method RunClock() returns (c: ClockState, passes: nat)
    ensures c == ClockState(DAY_MINUTES, true)
    ensures passes == DAY_MINUTES + 1
  {
    c := Start;
    passes := 0;
    while !c.dayFinished
      invariant ClockInv(c)
      invariant !c.dayFinished ==> c.minute == passes
      invariant c.dayFinished ==> passes == DAY_MINUTES + 1
      decreases DAY_MINUTES + 1 - passes
    {
      c := Tick(c);
      passes := passes + 1;
    }
  }

  /** A client starts a new trip only while the clock reads before 24:00
      and the day is not closed. */
  predicate MayStartTrip(c: ClockState) {
    !(c.minute >= DAY_MINUTES || c.dayFinished)
  }

  /** On a reachable clock, admission is open exactly before 24:00, and a
      closed admission stays closed on every later tick. */
  lemma AdmissionClosesAtDayEnd(c: ClockState)
    requires ClockInv(c)
    ensures MayStartTrip(c) <==> c.minute < DAY_MINUTES
    ensures !MayStartTrip(c) ==> !MayStartTrip(Tick(c))
  {
  }

  /** Trip length: the drawn duration, but at least one minute. */
  function TripDuration(drawn: int): (d: nat)
    ensures d >= 1 && d >= drawn
    ensures d == drawn || d == 1
  {
    if drawn < 1 then 1 else drawn
  }

  /** Planned end minute of a trip started at `start`; it may lie past
      24:00, and the trip still runs to completion. */
  function TripEnd(start: nat, drawn: int): (e: nat)
    ensures e > start && e >= start + drawn
    ensures drawn >= 1 ==> e == start + drawn
    ensures drawn < 1 ==> e == start + 1
  {
    start + TripDuration(drawn)
  }
}
