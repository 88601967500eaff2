/**
 Rendering of a simulated minute as a wall-clock reading "HH:MM", with a
 " (+Nd)" suffix once the minute lies N whole days past the start, and a
 reader for that format against which the rendering is checked.
 */
module TimeFormat {

  import opened Options
  import opened Clock
  import Arith

  predicate IsDigit(c: char) {
    '0' <= c <= '9'
  }

  predicate AllDigits(s: string) {
    forall i :: 0 <= i < |s| ==> IsDigit(s[i])
  }

  function DigitChar(d: nat): (c: char)
    requires d < 10
    ensures IsDigit(c)
  {
    ('0' as int + d) as char
  }

  function DigitValue(c: char): (d: nat)
    requires IsDigit(c)
    ensures d < 10
  {
    c as int - '0' as int
  }

  lemma DigitRoundTrip(d: nat)
    requires d < 10
    ensures DigitValue(DigitChar(d)) == d
  {
  }

  /** The number a string of decimal digits denotes, most significant first. */
  function DecimalValue(s: string): nat
    requires AllDigits(s)
  {
    if |s| == 0 then 0 else DecimalValue(s[..|s| - 1]) * 10 + DigitValue(s[|s| - 1])
  }

  /** Decimal rendering of a natural number, without leading zeros. */
  function Decimal(n: nat): (s: string)
    ensures |s| >= 1 && AllDigits(s)
    ensures n > 0 ==> s[0] != '0'
    ensures DecimalValue(s) == n
  {
    if n < 10 then [DigitChar(n)]
    else
      var prefix := Decimal(n / 10);
      var s := prefix + [DigitChar(n % 10)];
      assert s[..|s| - 1] == prefix;
      s
  }

  /** A number below 100 as exactly two digits, zero-padded. */
  function Pad2(n: nat): (s: string)
    requires n < 100
    ensures |s| == 2 && AllDigits(s)
    ensures DigitValue(s[0]) * 10 + DigitValue(s[1]) == n
  {
    [DigitChar(n / 10), DigitChar(n % 10)]
  }

  /** Days elapsed at minute m, as the suffix reports them (none for m < 1440,
      including negative m). */
  function DayOffset(m: int): nat {
    if m / DAY_MINUTES <= 0 then 0 else m / DAY_MINUTES
  }

  /** The clock reading of minute m: hour and minute within the day, then
      the day suffix only when at least one whole day has passed. */
  function MinuteToClock(m: int): (s: string)
    ensures |s| >= 5 && AllDigits(s[..2]) && s[2] == ':' && AllDigits(s[3..5])
    ensures DigitValue(s[0]) * 10 + DigitValue(s[1]) == (m % DAY_MINUTES) / 60 < 24
    ensures DigitValue(s[3]) * 10 + DigitValue(s[4]) == m % 60
    ensures |s| == 5 <==> m < DAY_MINUTES
    ensures m >= DAY_MINUTES ==>
              && |s| >= 11 && s[5..8] == " (+" && s[|s| - 2..] == "d)"
              && AllDigits(s[8..|s| - 2]) && s[8] != '0'
              && DecimalValue(s[8..|s| - 2]) == m / DAY_MINUTES
  {
    var dayOffset := m / DAY_MINUTES;
    var mm := m % DAY_MINUTES;
    var hh := mm / 60;
    var mi := mm % 60;
    assert mi == m % 60 by { ModOfDayMod(m); }
    var hhmm := Pad2(hh) + ":" + Pad2(mi);
    if dayOffset <= 0 then hhmm
    else
      var digits := Decimal(dayOffset);
      var s := hhmm + " (+" + digits + "d)";
      assert s[8..|s| - 2] == digits;
      s
  }

  /** Taking minutes modulo the day keeps the minute of the hour, since an
      hour divides the day. */
  lemma ModOfDayMod(m: int)
    ensures (m % DAY_MINUTES) % 60 == m % 60
  {
    var q := m / DAY_MINUTES;
    var r := m % DAY_MINUTES;
    assert m == q * DAY_MINUTES + r;
    assert r == (r / 60) * 60 + r % 60;
    assert m == (q * 24 + r / 60) * 60 + r % 60;
    Arith.ModSixtyUnique(m, q * 24 + r / 60, r % 60);
  }

  /** A clock reading split into its fields. */
  datatype Reading = Reading(hour: nat, minute: nat, days: nat)

  /** Reads "HH:MM" or "HH:MM (+Nd)" with N written without leading zeros;
      anything else is not a clock reading. */
  function ParseClock(s: string): Option<Reading> {
    if |s| < 5 || !IsDigit(s[0]) || !IsDigit(s[1]) || s[2] != ':' || !IsDigit(s[3]) || !IsDigit(s[4]) then None
    else
      var hh := DigitValue(s[0]) * 10 + DigitValue(s[1]);
      var mi := DigitValue(s[3]) * 10 + DigitValue(s[4]);
      if |s| == 5 then Some(Reading(hh, mi, 0))
      else if |s| < 11 || s[5..8] != " (+" || s[|s| - 2..] != "d)" || !AllDigits(s[8..|s| - 2]) || s[8] == '0' then None
      else Some(Reading(hh, mi, DecimalValue(s[8..|s| - 2])))
  }

  /** The minute a reading stands for. */
  function ReadingMinute(r: Reading): int {
    r.days * DAY_MINUTES + r.hour * 60 + r.minute
  }

  /** Reading back a rendered minute recovers hour, minute and day offset;
      for every non-negative minute it recovers the minute itself. */
  lemma ClockRoundTrip(m: int)
    ensures ParseClock(MinuteToClock(m)) == Some(Reading((m % DAY_MINUTES) / 60, m % 60, DayOffset(m)))
    ensures m >= 0 ==> ReadingMinute(ParseClock(MinuteToClock(m)).value) == m
  {
    var s := MinuteToClock(m);
    var hh := (m % DAY_MINUTES) / 60;
    var mi := m % 60;
    ModOfDayMod(m);
    var hhmm := Pad2(hh) + ":" + Pad2(mi);
    if m / DAY_MINUTES > 0 {
      var digits := Decimal(m / DAY_MINUTES);
      assert s == hhmm + " (+" + digits + "d)";
      assert s[5..8] == " (+";
      assert s[8..|s| - 2] == digits;
      assert s[|s| - 2..] == "d)";
    }
    if m >= 0 {
      var r := m % DAY_MINUTES;
      assert m == (m / DAY_MINUTES) * DAY_MINUTES + r;
      assert r == hh * 60 + (r % 60);
    }
  }

  /** The four readings the simulation's log shows around midnight; a day
      count with a leading zero is not one of its readings. */
  lemma ClockExamples()
    ensures MinuteToClock(0) == "00:00"
    ensures MinuteToClock(1439) == "23:59"
    ensures MinuteToClock(1440) == "00:00 (+1d)"
    ensures MinuteToClock(1500) == "01:00 (+1d)"
    ensures ParseClock("00:00 (+01d)") == None
  {
    assert Decimal(1) == "1";
  }
}
