/**
 * Zone-aware date-times as `datetime.strptime(..., "%z")` builds them, their POSIX
 * timestamps, and the export filename root `YYYY-MM-DD-HH-MM-SS` (scan.py:181-182).
 */
module Timestamps {
  import opened Wrappers
  import opened Strings
  import opened Decimal

  const MicrosPerDay: int := 86_400_000_000

  /** A date-time in its own zone; `offset` is its UTC offset in microseconds. */
  datatype DateTime = DateTime(year: nat, month: nat, day: nat, hour: nat, minute: nat, second: nat, offset: int)

  predicate IsLeapYear(y: int) {
    y % 4 == 0 && (y % 100 != 0 || y % 400 == 0)
  }

  function DaysInYear(y: int): int {
    if IsLeapYear(y) then 366 else 365
  }

  function DaysInMonth(y: int, m: int): int
    requires 1 <= m <= 12
  {
    if m == 2 then (if IsLeapYear(y) then 29 else 28)
    else if m == 4 || m == 6 || m == 9 || m == 11 then 30
    else 31
  }

  /** The ranges `datetime` and `timezone` accept: the constructor raises ValueError outside them. */
  predicate Valid(dt: DateTime) {
    && 1 <= dt.year <= 9999 && 1 <= dt.month <= 12 && 1 <= dt.day <= DaysInMonth(dt.year, dt.month)
    && dt.hour <= 23 && dt.minute <= 59 && dt.second <= 59
    && -MicrosPerDay < dt.offset < MicrosPerDay
  }

  /** Days from 0001-01-01 to January 1st of `y` in the proleptic Gregorian calendar. */
  function DaysBeforeYear(y: int): int
    requires y >= 1
  {
    var p := y - 1;
    p * 365 + p / 4 - p / 100 + p / 400
  }

  /** Days in year `y` before the first of month `m`. */
  function DaysBeforeMonth(y: int, m: int): int
    requires 1 <= m <= 12
  {
    [0, 31, 59, 90, 120, 151, 181, 212, 243, 273, 304, 334][m - 1] + (if m > 2 && IsLeapYear(y) then 1 else 0)
  }

  /** `date.toordinal()`: 0001-01-01 is day 1. */
  function Ordinal(y: int, m: int, d: int): int
    requires y >= 1 && 1 <= m <= 12
  {
    DaysBeforeYear(y) + DaysBeforeMonth(y, m) + d
  }

  /** The ordinal of 1970-01-01. */
  const EpochOrdinal: int := 719163

  /** Seconds of the day at the given wall-clock time. */
  function SecondOfDay(dt: DateTime): int {
    dt.hour * 3600 + dt.minute * 60 + dt.second
  }

  /** Seconds from 1970-01-01 00:00:00 to the wall-clock time, as if it were UTC. */
  function WallSeconds(dt: DateTime): int
    requires Valid(dt)
  {
    (Ordinal(dt.year, dt.month, dt.day) - EpochOrdinal) * 86400 + SecondOfDay(dt)
  }

  /** `dt.timestamp()` in microseconds: the wall-clock time less the UTC offset, counted from 1970-01-01 UTC. */
  function EpochMicros(dt: DateTime): int
    requires Valid(dt)
  {
    WallSeconds(dt) * 1_000_000 - dt.offset
  }

  /** 2024-03-01T00:00:00 as a POSIX timestamp when the local zone is UTC. */
  const UtcCutoff: int := 1709251200

  lemma March2024Ordinal()
    ensures Ordinal(2024, 3, 1) == 738946
  {
    assert 2023 / 4 == 505 && 2023 / 100 == 20 && 2023 / 400 == 5;
    assert DaysBeforeYear(2024) == 738885;
    assert IsLeapYear(2024);
  }

  /** 2024-03-01 00:00:00 UTC. */
  const MarchFirst2024: DateTime := DateTime(2024, 3, 1, 0, 0, 0, 0)

  lemma UtcCutoffIsMarchFirst()
    ensures Valid(MarchFirst2024)
    ensures EpochMicros(MarchFirst2024) == UtcCutoff * 1_000_000
  {
    March2024Ordinal();
  }

  // ---------------------------------------------------------------------------
  // Chronological order
  // ---------------------------------------------------------------------------

  /** `a`'s wall-clock fields come strictly before `b`'s, field by field from the year down. */
  predicate Before(a: DateTime, b: DateTime) {
    || a.year < b.year
    || (a.year == b.year && a.month < b.month)
    || (a.year == b.year && a.month == b.month && a.day < b.day)
    || (a.year == b.year && a.month == b.month && a.day == b.day && SecondOfDay(a) < SecondOfDay(b))
  }

  lemma Div4Step(y: int)
    ensures y / 4 - (y - 1) / 4 == (if y % 4 == 0 then 1 else 0)
  {
  }

  lemma Div100Step(y: int)
    ensures y / 100 - (y - 1) / 100 == (if y % 100 == 0 then 1 else 0)
  {
  }

  lemma Div400Step(y: int)
    ensures y / 400 - (y - 1) / 400 == (if y % 400 == 0 then 1 else 0)
  {
  }

  lemma Mod400IsMod100(y: int)
    requires y % 400 == 0
    ensures y % 100 == 0
  {
    assert y == 100 * (4 * (y / 400));
  }

  lemma Mod100IsMod4(y: int)
    requires y % 100 == 0
    ensures y % 4 == 0
  {
    assert y == 4 * (25 * (y / 100));
  }

  lemma NextYear(y: int)
    requires y >= 1
    ensures DaysBeforeYear(y + 1) == DaysBeforeYear(y) + DaysInYear(y)
  {
    if y % 400 == 0 {
      Mod400IsMod100(y);
    }
    if y % 100 == 0 {
      Mod100IsMod4(y);
    }
    Div4Step(y);
    Div100Step(y);
    Div400Step(y);
  }

  lemma {:induction false} YearsAfter(y1: int, y2: int)
    requires 1 <= y1 < y2
    ensures DaysBeforeYear(y1) + DaysInYear(y1) <= DaysBeforeYear(y2)
    decreases y2 - y1
  {
    NextYear(y1);
    if y1 + 1 < y2 {
      YearsAfter(y1 + 1, y2);
      NextYear(y1 + 1);
    }
  }

  lemma MonthsAfter(y: int, m1: int, m2: int)
    requires 1 <= m1 <= 12 && 1 <= m2 <= 12
    ensures DaysBeforeMonth(y, m1) + DaysInMonth(y, m1) <= (if m1 < m2 then DaysBeforeMonth(y, m2) else DaysInYear(y))
  {
  }

  /** Earlier calendar days have smaller ordinals. */
  lemma OrdinalOrder(y1: int, m1: int, d1: int, y2: int, m2: int, d2: int)
    requires y1 >= 1 && 1 <= m1 <= 12 && 1 <= d1 <= DaysInMonth(y1, m1)
    requires y2 >= 1 && 1 <= m2 <= 12 && 1 <= d2 <= DaysInMonth(y2, m2)
    requires y1 < y2 || (y1 == y2 && m1 < m2) || (y1 == y2 && m1 == m2 && d1 < d2)
    ensures Ordinal(y1, m1, d1) < Ordinal(y2, m2, d2)
  {
    MonthsAfter(y1, m1, m2);
    if y1 < y2 {
      MonthsAfter(y1, m1, 12);
      YearsAfter(y1, y2);
    }
  }

  /** For date-times of one zone, the timestamp order is the wall-clock order. */
  lemma EpochOrder(a: DateTime, b: DateTime)
    requires Valid(a) && Valid(b) && a.offset == b.offset
    ensures Before(a, b) <==> EpochMicros(a) < EpochMicros(b)
  {
    if Before(a, b) {
      if a.year != b.year || a.month != b.month || a.day != b.day {
        OrdinalOrder(a.year, a.month, a.day, b.year, b.month, b.day);
      }
    } else if Before(b, a) {
      if a.year != b.year || a.month != b.month || a.day != b.day {
        OrdinalOrder(b.year, b.month, b.day, a.year, a.month, a.day);
      }
    }
  }

  /** Being later than `a`, whose timestamp is `t`, is having a timestamp past `t`. */
  lemma AfterInstant(a: DateTime, b: DateTime, t: int)
    requires Valid(a) && Valid(b) && a.offset == b.offset && EpochMicros(a) == t
    ensures EpochMicros(b) > t <==> Before(a, b)
  {
    EpochOrder(a, b);
  }

  /** A UTC date-time lies after the UTC cutoff exactly when it is later than 2024-03-01 00:00:00. */
  lemma AfterUtcCutoff(dt: DateTime)
    requires Valid(dt) && dt.offset == 0
    ensures EpochMicros(dt) > UtcCutoff * 1_000_000 <==> Before(MarchFirst2024, dt)
  {
    UtcCutoffIsMarchFirst();
    AfterInstant(MarchFirst2024, dt, UtcCutoff * 1_000_000);
  }

  // ---------------------------------------------------------------------------
  // Filename root
  // ---------------------------------------------------------------------------

  /** The wall-clock fields the filename root shows, year first. */
  function LocalFields(dt: DateTime): seq<nat> {
    [dt.year, dt.month, dt.day, dt.hour, dt.minute, dt.second]
  }

  /** `f"{year:04d}-{month:02d}-{day:02d}-{hour:02d}-{minute:02d}-{second:02d}"`. */
  function FilenameRoot(dt: DateTime): string {
    ZeroPad(dt.year, 4) + "-" + ZeroPad(dt.month, 2) + "-" + ZeroPad(dt.day, 2) + "-"
      + ZeroPad(dt.hour, 2) + "-" + ZeroPad(dt.minute, 2) + "-" + ZeroPad(dt.second, 2)
  }

  /** Reads a filename root back into its six fields. */
  function ParseRoot(s: string): (r: Option<seq<nat>>)
    ensures r.Some? ==> |s| == 19 && |r.value| == 6
  {
    if |s| == 19 && s[4] == '-' && s[7] == '-' && s[10] == '-' && s[13] == '-' && s[16] == '-'
      && AllDigits(s[..4]) && AllDigits(s[5..7]) && AllDigits(s[8..10]) && AllDigits(s[11..13])
      && AllDigits(s[14..16]) && AllDigits(s[17..])
    then Some([Value(s[..4]), Value(s[5..7]), Value(s[8..10]), Value(s[11..13]), Value(s[14..16]), Value(s[17..])])
    else None
  }

  /** Where the six fields lie in a root. */
  lemma RootLayout(y: string, mo: string, d: string, h: string, mi: string, s: string)
    requires |y| == 4 && |mo| == 2 && |d| == 2 && |h| == 2 && |mi| == 2 && |s| == 2
    ensures var r := y + "-" + mo + "-" + d + "-" + h + "-" + mi + "-" + s;
      |r| == 19 && r[4] == '-' && r[7] == '-' && r[10] == '-' && r[13] == '-' && r[16] == '-' &&
      r[..4] == y && r[5..7] == mo && r[8..10] == d && r[11..13] == h && r[14..16] == mi && r[17..] == s
  {
    var r := y + "-" + mo + "-" + d + "-" + h + "-" + mi + "-" + s;
    var r1 := y + "-" + mo + "-" + d + "-";
    assert r == r1 + (h + "-" + mi + "-" + s);
    assert r1[..4] == y && r1[5..7] == mo && r1[8..10] == d;
    assert r[..4] == r1[..4] && r[5..7] == r1[5..7] && r[8..10] == r1[8..10];
  }

  /** The root of a valid date-time is 19 characters long and reads back as its wall-clock fields. */
  lemma FilenameRootRoundTrip(dt: DateTime)
    requires Valid(dt)
    ensures |FilenameRoot(dt)| == 19
    ensures ParseRoot(FilenameRoot(dt)) == Some(LocalFields(dt))
  {
    ZeroPadRoundTrip(dt.year, 4);
    ZeroPadRoundTrip(dt.month, 2);
    ZeroPadRoundTrip(dt.day, 2);
    ZeroPadRoundTrip(dt.hour, 2);
    ZeroPadRoundTrip(dt.minute, 2);
    ZeroPadRoundTrip(dt.second, 2);
    RootLayout(ZeroPad(dt.year, 4), ZeroPad(dt.month, 2), ZeroPad(dt.day, 2),
      ZeroPad(dt.hour, 2), ZeroPad(dt.minute, 2), ZeroPad(dt.second, 2));
  }

  /** Two valid date-times share a filename root exactly when their wall-clock fields agree. */
  lemma FilenameRootInjective(a: DateTime, b: DateTime)
    requires Valid(a) && Valid(b)
    ensures FilenameRoot(a) == FilenameRoot(b) <==> LocalFields(a) == LocalFields(b)
  {
    FilenameRootRoundTrip(a);
    FilenameRootRoundTrip(b);
  }
}
