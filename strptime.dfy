/**
 * `datetime.strptime(date_str, "%d %b %Y %H:%M:%S %z")` (scan.py:161), as the
 * standard library's `_strptime` of Python 3.12 evaluates it: every space of the
 * format matches one or more whitespace characters, each directive matches its
 * regular expression, the whole input must be consumed, and the resulting fields
 * must be accepted by `datetime` and `timezone`. Any failure is the ValueError
 * that aborts the run, modelled as `None`.
 */
module Strptime {
  import opened Wrappers
  import opened Strings
  import opened Decimal
  import opened Timestamps
  import DateText

  /** The number of ASCII digits `s` starts with. */
  function DigitPrefix(s: string): (n: nat)
    ensures n <= |s|
    ensures forall k :: 0 <= k < n ==> IsDigit(s[k])
    ensures n < |s| ==> !IsDigit(s[n])
  {
    if s == [] || !IsDigit(s[0]) then 0 else 1 + DigitPrefix(s[1..])
  }

  /**
   * A numeric directive of `lo` to `hi` digits. Every numeric directive of the
   * format is followed by a separator, so its digits are the whole digit run.
   */
  function Number(s: string, lo: nat, hi: nat): (r: Option<(nat, string)>)
    ensures r.Some? ==>
      var n := |s| - |r.value.1|;
      lo <= n <= hi && s[n..] == r.value.1 && AllDigits(s[..n]) && r.value.0 == Value(s[..n])
  {
    var n := DigitPrefix(s);
    assert AllDigits(s[..n]);
    if lo <= n <= hi then Some((Value(s[..n]), s[n..])) else None
  }

  /** `\s+`: one or more whitespace characters, all consumed. */
  function Spaces(s: string): Option<string> {
    var n := DateText.LeadingSpaces(s);
    if n == 0 then None else Some(s[n..])
  }

  /** A literal character of the format. */
  function Literal(s: string, c: char): Option<string> {
    if s != [] && s[0] == c then Some(s[1..]) else None
  }

  /** `%d`: `3[01]|[12]\d|0[1-9]|[1-9]| [1-9]`, a day number 1 to 31. */
  function Day(s: string): Option<(nat, string)> {
    if |s| >= 2 && s[0] == ' ' && '1' <= s[1] <= '9' && DigitPrefix(s[1..]) == 1 then
      Some((DigitValue(s[1]), s[2..]))
    else
      var d :- Number(s, 1, 2);
      if 1 <= d.0 <= 31 then Some(d) else None
  }

  /** The number of a lower-case English month abbreviation, 0 for anything else. */
  function MonthNumber(m: string): nat {
    if m == "jan" then 1 else if m == "feb" then 2 else if m == "mar" then 3
    else if m == "apr" then 4 else if m == "may" then 5 else if m == "jun" then 6
    else if m == "jul" then 7 else if m == "aug" then 8 else if m == "sep" then 9
    else if m == "oct" then 10 else if m == "nov" then 11 else if m == "dec" then 12
    else 0
  }

  /** `%b`: an abbreviated month name in the C locale, matched ignoring case. */
  function Month(s: string): Option<(nat, string)> {
    if |s| >= 3 && MonthNumber(Lower(s[..3])) != 0 then Some((MonthNumber(Lower(s[..3])), s[3..])) else None
  }

  /** A digit that may start a minute or second of a zone, `[0-5]`. */
  predicate IsSexagesimalLead(c: char) {
    '0' <= c <= '5'
  }

  /**
   * The optional seconds part of `%z`, `(:?[0-5]\d(\.\d{1,6})?)?`, followed by the
   * end of the input; `colon` tells whether the hours and minutes were separated
   * by ':'. The colons must be used consistently. Yields seconds and microseconds.
   */
  function ZoneSeconds(rest: string, colon: bool): Option<(nat, nat)> {
    if rest == [] then Some((0, 0))
    else
      var c2 := rest[0] == ':';
      var k := if c2 then 1 else 0;
      if !(k + 2 <= |rest| && IsSexagesimalLead(rest[k]) && IsDigit(rest[k + 1])) then None
      else
        var secs := 10 * DigitValue(rest[k]) + DigitValue(rest[k + 1]);
        var tail := rest[k + 2..];
        if tail == [] then (if c2 == colon then Some((secs, 0)) else None)
        else if tail[0] == '.' && 2 <= |tail| <= 7 && AllDigits(tail[1..]) && c2 == colon then
          // the fraction is right-padded with zeros to six digits
          Some((secs, Value(tail[1..]) * Pow10(7 - |tail|)))
        else None
  }

  /** `%z` running to the end of the input: `[+-]\d\d:?[0-5]\d(:?[0-5]\d(\.\d{1,6})?)?` or `Z`; the offset in microseconds. */
  function Zone(z: string): Option<int> {
    if z == "Z" then Some(0)
    else if !(|z| >= 5 && (z[0] == '+' || z[0] == '-') && IsDigit(z[1]) && IsDigit(z[2])) then None
    else
      var colon := z[3] == ':';
      var m := if colon then 4 else 3;
      if !(m + 2 <= |z| && IsSexagesimalLead(z[m]) && IsDigit(z[m + 1])) then None
      else
        var hours := 10 * DigitValue(z[1]) + DigitValue(z[2]);
        var minutes := 10 * DigitValue(z[m]) + DigitValue(z[m + 1]);
        var sf :- ZoneSeconds(z[m + 2..], colon);
        var magnitude := ((hours * 60 + minutes) * 60 + sf.0) * 1_000_000 + sf.1;
        Some(if z[0] == '-' then -magnitude else magnitude)
  }

  /** `%d %b %Y`: day, month and year, and what follows the year. */
  function DatePart(s: string): Option<(nat, nat, nat, string)> {
    var d :- Day(s);
    var s1 :- Spaces(d.1);
    var mo :- Month(s1);
    var s2 :- Spaces(mo.1);
    var y :- Number(s2, 4, 4);
    Some((d.0, mo.0, y.0, y.1))
  }

  /** `%H:%M:%S`: hour, minute and second, and what follows the second. */
  function ClockPart(s: string): Option<(nat, nat, nat, string)> {
    var h :- Number(s, 1, 2);
    var s1 :- Literal(h.1, ':');
    var mi :- Number(s1, 1, 2);
    var s2 :- Literal(mi.1, ':');
    var sec :- Number(s2, 1, 2);
    Some((h.0, mi.0, sec.0, sec.1))
  }

  /** `datetime.strptime(s, "%d %b %Y %H:%M:%S %z")`, `None` where it raises ValueError. */
  function Parse(s: string): (r: Option<DateTime>)
    ensures r.Some? ==> Valid(r.value)
  {
    var date :- DatePart(s);
    var s1 :- Spaces(date.3);
    var clock :- ClockPart(s1);
    var s2 :- Spaces(clock.3);
    var offset :- Zone(s2);
    // the regular expressions bound hour, minute and second; `datetime` rejects seconds 60 and 61,
    // year 0, days past the end of the month, and `timezone` offsets of a day or more
    var dt := DateTime(date.2, date.1, date.0, clock.0, clock.1, clock.2, offset);
    if clock.0 <= 23 && clock.1 <= 59 && clock.2 <= 61 && Valid(dt) then Some(dt) else None
  }

  // ---------------------------------------------------------------------------
  // The canonical form `DD Mon YYYY HH:MM:SS +HHMM` parses back to its date-time
  // ---------------------------------------------------------------------------

  const MonthAbbreviations: seq<string> :=
    ["Jan", "Feb", "Mar", "Apr", "May", "Jun", "Jul", "Aug", "Sep", "Oct", "Nov", "Dec"]

  /** An offset `strftime("%z")` can show: whole minutes, less than a day. */
  predicate WholeMinuteOffset(offset: int) {
    offset % 60_000_000 == 0 && -MicrosPerDay < offset < MicrosPerDay
  }

  /** `strftime("%z")` for an offset of whole minutes: `+HHMM` or `-HHMM`. */
  function FormatZone(offset: int): string
    requires WholeMinuteOffset(offset)
  {
    var minutes := (if offset < 0 then -offset else offset) / 60_000_000;
    [if offset < 0 then '-' else '+'] + ZeroPad(minutes / 60, 2) + ZeroPad(minutes % 60, 2)
  }

  /** `strftime("%H:%M:%S %z")`: the time of day and the zone. */
  function FormatClock(dt: DateTime): string
    requires WholeMinuteOffset(dt.offset)
  {
    ZeroPad(dt.hour, 2) + (":" + (ZeroPad(dt.minute, 2) + (":" + (ZeroPad(dt.second, 2) + (" " + FormatZone(dt.offset))))))
  }

  /** `strftime("%d %b %Y %H:%M:%S %z")`, the form of an RFC 5322 date without day of week. */
  function Format(dt: DateTime): string
    requires Valid(dt) && WholeMinuteOffset(dt.offset)
  {
    // right-nested, so that each directive sees the rest of the string as one operand
    ZeroPad(dt.day, 2) + (" " + (MonthAbbreviations[dt.month - 1] + (" " + (ZeroPad(dt.year, 4) + (" " + FormatClock(dt))))))
  }

  lemma {:induction false} DigitPrefixOf(d: string, rest: string)
    requires AllDigits(d) && (rest == [] || !IsDigit(rest[0]))
    ensures DigitPrefix(d + rest) == |d|
  {
    if d != [] {
      assert (d + rest)[1..] == d[1..] + rest;
      DigitPrefixOf(d[1..], rest);
    }
  }

  /** A run of digits followed by a non-digit is read back by a directive of that width. */
  lemma {:induction false} NumberOfDigits(ds: string, rest: string, lo: nat, hi: nat)
    requires AllDigits(ds) && lo <= |ds| <= hi
    requires rest == [] || !IsDigit(rest[0])
    ensures Number(ds + rest, lo, hi) == Some((Value(ds), rest))
  {
    DigitPrefixOf(ds, rest);
    assert (ds + rest)[..|ds|] == ds && (ds + rest)[|ds|..] == rest;
  }

  /** A single blank before a non-blank is read back by a space of the format. */
  lemma SpacesOfBlank(rest: string)
    requires rest == [] || !IsSpace(rest[0])
    ensures (" " + rest)[0] == ' ' && Spaces(" " + rest) == Some(rest)
  {
    assert (" " + rest)[1..] == rest;
  }

  lemma LiteralOf(c: char, rest: string)
    ensures ([c] + rest)[0] == c && Literal([c] + rest, c) == Some(rest)
  {
    assert ([c] + rest)[1..] == rest;
  }

  /** The two characters of a zero-padded number below 100. */
  lemma TwoDigits(n: nat)
    requires n < 100
    ensures ZeroPad(n, 2) == [DigitChar(n / 10), DigitChar(n % 10)]
  {
    if n >= 10 {
      assert Digits(n) == Digits(n / 10) + [DigitChar(n % 10)];
    }
  }

  /** A sign and four digits read as hours and minutes of offset. */
  lemma ZoneOfDigits(sign: char, h: nat, mi: nat)
    requires (sign == '+' || sign == '-') && h < 24 && mi < 60
    ensures var magnitude := (h * 60 + mi) * 60_000_000;
      Zone([sign] + ZeroPad(h, 2) + ZeroPad(mi, 2)) == Some(if sign == '-' then -magnitude else magnitude)
  {
    TwoDigits(h);
    TwoDigits(mi);
    var z := [sign] + ZeroPad(h, 2) + ZeroPad(mi, 2);
    assert z == [sign, DigitChar(h / 10), DigitChar(h % 10), DigitChar(mi / 10), DigitChar(mi % 10)];
    assert z[5..] == [];
    assert 10 * (h / 10) + h % 10 == h && 10 * (mi / 10) + mi % 10 == mi;
  }

  lemma ZoneOfFormat(offset: int)
    requires WholeMinuteOffset(offset)
    ensures Zone(FormatZone(offset)) == Some(offset)
  {
    var a := if offset < 0 then -offset else offset;
    var minutes := a / 60_000_000;
    assert a == minutes * 60_000_000;
    assert minutes < 1440;
    var h, mi := minutes / 60, minutes % 60;
    assert minutes == h * 60 + mi;
    var sign := if offset < 0 then '-' else '+';
    assert FormatZone(offset) == [sign] + ZeroPad(h, 2) + ZeroPad(mi, 2);
    ZoneOfDigits(sign, h, mi);
  }

  /** Each abbreviation, in any case, names its own month. */
  lemma MonthNumberOfAbbreviation(m: nat)
    requires 1 <= m <= 12
    ensures |MonthAbbreviations[m - 1]| == 3 && MonthNumber(Lower(MonthAbbreviations[m - 1])) == m
  {
    var a := MonthAbbreviations[m - 1];
    var l := Lower(a);
    assert l == [LowerChar(a[0]), a[1], a[2]];
  }

  lemma MonthOfAbbreviation(m: nat, rest: string)
    requires 1 <= m <= 12
    ensures Month(MonthAbbreviations[m - 1] + rest) == Some((m, rest))
  {
    MonthNumberOfAbbreviation(m);
    var s := MonthAbbreviations[m - 1] + rest;
    assert s[..3] == MonthAbbreviations[m - 1] && s[3..] == rest;
  }

  /** Two digits of a day followed by a non-digit are read back by `%d`. */
  lemma {:induction false} DayOfDigits(dd: string, rest: string)
    requires |dd| == 2 && AllDigits(dd) && 1 <= Value(dd) <= 31
    requires rest == [] || !IsDigit(rest[0])
    ensures Day(dd + rest) == Some((Value(dd), rest))
  {
    assert (dd + rest)[0] == dd[0] != ' ';
    NumberOfDigits(dd, rest, 1, 2);
  }

  lemma {:induction false} DatePartOfFields(dd: string, m: nat, yyyy: string, rest: string)
    requires |dd| == 2 && AllDigits(dd) && 1 <= Value(dd) <= 31
    requires 1 <= m <= 12 && |yyyy| == 4 && AllDigits(yyyy)
    requires rest == [] || !IsDigit(rest[0])
    ensures DatePart(dd + (" " + (MonthAbbreviations[m - 1] + (" " + (yyyy + rest)))))
      == Some((Value(dd), m, Value(yyyy), rest))
  {
    var u2 := yyyy + rest;
    var u1 := " " + u2;
    var v2 := MonthAbbreviations[m - 1] + u1;
    var v1 := " " + v2;
    DayOfDigits(dd, v1);
    SpacesOfBlank(v2);
    MonthOfAbbreviation(m, u1);
    SpacesOfBlank(u2);
    NumberOfDigits(yyyy, rest, 4, 4);
  }

  lemma {:induction false} ClockPartOfFields(hh: string, mm: string, ss: string, rest: string)
    requires |hh| == 2 && AllDigits(hh) && |mm| == 2 && AllDigits(mm) && |ss| == 2 && AllDigits(ss)
    requires rest == [] || !IsDigit(rest[0])
    ensures ClockPart(hh + (":" + (mm + (":" + (ss + rest)))))
      == Some((Value(hh), Value(mm), Value(ss), rest))
  {
    var t4 := ":" + (ss + rest);
    var t2 := ":" + (mm + t4);
    NumberOfDigits(hh, t2, 1, 2);
    LiteralOf(':', mm + t4);
    NumberOfDigits(mm, t4, 1, 2);
    LiteralOf(':', ss + rest);
    NumberOfDigits(ss, rest, 1, 2);
  }

  /** `Parse` assembles the fields its three parts and the zone read. */
  lemma ParseOfParts(s: string, t1: string, clock: string, t3: string, zone: string, dt: DateTime)
    requires Valid(dt)
    requires DatePart(s) == Some((dt.day, dt.month, dt.year, t1)) && Spaces(t1) == Some(clock)
    requires ClockPart(clock) == Some((dt.hour, dt.minute, dt.second, t3)) && Spaces(t3) == Some(zone)
    requires Zone(zone) == Some(dt.offset)
    ensures Parse(s) == Some(dt)
  {
  }

  lemma DatePartOfFormat(dt: DateTime)
    requires Valid(dt) && WholeMinuteOffset(dt.offset)
    ensures DatePart(Format(dt)) == Some((dt.day, dt.month, dt.year, " " + FormatClock(dt)))
  {
    ZeroPadRoundTrip(dt.day, 2);
    ZeroPadRoundTrip(dt.year, 4);
    DatePartOfFields(ZeroPad(dt.day, 2), dt.month, ZeroPad(dt.year, 4), " " + FormatClock(dt));
  }

  lemma ClockPartOfFormat(dt: DateTime)
    requires Valid(dt) && WholeMinuteOffset(dt.offset)
    ensures !IsSpace(FormatClock(dt)[0])
    ensures ClockPart(FormatClock(dt)) == Some((dt.hour, dt.minute, dt.second, " " + FormatZone(dt.offset)))
  {
    ZeroPadRoundTrip(dt.hour, 2);
    ZeroPadRoundTrip(dt.minute, 2);
    ZeroPadRoundTrip(dt.second, 2);
    var zone := FormatZone(dt.offset);
    SpacesOfBlank(zone);
    ClockPartOfFields(ZeroPad(dt.hour, 2), ZeroPad(dt.minute, 2), ZeroPad(dt.second, 2), " " + zone);
    assert FormatClock(dt)[0] == ZeroPad(dt.hour, 2)[0];
  }

  lemma ZoneOfClock(dt: DateTime)
    requires WholeMinuteOffset(dt.offset)
    ensures Spaces(" " + FormatZone(dt.offset)) == Some(FormatZone(dt.offset))
    ensures Zone(FormatZone(dt.offset)) == Some(dt.offset)
  {
    ZoneOfFormat(dt.offset);
    assert FormatZone(dt.offset)[0] == '+' || FormatZone(dt.offset)[0] == '-';
    SpacesOfBlank(FormatZone(dt.offset));
  }

  /** Parsing is a left inverse of formatting: every valid date-time with a whole-minute offset reads back unchanged. */
  lemma ParseFormat(dt: DateTime)
    requires Valid(dt) && WholeMinuteOffset(dt.offset)
    ensures Parse(Format(dt)) == Some(dt)
  {
    DatePartOfFormat(dt);
    ClockPartOfFormat(dt);
    SpacesOfBlank(FormatClock(dt));
    ZoneOfClock(dt);
    ParseOfParts(Format(dt), " " + FormatClock(dt), FormatClock(dt), " " + FormatZone(dt.offset), FormatZone(dt.offset), dt);
  }
}
