/**
 * Normalisation of the Date header before parsing (scan.py lines 150-159): the
 * text between the first comma and the first '(' is taken, stripped of
 * whitespace, and every `GMT` becomes `+0000`.
 */
module DateText {
  import opened Wrappers
  import opened Strings

  /** Python's `s[start:end]` for a non-negative start and an absent (`None`) or non-negative end. */
  function PySlice(s: string, start: nat, end: Option<nat>): (r: string)
    ensures |r| <= |s|
  {
    var b := if start <= |s| then start else |s|;
    var e := if end.None? || end.value > |s| then |s| else end.value;
    if e <= b then "" else s[b..e]
  }

  /** The number of whitespace characters `lstrip()` removes. */
  function LeadingSpaces(s: string): (n: nat)
    ensures n <= |s|
    ensures forall k :: 0 <= k < n ==> IsSpace(s[k])
    ensures n < |s| ==> !IsSpace(s[n])
  {
    if s == [] || !IsSpace(s[0]) then 0 else 1 + LeadingSpaces(s[1..])
  }

  /** The number of whitespace characters `rstrip()` removes. */
  function TrailingSpaces(s: string): (n: nat)
    ensures n <= |s|
    ensures forall k :: |s| - n <= k < |s| ==> IsSpace(s[k])
    ensures n < |s| ==> !IsSpace(s[|s| - n - 1])
  {
    if s == [] || !IsSpace(s[|s| - 1]) then 0 else 1 + TrailingSpaces(s[..|s| - 1])
  }

  /** Python's `s.strip()`: the slice of `s` left after removing whitespace at both ends. */
  function Strip(s: string): (r: string)
    ensures LeadingSpaces(s) == |s| ==> r == []
    ensures LeadingSpaces(s) < |s| ==>
      LeadingSpaces(s) < |s| - TrailingSpaces(s) && r == s[LeadingSpaces(s)..|s| - TrailingSpaces(s)]
    ensures r == [] || (!IsSpace(r[0]) && !IsSpace(r[|r| - 1]))
    ensures forall k :: 0 <= k < |r| ==> r[k] in s
  {
    var i := LeadingSpaces(s);
    if i == |s| then ""
    else
      var t := TrailingSpaces(s);
      assert !IsSpace(s[i]);
      s[i..|s| - t]
  }

  /** Python's `s.replace("GMT", "+0000")`: a left-to-right scan replacing non-overlapping occurrences. */
  function ReplaceGmt(s: string): (r: string)
    ensures r == [] <==> s == []
    ensures r != [] ==> r[0] == (if OccursAt(s, "GMT", 0) then '+' else s[0])
    ensures r != [] ==> r[|r| - 1] == '0' || r[|r| - 1] == s[|s| - 1]
    ensures forall k :: 0 <= k < |r| ==> r[k] in s || r[k] in "+0"
  {
    if s == [] then []
    else if OccursAt(s, "GMT", 0) then "+0000" + ReplaceGmt(s[3..])
    else [s[0]] + ReplaceGmt(s[1..])
  }

  lemma ReplacedHeadClean(rest: string)
    requires !Contains(rest, "GMT")
    ensures !Contains("+0000" + rest, "GMT")
  {
    var r := "+0000" + rest;
    forall i | 0 <= i <= |r| ensures !OccursAt(r, "GMT", i) {
      if i < 5 {
        assert i + 3 > |r| || r[i..i + 3][0] != 'G';
      } else {
        OccursPastPrefix("+0000", rest, "GMT", i);
      }
    }
  }

  /** A kept first character cannot start a `GMT` that the source did not already start. */
  lemma KeptHeadFront(s: string)
    requires s != [] && !OccursAt(s, "GMT", 0)
    ensures !OccursAt([s[0]] + ReplaceGmt(s[1..]), "GMT", 0)
  {
    var rest := ReplaceGmt(s[1..]);
    var r := [s[0]] + rest;
    if |r| >= 3 && r[0] == 'G' && r[1] == 'M' {
      // rest starts with 'M', so s[1] == 'M' was kept and r[2] comes from s[2..]
      assert s[1] == 'M';
      var rest2 := ReplaceGmt(s[2..]);
      assert rest == [s[1]] + rest2;
      assert r[2] == rest2[0];
      assert s[..3] == ['G', 'M', s[2]];
      assert r[..3] != "GMT";
    }
  }

  lemma KeptHeadClean(s: string)
    requires s != [] && !OccursAt(s, "GMT", 0) && !Contains(ReplaceGmt(s[1..]), "GMT")
    ensures !Contains([s[0]] + ReplaceGmt(s[1..]), "GMT")
  {
    var rest := ReplaceGmt(s[1..]);
    KeptHeadFront(s);
    forall i | 1 <= i <= |rest| + 1 ensures !OccursAt([s[0]] + rest, "GMT", i) {
      OccursPastPrefix([s[0]], rest, "GMT", i);
    }
  }

  /** No occurrence of "GMT" survives the replacement, not even one formed across a replaced text. */
  lemma {:induction false} ReplaceGmtRemovesAll(s: string)
    ensures !Contains(ReplaceGmt(s), "GMT")
    decreases |s|
  {
    if s == [] {
    } else if OccursAt(s, "GMT", 0) {
      ReplaceGmtRemovesAll(s[3..]);
      ReplacedHeadClean(ReplaceGmt(s[3..]));
    } else {
      ReplaceGmtRemovesAll(s[1..]);
      KeptHeadClean(s);
    }
  }

  /** The slice start: just after the first comma, 0 when there is none (scan.py:150-152). */
  function DateStart(d: string): (start: nat)
    ensures (',' in d ==> start == Find(d, ',') + 1) && (',' !in d ==> start == 0)
  {
    // `find(",") + 1` is never -1, so the source's fallback to 0 (lines 151-152) is dead code
    Find(d, ',') + 1
  }

  /** The slice end: the first '(', or the end of the string (scan.py:154-156). */
  function DateEnd(d: string): (end: Option<nat>)
    ensures end.None? <==> '(' !in d
    ensures end.Some? ==> end.value < |d| && d[end.value] == '(' && '(' !in d[..end.value]
  {
    var end := Find(d, '(');
    if end == -1 then None else Some(end)
  }

  /** `date_prop[start:end]`: the text between the first comma and the first '('. */
  function DateSlice(d: string): string {
    PySlice(d, DateStart(d), DateEnd(d))
  }

  /** The normalised date string `date_str` (scan.py:158-159). */
  function NormaliseDate(d: string): string {
    ReplaceGmt(Strip(DateSlice(d)))
  }

  /**
   * The slice taken from the Date header runs from just after the first comma (or
   * from 0 without one) to the first '(' (or the end), and is empty when that
   * '(' comes before the comma's successor; it never holds a '('.
   */
  lemma DateSliceBounds(d: string)
    ensures DateEnd(d).None? ==> DateSlice(d) == d[DateStart(d)..]
    ensures DateEnd(d).Some? && DateStart(d) <= DateEnd(d).value ==>
      DateSlice(d) == d[DateStart(d)..DateEnd(d).value]
    ensures DateEnd(d).Some? && DateEnd(d).value < DateStart(d) ==> DateSlice(d) == ""
    ensures '(' !in DateSlice(d)
  {
    var start := DateStart(d);
    var stop := if DateEnd(d).None? then |d| else DateEnd(d).value;
    assert '(' !in d[..stop] by {
      if DateEnd(d).None? {
        assert d[..stop] == d;
      }
    }
    if start <= stop {
      var s := d[start..stop];
      assert DateSlice(d) == s;
      forall k | 0 <= k < |s| ensures s[k] != '(' {
        assert s[k] == d[..stop][start + k];
      }
    }
  }

  /** The normalised date has no surrounding whitespace, no '(' and no `GMT` left. */
  lemma NormaliseDateShape(d: string)
    ensures var r := NormaliseDate(d);
      (r == [] || (!IsSpace(r[0]) && !IsSpace(r[|r| - 1]))) && '(' !in r && !Contains(r, "GMT")
  {
    DateSliceBounds(d);
    var s := Strip(DateSlice(d));
    var r := ReplaceGmt(s);
    ReplaceGmtRemovesAll(s);
    forall k | 0 <= k < |r| ensures r[k] != '(' {
      assert r[k] in s || r[k] in "+0";
    }
  }
}
