/** Sanitising of attachment names before they become file names (`clean_filename`). */
module Filenames {
  import opened Wrappers

  /** The characters of the character class `[/\\?%*:|"<>\x7F\x00-\x1F]`. */
  predicate IsForbidden(c: char) {
    || c == '/' || c == '\\' || c == '?' || c == '%' || c == '*' || c == ':' || c == '|' || c == '"'
    || c == '<' || c == '>' || c as int == 0x7F || c as int <= 0x1F
  }

  /** `re.sub(class, "-", s)`: every forbidden character becomes `-`, all others are kept. */
  function Sanitise(s: string): (r: string)
    ensures |r| == |s|
    ensures forall i :: 0 <= i < |s| && IsForbidden(s[i]) ==> r[i] == '-'
    ensures forall i :: 0 <= i < |s| && !IsForbidden(s[i]) ==> r[i] == s[i]
  {
    if s == [] then []
    else [if IsForbidden(s[0]) then '-' else s[0]] + Sanitise(s[1..])
  }

  /** `clean_filename`: a missing name becomes "unnamed", a present one is sanitised. */
  function CleanFilename(name: Option<string>): (r: string)
    ensures name.None? ==> r == "unnamed"
    ensures name.Some? ==> r == Sanitise(name.value)
  {
    match name
    case None => "unnamed"
    case Some(s) => Sanitise(s)
  }

  /** No forbidden character survives cleaning, so the result never contains a path separator. */
  lemma CleanFilenameSafe(name: Option<string>)
    ensures forall i :: 0 <= i < |CleanFilename(name)| ==> !IsForbidden(CleanFilename(name)[i])
  {
    if name.Some? {
      var r := Sanitise(name.value);
      forall i | 0 <= i < |r| ensures !IsForbidden(r[i]) {
        if IsForbidden(name.value[i]) {
          assert r[i] == '-';
        }
      }
    }
  }

  /** A string without forbidden characters is its own sanitisation. */
  lemma {:induction false} SanitiseClean(s: string)
    requires forall i :: 0 <= i < |s| ==> !IsForbidden(s[i])
    ensures Sanitise(s) == s
  {
    if s != [] {
      SanitiseClean(s[1..]);
    }
  }

  /** Cleaning twice is the same as cleaning once. */
  lemma CleanFilenameIdempotent(name: Option<string>)
    ensures CleanFilename(Some(CleanFilename(name))) == CleanFilename(name)
  {
    CleanFilenameSafe(name);
    SanitiseClean(CleanFilename(name));
  }

  /** Sanitising works character by character, so it distributes over concatenation. */
  lemma {:induction false} SanitiseAppend(a: string, b: string)
    ensures Sanitise(a + b) == Sanitise(a) + Sanitise(b)
  {
    if a != [] {
      assert (a + b)[0] == a[0] && (a + b)[1..] == a[1..] + b;
      SanitiseAppend(a[1..], b);
    }
  }

  /** The name after `prefix` and a `-` holds no forbidden character. */
  lemma CleanSuffixSafe(prefix: string, name: Option<string>)
    ensures var f := prefix + "-" + CleanFilename(name);
      forall i :: |prefix| <= i < |f| ==> !IsForbidden(f[i])
  {
    var clean := CleanFilename(name);
    CleanFilenameSafe(name);
    var f := prefix + "-" + clean;
    forall i | |prefix| <= i < |f| ensures !IsForbidden(f[i]) {
      if i > |prefix| {
        assert f[i] == clean[i - |prefix| - 1];
      }
    }
  }

  /** The declared name `q1/q2:v3.pdf` gives the file name suffix `q1-q2-v3.pdf`. */
  lemma CleanFilenameExample(name: string)
    requires name == "q1/q2:v3.pdf"
    ensures CleanFilename(Some(name)) == "q1-q2-v3.pdf"
  {
    var r := Sanitise(name);
    assert r[0] == 'q' && r[1] == '1' && r[2] == '-' && r[3] == 'q' && r[4] == '2' && r[5] == '-';
    assert r[6] == 'v' && r[7] == '3' && r[8] == '.' && r[9] == 'p' && r[10] == 'd' && r[11] == 'f';
  }
}
