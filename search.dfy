/**
 * The `search` helper of `Scan.run`: a text matches a list of terms when one
 * of the terms occurs in it as a whole word (`\b term \b`), ignoring case.
 */
module WordSearch {
  import opened Wrappers
  import opened Strings

  /** `\w` on ASCII text: a letter, a digit or the underscore. */
  predicate IsWordChar(c: char) {
    'a' <= c <= 'z' || 'A' <= c <= 'Z' || '0' <= c <= '9' || c == '_'
  }

  /** `\b` at position `p`: a word character on exactly one side of it. */
  predicate Boundary(s: string, p: int)
    requires 0 <= p <= |s|
  {
    (0 < p && IsWordChar(s[p - 1])) != (p < |s| && IsWordChar(s[p]))
  }

  /** `term` occurs at `i` when both are folded to lower case (`re.IGNORECASE`). */
  predicate FoldedAt(text: string, term: string, i: int) {
    0 <= i && i + |term| <= |text| &&
    forall k :: 0 <= k < |term| ==> LowerChar(text[i + k]) == LowerChar(term[k])
  }

  /** The pattern `\b term \b` matches at `i`. */
  predicate WordAt(text: string, term: string, i: int) {
    FoldedAt(text, term, i) && Boundary(text, i) && Boundary(text, i + |term|)
  }

  /** `re.findall(r"\b" + term + r"\b", text, re.IGNORECASE)` is not empty. */
  predicate ContainsWord(text: string, term: string) {
    exists i :: 0 <= i <= |text| && WordAt(text, term, i)
  }

  /** The leftmost match at or after `from`: where the regular-expression scan stops first. */
  function FindWord(text: string, term: string, from: nat): (r: Option<nat>)
    requires from <= |text|
    ensures r.Some? ==> from <= r.value <= |text| && WordAt(text, term, r.value)
    ensures r.Some? ==> forall j :: from <= j < r.value ==> !WordAt(text, term, j)
    ensures r.None? ==> forall j :: from <= j <= |text| ==> !WordAt(text, term, j)
    decreases |text| - from
  {
    if WordAt(text, term, from) then Some(from)
    else if from == |text| then None
    else FindWord(text, term, from + 1)
  }

  lemma {:induction false} FindWordFinds(text: string, term: string)
    ensures FindWord(text, term, 0).Some? <==> ContainsWord(text, term)
  {
    if FindWord(text, term, 0).Some? {
      assert WordAt(text, term, FindWord(text, term, 0).value);
    }
  }

  /** What `search(searchTerms, text)` returns: `False` for `None`, else whether some term matches the lowered text. */
  predicate MatchesAny(terms: seq<string>, text: Option<string>) {
    text.Some? && exists k :: 0 <= k < |terms| && ContainsWord(Lower(text.value), terms[k])
  }

  /** `search`: tries the terms in order and returns at the first that matches. */
  method Search(terms: seq<string>, text: Option<string>) returns (found: bool)
    ensures found == MatchesAny(terms, text)
  {
    if text.None? {
      return false;
    }
    var lowered := Lower(text.value);
    for i := 0 to |terms|
      invariant forall k :: 0 <= k < i ==> !ContainsWord(lowered, terms[k])
    {
      FindWordFinds(lowered, terms[i]);
      if FindWord(lowered, terms[i], 0).Some? {
        return true;
      }
    }
    return false;
  }

  // ---------------------------------------------------------------------------
  // Properties
  // ---------------------------------------------------------------------------

  lemma LowerCharIdempotent(c: char)
    ensures LowerChar(LowerChar(c)) == LowerChar(c)
    ensures IsWordChar(LowerChar(c)) == IsWordChar(c)
  {
  }

  /** Lower-casing the text first changes nothing: the match already ignores case. */
  lemma WordAtLowered(text: string, term: string, i: int)
    ensures WordAt(Lower(text), term, i) <==> WordAt(text, term, i)
  {
    var l := Lower(text);
    forall p | 0 <= p < |text|
      ensures LowerChar(l[p]) == LowerChar(text[p]) && IsWordChar(l[p]) == IsWordChar(text[p])
    {
      LowerCharIdempotent(text[p]);
    }
    if 0 <= i <= |text| {
      assert Boundary(l, i) == Boundary(text, i);
      if 0 <= i + |term| <= |text| {
        assert Boundary(l, i + |term|) == Boundary(text, i + |term|);
      }
    }
  }

  lemma ContainsWordLowered(text: string, term: string)
    ensures ContainsWord(Lower(text), term) <==> ContainsWord(text, term)
  {
    if ContainsWord(text, term) {
      var i :| 0 <= i <= |text| && WordAt(text, term, i);
      WordAtLowered(text, term, i);
    }
    if ContainsWord(Lower(text), term) {
      var i :| 0 <= i <= |text| && WordAt(Lower(text), term, i);
      WordAtLowered(text, term, i);
    }
  }

  /** The case of a search term does not matter either. */
  lemma ContainsWordLowerTerm(text: string, term: string)
    ensures ContainsWord(text, Lower(term)) <==> ContainsWord(text, term)
  {
    forall i | 0 <= i <= |text|
      ensures WordAt(text, Lower(term), i) <==> WordAt(text, term, i)
    {
      forall k | 0 <= k < |term|
        ensures LowerChar(Lower(term)[k]) == LowerChar(term[k])
      {
        LowerCharIdempotent(term[k]);
      }
    }
  }

  /** A list of terms matches when one of its parts does. */
  lemma MatchesAnyAppend(a: seq<string>, b: seq<string>, text: Option<string>)
    ensures MatchesAny(a + b, text) <==> MatchesAny(a, text) || MatchesAny(b, text)
  {
    if text.Some? {
      var l := Lower(text.value);
      if MatchesAny(a + b, text) {
        var k :| 0 <= k < |a + b| && ContainsWord(l, (a + b)[k]);
        if k >= |a| {
          assert (a + b)[k] == b[k - |a|];
        }
      }
      if MatchesAny(a, text) {
        var k :| 0 <= k < |a| && ContainsWord(l, a[k]);
        assert (a + b)[k] == a[k];
      }
      if MatchesAny(b, text) {
        var k :| 0 <= k < |b| && ContainsWord(l, b[k]);
        assert (a + b)[|a| + k] == b[k];
      }
    }
  }

  /** A whole word inside a sentence is found, in any case. */
  lemma WordInSentence(text: string, term: string)
    requires text == "Is the BAR open?" && term == "bar"
    ensures MatchesAny([term], Some(text))
  {
    var l := Lower(text);
    assert l[7] == 'b' && l[8] == 'a' && l[9] == 'r' && l[6] == ' ' && l[10] == ' ';
    assert WordAt(l, term, 7);
    assert ContainsWord(l, [term][0]);
  }

  /** A term that is only the start of a longer word is not. */
  lemma PrefixIsNotAWord(text: string, term: string)
    requires text == "barista" && term == "bar"
    ensures !ContainsWord(text, term)
  {
    forall i | 0 <= i <= |text|
      ensures !WordAt(text, term, i)
    {
      if i == 0 {
        assert !Boundary(text, 3) by { assert IsWordChar(text[2]) && IsWordChar(text[3]); }
      } else if i <= 4 {
        assert !Boundary(text, i) by { assert IsWordChar(text[i - 1]) && IsWordChar(text[i]); }
      }
    }
  }
}
