/** Decimal digit strings: Python's `int()` on ASCII digits and `format(n, "0<w>d")`. */
module Decimal {
  import opened Strings

  predicate AllDigits(s: string) {
    forall k :: 0 <= k < |s| ==> IsDigit(s[k])
  }

  /** `int(s)` for a string of ASCII digits (0 for the empty string). */
  function Value(s: string): nat
    requires AllDigits(s)
  {
    if s == [] then 0 else Value(s[..|s| - 1]) * 10 + DigitValue(s[|s| - 1])
  }

  function Pow10(k: nat): (p: nat)
    ensures p >= 1
  {
    if k == 0 then 1 else 10 * Pow10(k - 1)
  }

  /** The shortest decimal representation of `n`. */
  function Digits(n: nat): (r: string)
    ensures 1 <= |r| && AllDigits(r)
  {
    if n < 10 then [DigitChar(n)] else Digits(n / 10) + [DigitChar(n % 10)]
  }

  function Zeros(k: nat): (r: string)
    ensures |r| == k && forall i :: 0 <= i < k ==> r[i] == '0'
  {
    if k == 0 then "" else "0" + Zeros(k - 1)
  }

  /** `format(n, "0<width>d")`: the digits of `n`, left-padded with zeros to at least `width` characters. */
  function ZeroPad(n: nat, width: nat): (r: string)
    ensures AllDigits(r)
  {
    var d := Digits(n);
    if |d| < width then Zeros(width - |d|) + d else d
  }

  /** Reading the digits of a number back gives the number. */
  lemma {:induction false} ValueOfDigits(n: nat)
    ensures Value(Digits(n)) == n
  {
    if n >= 10 {
      var d := Digits(n);
      assert d[..|d| - 1] == Digits(n / 10);
      ValueOfDigits(n / 10);
    }
  }

  /** A number below `10^w` has at most `w` digits. */
  lemma {:induction false} DigitsLength(n: nat, w: nat)
    requires 1 <= w && n < Pow10(w)
    ensures |Digits(n)| <= w
  {
    if n >= 10 {
      DigitsLength(n / 10, w - 1);
    }
  }

  /** Leading zeros do not change the value. */
  lemma {:induction false} ValueIgnoresZeros(k: nat, s: string)
    requires AllDigits(s)
    ensures AllDigits(Zeros(k) + s) && Value(Zeros(k) + s) == Value(s)
    decreases |s|, k
  {
    var z := Zeros(k) + s;
    if s == [] {
      assert z == Zeros(k);
      if k > 0 {
        assert z[..|z| - 1] == Zeros(k - 1) + s;
        ValueIgnoresZeros(k - 1, s);
      }
    } else {
      assert z[..|z| - 1] == Zeros(k) + s[..|s| - 1];
      ValueIgnoresZeros(k, s[..|s| - 1]);
    }
  }

  /** A zero-padded number below `10^w` is exactly `w` characters long and reads back as the number. */
  lemma {:induction false} ZeroPadRoundTrip(n: nat, w: nat)
    requires 1 <= w && n < Pow10(w)
    ensures |ZeroPad(n, w)| == w && Value(ZeroPad(n, w)) == n
  {
    var d := Digits(n);
    DigitsLength(n, w);
    ValueOfDigits(n);
    if |d| < w {
      ValueIgnoresZeros(w - |d|, d);
      var z := Zeros(w - |d|) + d;
      assert ZeroPad(n, w) == z;
      assert Value(z) == Value(d);
    } else {
      assert ZeroPad(n, w) == d;
    }
  }
}
