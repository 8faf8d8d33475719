/**
  Text operations the helper relies on: literal substring containment (what
  a regular expression built with `Regexp.escape` and no flags matches) and
  the decimal rendering of a count interpolated into an error message.
 */
module Text {

  predicate IsPrefix(pattern: string, text: string)
  {
    |pattern| <= |text| && text[..|pattern|] == pattern
  }

  /** `pattern` occurs in `text` as a contiguous, case-sensitive substring:
      the meaning of `text.match?(/#{Regexp.escape(pattern)}/)`. */
  predicate Occurs(pattern: string, text: string)
    ensures Occurs(pattern, text) ==> |pattern| <= |text|
    ensures |pattern| == |text| ==> (Occurs(pattern, text) <==> pattern == text)
    decreases |text|
  {
    IsPrefix(pattern, text) || (|text| > 0 && Occurs(pattern, text[1..]))
  }

  /** Occurs agrees with the positional definition of a substring: some
      position of `text` starts a copy of `pattern`. */
  lemma {:induction false} OccursAtSomePosition(pattern: string, text: string)
    ensures Occurs(pattern, text) <==> exists k :: 0 <= k <= |text| && IsPrefix(pattern, text[k..])
    decreases |text|
  {
    if Occurs(pattern, text) {
      if !IsPrefix(pattern, text) {
        OccursAtSomePosition(pattern, text[1..]);
        var k :| 0 <= k <= |text[1..]| && IsPrefix(pattern, text[1..][k..]);
        assert text[1..][k..] == text[k + 1..];
      } else {
        assert text[0..] == text;
      }
    }
    if exists k :: 0 <= k <= |text| && IsPrefix(pattern, text[k..]) {
      var k :| 0 <= k <= |text| && IsPrefix(pattern, text[k..]);
      if k == 0 {
        assert text[0..] == text;
      } else {
        assert text[1..][k - 1..] == text[k..];
        OccursAtSomePosition(pattern, text[1..]);
      }
    }
  }

  /** Every string occurs in itself, and the empty string occurs in every
      string: an empty value is a match for every option. */
  lemma {:induction false} OccursReflexiveAndEmpty(pattern: string, text: string)
    ensures Occurs(pattern, pattern)
    ensures Occurs("", text)
  {
  }

  /** A value whose first character the text lacks does not occur in it. */
  lemma {:induction false} FirstCharAbsent(pattern: string, text: string)
    requires |pattern| > 0
    requires forall i :: 0 <= i < |text| ==> text[i] != pattern[0]
    ensures !Occurs(pattern, text)
    decreases |text|
  {
    if |pattern| <= |text| {
      assert text[..|pattern|][0] == text[0];
    }
    if |text| > 0 {
      FirstCharAbsent(pattern, text[1..]);
    }
  }

  function DigitChar(d: nat): (c: char)
    requires d < 10
    ensures '0' <= c <= '9'
  {
    "0123456789"[d]
  }

  function DigitValue(c: char): (d: nat)
    requires '0' <= c <= '9'
    ensures d < 10 && DigitChar(d) == c
  {
    (c - '0') as nat
  }

  predicate AllDigits(s: string)
  {
    forall i :: 0 <= i < |s| ==> '0' <= s[i] <= '9'
  }

  /** Ruby's `Integer#to_s` for a non-negative integer. */
  function NatToDecimal(n: nat): (s: string)
    ensures |s| >= 1 && AllDigits(s)
    ensures s[0] == '0' ==> n == 0
    decreases n
  {
    if n < 10 then [DigitChar(n)] else NatToDecimal(n / 10) + [DigitChar(n % 10)]
  }

  function DecimalValue(s: string): nat
    requires AllDigits(s)
  {
    if s == [] then 0 else DecimalValue(s[..|s| - 1]) * 10 + DigitValue(s[|s| - 1])
  }

  /** The rendered count reads back as the count itself. */
  lemma {:induction false} DecimalRoundTrip(n: nat)
    ensures DecimalValue(NatToDecimal(n)) == n
    decreases n
  {
    var s := NatToDecimal(n);
    if n < 10 {
      assert s[..|s| - 1] == [];
      assert DigitValue(DigitChar(n)) == n by {
        assert DigitChar(DigitValue(DigitChar(n))) == DigitChar(n);
        assert "0123456789"[n] == ['0', '1', '2', '3', '4', '5', '6', '7', '8', '9'][n];
      }
    } else {
      DecimalRoundTrip(n / 10);
      assert s[..|s| - 1] == NatToDecimal(n / 10);
      assert DigitValue(DigitChar(n % 10)) == n % 10 by {
        assert "0123456789"[n % 10] == ['0', '1', '2', '3', '4', '5', '6', '7', '8', '9'][n % 10];
      }
    }
  }
}
