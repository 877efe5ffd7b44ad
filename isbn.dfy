/**
 * The ISBN shape check of the widget: the regular expression
 * `^(97(8|9))?\d{9}(\d|X)$`, applied to the trimmed input. It accepts the
 * outward form of an ISBN-10 or an ISBN-13 (ISO 2108); no check digit is
 * computed.
 */
module Isbn {
  import opened Wrappers
  import opened Text

  /** `\d` without the Unicode flag: an ASCII decimal digit. */
  predicate IsDigit(c: char)
  {
    '0' <= c <= '9'
  }

  /** The final group `(\d|X)`: a digit or an upper-case X. */
  predicate IsCheckChar(c: char)
  {
    IsDigit(c) || c == 'X'
  }

  /** `\d{n}`: consumes exactly `n` leading digits and yields what follows. */
  function DigitRun(s: string, n: nat): (rest: Option<string>)
    ensures rest.Some? <==> n <= |s| && forall k :: 0 <= k < n ==> IsDigit(s[k])
    ensures rest.Some? ==> rest.value == s[n..]
  {
    if n == 0 then Some(s)
    else if s == [] || !IsDigit(s[0]) then None
    else DigitRun(s[1..], n - 1)
  }

  /** `\d{9}(\d|X)$`: nine digits, a check character, then the end. */
  predicate MatchBody(s: string)
  {
    match DigitRun(s, 9)
    case None => false
    case Some(rest) => |rest| == 1 && IsCheckChar(rest[0])
  }

  /** The optional group `97(8|9)`. */
  predicate MatchPrefix(s: string)
  {
    |s| >= 3 && s[0] == '9' && s[1] == '7' && (s[2] == '8' || s[2] == '9')
  }

  /** The ISBN-10 shape, character by character. */
  ghost predicate Isbn10Shape(s: string)
  {
    && |s| == 10
    && (forall k :: 0 <= k < 9 ==> IsDigit(s[k]))
    && IsCheckChar(s[9])
  }

  /** The ISBN-13 shape, character by character (an X is allowed last). */
  ghost predicate Isbn13Shape(s: string)
  {
    && |s| == 13
    && s[0] == '9' && s[1] == '7' && (s[2] == '8' || s[2] == '9')
    && (forall k :: 3 <= k < 12 ==> IsDigit(s[k]))
    && IsCheckChar(s[12])
  }

  /**
   * `isValidISBN`: the anchored regular expression, trying the optional
   * prefix group first and then the match without it. It accepts exactly
   * the two shapes and nothing else.
   */
  predicate IsValidIsbn(s: string): (ok: bool)
    ensures ok <==> Isbn10Shape(s) || Isbn13Shape(s)
  {
    (MatchPrefix(s) && MatchBody(s[3..])) || MatchBody(s)
  }

  /** Only strings of 10 or 13 characters are accepted. */
  lemma ValidLength(s: string)
    requires IsValidIsbn(s)
    ensures |s| == 10 || |s| == 13
  {
  }

  /** A 13-character string is rejected unless it starts with 978 or 979. */
  lemma OtherPrefixRejected(s: string)
    requires |s| == 13 && !MatchPrefix(s)
    ensures !IsValidIsbn(s)
  {
  }

  /** A lower-case x is never accepted as the check character. */
  lemma LowercaseXRejected(s: string)
    requires |s| > 0 && s[|s| - 1] == 'x'
    ensures !IsValidIsbn(s)
  {
  }

  /** An accepted identifier contains no whitespace, so trimming keeps it. */
  lemma ValidIsTrimmed(s: string)
    requires IsValidIsbn(s)
    ensures Trim(s) == s
  {
    forall k | 0 <= k < |s|
      ensures !IsSpace(s[k])
    {
    }
    TrimNoSpace(s);
  }

  /**
   * Sample inputs accepted: an ISBN-10 with its correct check digit, the same
   * with a wrong one (no check digit is computed), and a 13-character form
   * ending in X.
   */
  lemma AcceptedSamples()
    ensures IsValidIsbn("0306406152")
    ensures IsValidIsbn("0306406153")
    ensures IsValidIsbn("978030640615X")
  {
    var a: string := "0306406152";
    var b: string := "0306406153";
    var c: string := "978030640615X";
    assert a[9] == '2' && b[9] == '3' && c[12] == 'X';
    assert forall k :: 0 <= k < 9 ==> a[k] == b[k] && IsDigit(a[k]);
    assert forall k :: 3 <= k < 12 ==> IsDigit(c[k]);
  }

  /** Sample inputs rejected for their characters or their length. */
  lemma RejectedSamples()
    ensures !IsValidIsbn("abcdefghil")
    ensures !IsValidIsbn("123456789")
    ensures !IsValidIsbn("12345678901")
    ensures !IsValidIsbn("123456789012")
    ensures !IsValidIsbn("1234567890123")
  {
  }
}
