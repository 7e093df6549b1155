/** Dates as text. The cache compares them as strings, the database as dates. */
module DateText {

  predicate IsDigit(c: char) {
    '0' <= c <= '9'
  }

  /** YYYY-MM-DD, the shape validateDateFormat asks for. */
  predicate ValidDate(s: string) {
    && |s| == 10 && s[4] == '-' && s[7] == '-'
    && IsDigit(s[0]) && IsDigit(s[1]) && IsDigit(s[2]) && IsDigit(s[3])
    && IsDigit(s[5]) && IsDigit(s[6]) && IsDigit(s[8]) && IsDigit(s[9])
  }

  function Digit(c: char): nat
    requires IsDigit(c)
  {
    c as int - '0' as int
  }

  /** Year, month and day as one number; larger is later. */
  function DateNumber(s: string): nat
    requires ValidDate(s)
  {
    10000 * (1000 * Digit(s[0]) + 100 * Digit(s[1]) + 10 * Digit(s[2]) + Digit(s[3]))
    + 100 * (10 * Digit(s[5]) + Digit(s[6]))
    + 10 * Digit(s[8]) + Digit(s[9])
  }

  /** String comparison, character by character. */
  predicate AtMost(a: string, b: string) {
    if a == "" then true
    else if b == "" then false
    else if a[0] != b[0] then a[0] < b[0]
    else AtMost(a[1..], b[1..])
  }

  lemma {:induction false} FirstDifference(a: string, b: string, i: nat)
    requires i < |a| && i < |b| && a[..i] == b[..i] && a[i] != b[i]
    ensures AtMost(a, b) <==> a[i] < b[i]
  {
    if i > 0 {
      assert a[0] == a[..i][0] && b[0] == b[..i][0];
      assert a[1..][..i - 1] == a[..i][1..] && b[1..][..i - 1] == b[..i][1..];
      FirstDifference(a[1..], b[1..], i - 1);
    }
  }

  lemma {:induction false} AtMostReflexive(a: string)
    ensures AtMost(a, a)
  {
    if a != "" {
      AtMostReflexive(a[1..]);
    }
  }

  lemma SomeDifference(a: string, b: string) returns (i: nat)
    requires |a| == |b| && a != b
    ensures i < |a| && a[..i] == b[..i] && a[i] != b[i]
  {
    if a[0] != b[0] {
      i := 0;
    } else {
      assert a == [a[0]] + a[1..] && b == [b[0]] + b[1..];
      var j := SomeDifference(a[1..], b[1..]);
      i := j + 1;
      assert a[..i] == [a[0]] + a[1..][..j] && b[..i] == [b[0]] + b[1..][..j];
    }
  }

  /** On well-formed dates the two orders agree, and equal numbers mean equal text. */
  lemma TextOrderIsDateOrder(a: string, b: string)
    requires ValidDate(a) && ValidDate(b)
    ensures AtMost(a, b) <==> DateNumber(a) <= DateNumber(b)
    ensures DateNumber(a) == DateNumber(b) <==> a == b
  {
    if a == b {
      AtMostReflexive(a);
    } else {
      var i := SomeDifference(a, b);
      FirstDifference(a, b, i);
      assert forall j :: 0 <= j < i ==> a[j] == a[..i][j] && b[j] == b[..i][j];
      DigitsDecide(a, b, i);
    }
  }

  lemma DigitsDecide(a: string, b: string, i: nat)
    requires ValidDate(a) && ValidDate(b) && i < 10 && a[i] != b[i]
    requires forall j :: 0 <= j < i ==> a[j] == b[j]
    ensures if a[i] < b[i] then DateNumber(a) < DateNumber(b) else DateNumber(b) < DateNumber(a)
  {
    assert i != 4 && i != 7;
  }
}
