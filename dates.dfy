/** Entry dates are ISO `YYYY-MM-DD` strings (types.ts). The detail page orders them by
    the time `new Date(date)` denotes; the model orders them as strings. This module proves
    that for strings of the shape `YYYY-MM-DD` the string order is the order of
    (year, month, day), which is the order of the timestamps when the strings are real
    calendar dates. The shape check does not bound the month or the day. */
module Dates {
  import opened Text

  predicate IsIsoDate(s: string)
  {
    && |s| == 10 && s[4] == '-' && s[7] == '-'
    && IsDigits(s[..4]) && IsDigits(s[5..7]) && IsDigits(s[8..])
  }

  function Year(s: string): nat requires IsIsoDate(s) { DigitsValue(s[..4]) }
  function Month(s: string): nat requires IsIsoDate(s) { DigitsValue(s[5..7]) }
  function Day(s: string): nat requires IsIsoDate(s) { DigitsValue(s[8..]) }

  /** Calendar order: by year, then month, then day. */
  predicate EarlierDay(a: string, b: string)
    requires IsIsoDate(a) && IsIsoDate(b)
  {
    || Year(a) < Year(b)
    || (Year(a) == Year(b) && Month(a) < Month(b))
    || (Year(a) == Year(b) && Month(a) == Month(b) && Day(a) < Day(b))
  }

  function Pow10(n: nat): nat
  {
    if n == 0 then 1 else 10 * Pow10(n - 1)
  }

  lemma {:induction false} DigitsBound(s: string)
    requires IsDigits(s)
    ensures DigitsValue(s) < Pow10(|s|)
  {
    if s != [] {
      DigitsBound(s[..|s| - 1]);
    }
  }

  /** Reading a digit string from the front: the first digit weighs 10^(n-1). */
  lemma {:induction false} DigitsFront(s: string)
    requires IsDigits(s) && s != []
    ensures DigitsValue(s) == DigitValue(s[0]) * Pow10(|s| - 1) + DigitsValue(s[1..])
  {
    var n := |s|;
    if n == 1 {
      assert s[..0] == [] && s[1..] == [];
    } else {
      var init := s[..n - 1];
      DigitsFront(init);
      assert init[1..] == s[1..][..n - 2];
      assert s[1..][n - 2] == s[n - 1];
      assert DigitsValue(s[1..]) == DigitsValue(init[1..]) * 10 + DigitValue(s[n - 1]);
      ShiftDigit(DigitValue(s[0]), Pow10(n - 2), DigitsValue(init[1..]), DigitValue(s[n - 1]));
    }
  }

  /** Appending a digit to `c` followed by `u`, where `c` has weight `p`. */
  lemma ShiftDigit(c: int, p: int, u: int, d: int)
    ensures (c * p + u) * 10 + d == c * (10 * p) + (u * 10 + d)
  {
  }

  /** A smaller leading digit outweighs whatever follows it. */
  lemma LeadingDigit(x: nat, y: nat, p: nat, u: nat, v: nat)
    requires x < y && u < p
    ensures x * p + u < y * p + v
  {
    var k := y - x;
    assert y * p == x * p + k * p;
    assert k * p == p + (k - 1) * p;
    assert (k - 1) * p >= 0;
  }

  /** On digit strings of one length, the string order implies the numeric order. */
  lemma {:induction false} DigitsOrder(a: string, b: string)
    requires IsDigits(a) && IsDigits(b) && |a| == |b|
    requires LexLess(a, b)
    ensures DigitsValue(a) < DigitsValue(b)
  {
    assert a != [];
    DigitsFront(a);
    DigitsFront(b);
    if a[0] == b[0] {
      DigitsOrder(a[1..], b[1..]);
    } else {
      DigitsBound(a[1..]);
      LeadingDigit(DigitValue(a[0]), DigitValue(b[0]), Pow10(|a| - 1), DigitsValue(a[1..]), DigitsValue(b[1..]));
    }
  }

  /** On digit strings of one length, string order and equality are numeric order and equality. */
  lemma DigitsCompare(a: string, b: string)
    requires IsDigits(a) && IsDigits(b) && |a| == |b|
    ensures LexLess(a, b) <==> DigitsValue(a) < DigitsValue(b)
    ensures a == b <==> DigitsValue(a) == DigitsValue(b)
  {
    if LexLess(a, b) {
      DigitsOrder(a, b);
    } else if a != b {
      LexLessTotal(a, b);
      DigitsOrder(b, a);
    }
  }

  /** Comparing two concatenations whose first parts have one length. */
  lemma {:induction false} LexLessAppend(p: string, q: string, p': string, q': string)
    requires |p| == |p'|
    ensures LexLess(p + q, p' + q') <==> LexLess(p, p') || (p == p' && LexLess(q, q'))
  {
    if p == [] {
      assert p + q == q && p' + q' == q';
    } else {
      assert (p + q)[0] == p[0] && (p' + q')[0] == p'[0];
      assert (p + q)[1..] == p[1..] + q && (p' + q')[1..] == p'[1..] + q';
      LexLessAppend(p[1..], q, p'[1..], q');
      if p[0] == p'[0] {
        assert p == p' <==> p[1..] == p'[1..] by {
          assert p == [p[0]] + p[1..] && p' == [p'[0]] + p'[1..];
        }
      }
    }
  }

  /** For ISO dates, the string order is the calendar order. */
  lemma IsoDateOrder(a: string, b: string)
    requires IsIsoDate(a) && IsIsoDate(b)
    ensures LexLess(a, b) <==> EarlierDay(a, b)
  {
    assert a == a[..4] + ("-" + (a[5..7] + ("-" + a[8..])));
    assert b == b[..4] + ("-" + (b[5..7] + ("-" + b[8..])));
    LexLessAppend(a[..4], "-" + (a[5..7] + ("-" + a[8..])), b[..4], "-" + (b[5..7] + ("-" + b[8..])));
    LexLessAppend("-", a[5..7] + ("-" + a[8..]), "-", b[5..7] + ("-" + b[8..]));
    LexLessAppend(a[5..7], "-" + a[8..], b[5..7], "-" + b[8..]);
    LexLessAppend("-", a[8..], "-", b[8..]);
    LexLessIrreflexive("-");
    DigitsCompare(a[..4], b[..4]);
    DigitsCompare(a[5..7], b[5..7]);
    DigitsCompare(a[8..], b[8..]);
  }
}
