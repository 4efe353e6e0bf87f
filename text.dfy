/** The few string operations of JavaScript the pages rely on: `String.prototype.trim`,
    `Number(s)` on integer text, `Number.prototype.toString` on integers, and the
    lexicographic order of strings, which orders ISO dates chronologically. */
module Text {
  import opened Types

  /** ECMAScript's WhiteSpace and LineTerminator code points, which both `trim` and
      `Number` strip from the ends of a string. */
  predicate IsWhitespace(c: char)
  {
    || c == '\t' || c == '\n' || c == '\U{000B}' || c == '\U{000C}' || c == '\r'
    || c == ' ' || c == '\U{00A0}' || c == '\U{1680}' || ('\U{2000}' <= c <= '\U{200A}')
    || c == '\U{2028}' || c == '\U{2029}' || c == '\U{202F}' || c == '\U{205F}'
    || c == '\U{3000}' || c == '\U{FEFF}'
  }

  predicate Blank(s: string)
  {
    forall i :: 0 <= i < |s| ==> IsWhitespace(s[i])
  }

  /** Drops the leading whitespace: the result is the suffix of `s` after a blank prefix. */
  function TrimStart(s: string): (r: string)
    ensures |r| <= |s| && r == s[|s| - |r|..]
    ensures Blank(s[..|s| - |r|])
    ensures r == [] || !IsWhitespace(r[0])
  {
    if s != [] && IsWhitespace(s[0]) then
      var r := TrimStart(s[1..]);
      assert s[..|s| - |r|] == [s[0]] + s[1..][..|s| - 1 - |r|];
      BlankConcat([s[0]], s[1..][..|s| - 1 - |r|]);
      r
    else s
  }

  /** Drops the trailing whitespace: the result is the prefix of `s` before a blank suffix. */
  function TrimEnd(s: string): (r: string)
    ensures |r| <= |s| && r == s[..|r|]
    ensures Blank(s[|r|..])
    ensures r == [] || !IsWhitespace(r[|r| - 1])
  {
    if s != [] && IsWhitespace(s[|s| - 1]) then
      var r := TrimEnd(s[..|s| - 1]);
      assert s[|r|..] == s[..|s| - 1][|r|..] + [s[|s| - 1]];
      BlankConcat(s[..|s| - 1][|r|..], [s[|s| - 1]]);
      r
    else s
  }

  /** `r` is what trimming `s` must give: the middle of `s` between a blank prefix and a
      blank suffix, neither starting nor ending with whitespace; so it is empty exactly
      when `s` is all whitespace. */
  predicate IsTrimOf(s: string, r: string)
  {
    && (exists k :: 0 <= k <= |s| - |r| && r == s[k..k + |r|] && Blank(s[..k]) && Blank(s[k + |r|..]))
    && (r == [] || (!IsWhitespace(r[0]) && !IsWhitespace(r[|r| - 1])))
    && (r == [] <==> Blank(s))
  }

  /** `s.trim()`. Its result is empty, hence falsy, exactly when `s` is all whitespace. */
  function Trim(s: string): (r: string)
    ensures IsTrimOf(s, r)
  {
    TrimHalves(s);
    TrimEnd(TrimStart(s))
  }

  /** Trimming the start and then the end leaves the trim of `s`. */
  lemma TrimHalves(s: string)
    ensures IsTrimOf(s, TrimEnd(TrimStart(s)))
  {
    var t := TrimStart(s);
    TrimParts(s, t, TrimEnd(t));
  }

  /** A string is blank exactly when both of its parts are. */
  lemma BlankConcat(a: string, b: string)
    ensures Blank(a + b) <==> Blank(a) && Blank(b)
  {
    if Blank(a + b) {
      forall i | 0 <= i < |a| ensures IsWhitespace(a[i]) {
        assert a[i] == (a + b)[i];
      }
      forall i | 0 <= i < |b| ensures IsWhitespace(b[i]) {
        assert b[i] == (a + b)[|a| + i];
      }
    }
  }

  /** What the two halves of `Trim` leave, from their contracts alone: `t` is `s` after a
      blank prefix, `r` is `t` before a blank suffix, and neither starts or ends with
      whitespace; so `r` is the middle of `s` between two blank parts, and it is empty
      exactly when `s` is blank. */
  lemma TrimParts(s: string, t: string, r: string)
    requires |t| <= |s| && t == s[|s| - |t|..] && Blank(s[..|s| - |t|])
    requires t == [] || !IsWhitespace(t[0])
    requires |r| <= |t| && r == t[..|r|] && Blank(t[|r|..])
    requires r == [] || !IsWhitespace(r[|r| - 1])
    ensures IsTrimOf(s, r)
  {
    var k := |s| - |t|;
    var front, back := s[..k], t[|r|..];
    Halves(s, k);
    Halves(t, |r|);
    TrimPartsEmpty(s, front, t, r, back);
    TrimPartsMiddle(s, front, t, r, back);
    assert 0 <= k <= |s| - |r| && r == s[k..k + |r|] && Blank(s[..k]) && Blank(s[k + |r|..]);
  }

  /** A string is its prefix followed by the rest. */
  lemma Halves(s: string, k: nat)
    requires k <= |s|
    ensures s == s[..k] + s[k..]
  {
  }

  /** With `s == front + t` and `t == r + back`, both ends blank and `t` starting with a
      non-whitespace character, `r` is empty exactly when `s` is blank, and starts like `t`. */
  lemma TrimPartsEmpty(s: string, front: string, t: string, r: string, back: string)
    requires s == front + t && t == r + back && Blank(front) && Blank(back)
    requires t == [] || !IsWhitespace(t[0])
    ensures r == [] <==> Blank(s)
    ensures r == [] || !IsWhitespace(r[0])
  {
    BlankConcat(front, t);
    BlankConcat(r, back);
    if r != [] {
      assert r[0] == t[0];
    }
  }

  /** ... and `r` is the slice of `s` after `front`, followed by `back`. */
  lemma TrimPartsMiddle(s: string, front: string, t: string, r: string, back: string)
    requires s == front + t && t == r + back
    ensures r == s[|front|..|front| + |r|] && s[|front| + |r|..] == back
  {
  }

  /** A string that neither starts nor ends with whitespace is its own trim. */
  lemma TrimUntrimmed(s: string)
    requires s == [] || (!IsWhitespace(s[0]) && !IsWhitespace(s[|s| - 1]))
    ensures Trim(s) == s
  {
    assert TrimStart(s) == s;
    assert TrimEnd(s) == s;
  }

  /** Trimming twice is trimming once. */
  lemma TrimIdempotent(s: string)
    ensures Trim(Trim(s)) == Trim(s)
  {
    var r := Trim(s);
    assert r == [] || (!IsWhitespace(r[0]) && !IsWhitespace(r[|r| - 1]));
    TrimUntrimmed(r);
  }

  predicate IsDigit(c: char)
  {
    '0' <= c <= '9'
  }

  predicate IsDigits(s: string)
  {
    forall i :: 0 <= i < |s| ==> IsDigit(s[i])
  }

  function DigitValue(c: char): nat
    requires IsDigit(c)
  {
    c as int - '0' as int
  }

  /** The value of a string of decimal digits, read left to right. */
  function DigitsValue(s: string): nat
    requires IsDigits(s)
  {
    if s == [] then 0 else DigitsValue(s[..|s| - 1]) * 10 + DigitValue(s[|s| - 1])
  }

  /** The value of already trimmed numeric text: nothing (which JavaScript reads as 0),
      or decimal digits with an optional sign. */
  function NumericValue(t: string): Option<int>
  {
    if t == [] then Some(0)
    else if IsDigits(t) then Some(DigitsValue(t))
    else if |t| > 1 && (t[0] == '-' || t[0] == '+') && IsDigits(t[1..]) then
      var v: int := DigitsValue(t[1..]);
      Some(if t[0] == '-' then -v else v)
    else None
  }

  /** `Number(s)` for the strings whose value this model represents: the trimmed text read
      by `NumericValue`. `None` stands for NaN, and also for the fractional, exponent,
      hexadecimal and `Infinity` forms, which have no integer value here. */
  function ToNumber(s: string): (r: Option<int>)
    ensures Blank(s) ==> r == Some(0)
  {
    NumericValue(Trim(s))
  }

  function DigitChar(d: nat): (c: char)
    requires d < 10
    ensures IsDigit(c) && DigitValue(c) == d
  {
    ('0' as int + d) as char
  }

  /** `n.toString()` for a non-negative integer. */
  function ShowNat(n: nat): (s: string)
    ensures s != [] && IsDigits(s) && DigitsValue(s) == n
  {
    if n < 10 then
      assert [DigitChar(n)][..0] == [];
      [DigitChar(n)]
    else
      var s := ShowNat(n / 10) + [DigitChar(n % 10)];
      assert s[..|s| - 1] == ShowNat(n / 10);
      s
  }

  /** A digit string is its own trim. */
  lemma TrimDigits(d: string)
    requires d != [] && IsDigits(d)
    ensures Trim(d) == d
  {
    assert IsDigit(d[0]) && IsDigit(d[|d| - 1]);
    TrimUntrimmed(d);
  }

  /** So is a digit string after a minus sign. */
  lemma TrimNegDigits(d: string, s: string)
    requires d != [] && IsDigits(d) && s == "-" + d
    ensures Trim(s) == s
  {
    assert s[0] == '-' && s[|s| - 1] == d[|d| - 1];
    assert IsDigit(d[|d| - 1]);
    TrimUntrimmed(s);
  }

  /** `Number` reads a digit string as its value. */
  lemma ToNumberDigits(d: string)
    requires d != [] && IsDigits(d)
    ensures ToNumber(d) == Some(DigitsValue(d))
  {
    TrimDigits(d);
  }

  lemma NumericValueNegDigits(d: string, s: string)
    requires d != [] && IsDigits(d) && s == "-" + d
    ensures NumericValue(s) == Some(-(DigitsValue(d) as int))
  {
    assert s[1..] == d;
    assert !IsDigit(s[0]);
  }

  /** `Number` reads a minus sign before a digit string as the negated value. */
  lemma ToNumberNegDigits(d: string, s: string)
    requires d != [] && IsDigits(d) && s == "-" + d
    ensures ToNumber(s) == Some(-(DigitsValue(d) as int))
  {
    NumericValueNegDigits(d, s);
    TrimNegDigits(d, s);
  }

  /** `n.toString()` for an integer: the text `Number` reads back as `n`. */
  function ShowInt(n: int): (s: string)
    ensures ToNumber(s) == Some(n)
  {
    if n < 0 then
      var s := "-" + ShowNat(-n);
      ToNumberNegDigits(ShowNat(-n), s);
      s
    else
      ToNumberDigits(ShowNat(n));
      ShowNat(n)
  }

  /** Lexicographic order by code point. It is the order of JavaScript's `<` (by UTF-16
      code unit) on strings without characters beyond U+FFFF, such as ISO dates. */
  predicate LexLess(a: string, b: string)
  {
    if a == [] then b != []
    else if b == [] then false
    else if a[0] != b[0] then a[0] < b[0]
    else LexLess(a[1..], b[1..])
  }

  lemma {:induction false} LexLessIrreflexive(a: string)
    ensures !LexLess(a, a)
  {
    if a != [] {
      LexLessIrreflexive(a[1..]);
    }
  }

  lemma {:induction false} LexLessAsymmetric(a: string, b: string)
    requires LexLess(a, b)
    ensures !LexLess(b, a)
  {
    if a != [] && b != [] && a[0] == b[0] {
      LexLessAsymmetric(a[1..], b[1..]);
    }
  }

  lemma {:induction false} LexLessTotal(a: string, b: string)
    ensures a == b || LexLess(a, b) || LexLess(b, a)
  {
    if a != [] && b != [] && a[0] == b[0] {
      assert a == [a[0]] + a[1..] && b == [b[0]] + b[1..];
      LexLessTotal(a[1..], b[1..]);
    }
  }

  lemma {:induction false} LexLessTransitive(a: string, b: string, c: string)
    requires LexLess(a, b) && LexLess(b, c)
    ensures LexLess(a, c)
  {
    if a != [] && a[0] == b[0] && b[0] == c[0] {
      LexLessTransitive(a[1..], b[1..], c[1..]);
    }
  }

  /** "Not less than" is transitive. */
  lemma NotLessTransitive(a: string, b: string, c: string)
    requires !LexLess(a, b) && !LexLess(b, c)
    ensures !LexLess(a, c)
  {
    if a != b && b != c {
      LexLessTotal(a, b);
      LexLessTotal(b, c);
      if LexLess(a, c) {
        LexLessTransitive(b, a, c);
      }
    }
  }
}
