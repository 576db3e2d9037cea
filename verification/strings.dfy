/** String helpers with JavaScript semantics: the `<` order on strings,
    the whitespace class used by `trim()` and `\s`, and number-to-string
    conversion as done by template literals and `padStart`. */
module Strings {

  /** JavaScript `a < b` on strings: lexicographic order on code units,
      where a proper prefix is smaller. */
  predicate Less(a: string, b: string)
    decreases |a|
  {
    if a == [] then b != []
    else if b == [] then false
    else if a[0] != b[0] then a[0] < b[0]
    else Less(a[1..], b[1..])
  }

  /** JavaScript `a <= b` on strings. */
  predicate LessEq(a: string, b: string) {
    a == b || Less(a, b)
  }

  lemma {:induction false} LessIrreflexive(a: string)
    ensures !Less(a, a)
    decreases |a|
  {
    if a != [] {
      LessIrreflexive(a[1..]);
    }
  }

  lemma {:induction false} LessTransitive(a: string, b: string, c: string)
    requires Less(a, b) && Less(b, c)
    ensures Less(a, c)
    decreases |a|
  {
    if a != [] && a[0] == b[0] && b[0] == c[0] {
      LessTransitive(a[1..], b[1..], c[1..]);
    }
  }

  /** Any two different strings are ordered one way or the other. */
  lemma {:induction false} LessTotal(a: string, b: string)
    requires a != b
    ensures Less(a, b) || Less(b, a)
    decreases |a|
  {
    if a != [] && b != [] && a[0] == b[0] {
      assert a == [a[0]] + a[1..] && b == [b[0]] + b[1..];
      LessTotal(a[1..], b[1..]);
    }
  }

  lemma {:induction false} LessAsymmetric(a: string, b: string)
    requires Less(a, b)
    ensures !Less(b, a)
    decreases |a|
  {
    if a != [] && a[0] == b[0] {
      LessAsymmetric(a[1..], b[1..]);
    }
  }

  /** `a >= b` is the negation of `a < b`: the order is total. */
  lemma NotLessIsLessEq(a: string, b: string)
    ensures !Less(a, b) <==> LessEq(b, a)
  {
    if a == b {
      LessIrreflexive(a);
    } else if Less(a, b) {
      LessAsymmetric(a, b);
    } else {
      LessTotal(a, b);
    }
  }

  /** Two strings of equal length: comparing `p + s` with `q + t` decides on the
      prefixes first and falls back to the suffixes only when the prefixes agree. */
  lemma {:induction false} LessConcat(p: string, s: string, q: string, t: string)
    requires |p| == |q|
    ensures Less(p + s, q + t) <==> Less(p, q) || (p == q && Less(s, t))
    decreases |p|
  {
    if p != [] {
      assert (p + s)[0] == p[0] && (q + t)[0] == q[0];
      assert (p + s)[1..] == p[1..] + s && (q + t)[1..] == q[1..] + t;
      LessConcat(p[1..], s, q[1..], t);
      if p[0] == q[0] && p[1..] == q[1..] {
        assert p == [p[0]] + p[1..] && q == [q[0]] + q[1..];
      }
    } else {
      assert p + s == s && q + t == t;
    }
  }

  /** The characters JavaScript's `trim()` strips and its regular-expression
      class `\s` matches (WhiteSpace and LineTerminator of ECMA-262). */
  predicate IsWhitespace(c: char) {
    || c == ' ' || c == '\t' || c == '\n' || c == '\r'
    || c == '\U{000B}' || c == '\U{000C}' || c == '\U{00A0}' || c == '\U{1680}'
    || ('\U{2000}' <= c <= '\U{200A}')
    || c == '\U{2028}' || c == '\U{2029}' || c == '\U{202F}' || c == '\U{205F}'
    || c == '\U{3000}' || c == '\U{FEFF}'
  }

  /** `!s.trim()`: the string is empty once leading and trailing whitespace is
      removed, that is, it consists of whitespace only. */
  predicate IsBlank(s: string) {
    forall i :: 0 <= i < |s| ==> IsWhitespace(s[i])
  }

  function DigitChar(d: int): (c: char)
    requires 0 <= d < 10
    ensures '0' <= c <= '9'
  {
    (('0' as int) + d) as char
  }

  /** Decimal representation of a natural number, as `String(n)` prints it. */
  function NatToString(n: nat): (s: string)
    ensures |s| >= 1
    ensures forall i :: 0 <= i < |s| ==> '0' <= s[i] <= '9'
    ensures n < 10 <==> |s| == 1
    decreases n
  {
    if n < 10 then [DigitChar(n)]
    else NatToString(n / 10) + [DigitChar(n % 10)]
  }

  /** Decimal representation of an integer, with a leading `-` when negative. */
  function IntToString(n: int): (s: string)
    ensures |s| >= 1
    ensures n >= 0 ==> s == NatToString(n)
    ensures n < 0 ==> s[0] == '-' && s[1..] == NatToString(-n)
  {
    if n >= 0 then NatToString(n) else "-" + NatToString(-n)
  }

  /** The digit value of a decimal digit character. */
  function DigitValue(c: char): (d: nat)
    requires '0' <= c <= '9'
    ensures d < 10 && DigitChar(d) == c
  {
    (c as int) - ('0' as int)
  }

  /** Reading back the decimal representation gives the number. */
  function ParseNat(s: string): (n: nat)
    requires forall i :: 0 <= i < |s| ==> '0' <= s[i] <= '9'
    decreases |s|
  {
    if s == [] then 0 else 10 * ParseNat(s[..|s| - 1]) + DigitValue(s[|s| - 1])
  }

  lemma {:induction false} ParseNatToString(n: nat)
    ensures ParseNat(NatToString(n)) == n
    decreases n
  {
    if n >= 10 {
      var s := NatToString(n);
      assert s[..|s| - 1] == NatToString(n / 10);
      ParseNatToString(n / 10);
    }
  }

  /** Distinct numbers print differently. */
  lemma NatToStringInjective(m: nat, n: nat)
    requires NatToString(m) == NatToString(n)
    ensures m == n
  {
    ParseNatToString(m);
    ParseNatToString(n);
  }

  /** Different integers print differently: the sign and the digits tell them apart. */
  lemma IntToStringInjective(a: int, b: int)
    requires IntToString(a) == IntToString(b)
    ensures a == b
  {
    var s := IntToString(a);
    assert (a >= 0) == ('0' <= s[0] <= '9');
    assert (b >= 0) == ('0' <= s[0] <= '9');
    if a >= 0 {
      NatToStringInjective(a, b);
    } else {
      NatToStringInjective(-a, -b);
    }
  }

  /** `String(n).padStart(2, "0")`: one leading zero for a single digit,
      longer numbers unchanged. */
  function PadTwo(n: nat): (s: string)
    ensures n < 100 ==> |s| == 2
    ensures n < 10 ==> s == ['0', DigitChar(n)]
    ensures 10 <= n ==> s == NatToString(n)
  {
    var digits := NatToString(n);
    if |digits| < 2 then ['0'] + digits else digits
  }

  /** For two-digit padding the string order is the numeric order. */
  lemma {:induction false} PadTwoOrder(m: nat, n: nat)
    requires m < 100 && n < 100
    ensures Less(PadTwo(m), PadTwo(n)) <==> m < n
  {
    TwoDigits(m);
    TwoDigits(n);
    var a, b := PadTwo(m), PadTwo(n);
    assert Less(a, b) <==> m / 10 < n / 10 || (m / 10 == n / 10 && m % 10 < n % 10) by {
      assert a[0] == DigitChar(m / 10) && b[0] == DigitChar(n / 10);
      assert a[1] == DigitChar(m % 10) && b[1] == DigitChar(n % 10);
      assert a[0] < b[0] <==> m / 10 < n / 10;
      assert a[0] == b[0] <==> m / 10 == n / 10;
      assert a[1] < b[1] <==> m % 10 < n % 10;
      assert a[1..] == [a[1]] && b[1..] == [b[1]];
      assert a[1..][1..] == [] && b[1..][1..] == [];
      assert Less(a[1..], b[1..]) <==> a[1] < b[1];
      assert Less(a, b) <==> a[0] < b[0] || (a[0] == b[0] && Less(a[1..], b[1..]));
    }
    assert m == 10 * (m / 10) + m % 10 && n == 10 * (n / 10) + n % 10;
  }

  lemma TwoDigits(n: nat)
    requires n < 100
    ensures PadTwo(n) == [DigitChar(n / 10), DigitChar(n % 10)]
  {
    if n >= 10 {
      assert NatToString(n / 10) == [DigitChar(n / 10)];
    }
  }
}
