/**
 * Decimal text of Kotlin `Long`s: `Long.toString()` and `String.toLong()`.
 */
module Decimal {
  import opened Wrappers
  import opened KotlinNum

  predicate IsDigit(c: char) { '0' <= c <= '9' }

  predicate AllDigits(s: string) { forall i :: 0 <= i < |s| ==> IsDigit(s[i]) }

  function DigitChar(d: int): char
    requires 0 <= d < 10
  {
    ('0' as int + d) as char
  }

  function DigitValue(c: char): int
    requires IsDigit(c)
  {
    c as int - '0' as int
  }

  /** The value of a string of decimal digits, most significant first. */
  function DigitsValue(s: string): nat
    requires AllDigits(s)
  {
    if s == [] then 0 else DigitsValue(s[..|s| - 1]) * 10 + DigitValue(s[|s| - 1])
  }

  /** The decimal digits of `n` without leading zeros (`0` is written "0"). */
  function NatToDigits(n: nat): (s: string)
    ensures 0 < |s| && AllDigits(s)
    ensures s[0] != '-' && s[0] != '+'
  {
    if n < 10 then [DigitChar(n)] else NatToDigits(n / 10) + [DigitChar(n % 10)]
  }

  lemma {:induction false} DigitsRoundTrip(n: nat)
    ensures DigitsValue(NatToDigits(n)) == n
  {
    if n >= 10 {
      var s := NatToDigits(n);
      assert s[..|s| - 1] == NatToDigits(n / 10);
      DigitsRoundTrip(n / 10);
    }
  }

  /** `Long.toString()`: a minus sign for negative values, then the digits of the magnitude. */
  function LongToString(n: int): (s: string)
    requires IsLong(n)
    ensures 0 < |s|
    ensures n < 0 <==> s[0] == '-'
    ensures forall i :: 0 < i < |s| ==> IsDigit(s[i])
  {
    if n < 0 then "-" + NatToDigits(-n) else NatToDigits(n)
  }

  /** The value of an optionally signed digit string, or None when it is not one. */
  function SignedValue(s: string): Option<int>
  {
    if 0 < |s| && (s[0] == '-' || s[0] == '+') then
      var body := s[1..];
      if 0 < |body| && AllDigits(body) then
        var m: int := DigitsValue(body);
        Some(if s[0] == '-' then -m else m)
      else None
    else if 0 < |s| && AllDigits(s) then Some(DigitsValue(s))
    else None
  }

  /**
   * `String.toLong()`: an optional sign and at least one ASCII digit, whose
   * value fits the Long range; None where it throws NumberFormatException.
   */
  function ParseLong(s: string): (r: Option<int>)
    ensures r.Some? ==> IsLong(r.value)
    ensures |s| == 0 ==> r.None?
    ensures r.Some? ==> forall i :: 0 < i < |s| ==> IsDigit(s[i])
  {
    match SignedValue(s)
    case Some(v) => if IsLong(v) then Some(v) else None
    case None => None
  }

  /** Every Long survives `toString()` followed by `toLong()`. */
  lemma LongRoundTrip(n: int)
    requires IsLong(n)
    ensures ParseLong(LongToString(n)) == Some(n)
  {
    var s := LongToString(n);
    if n < 0 {
      assert s[1..] == NatToDigits(-n);
      DigitsRoundTrip(-n);
    } else {
      DigitsRoundTrip(n);
    }
  }
}

/**
 * Kotlin string operations the screens and file managers use:
 * `replace` (every occurrence), `endsWith(…, ignoreCase = true)` and
 * the natural order of strings (`compareTo`).
 */
module Text {
  /** `s.replace(pat, rep)`: every non-overlapping occurrence, scanning from the left. */
  function ReplaceAll(s: string, pat: string, rep: string): string
    requires 0 < |pat|
    decreases |s|
  {
    if |s| < |pat| then s
    else if s[..|pat|] == pat then rep + ReplaceAll(s[|pat|..], pat, rep)
    else [s[0]] + ReplaceAll(s[1..], pat, rep)
  }

  /** A prefix in which the pattern cannot start passes through `replace` untouched. */
  lemma {:induction false} ReplaceAllSkipsPrefix(a: string, b: string, pat: string, rep: string)
    requires 0 < |pat|
    requires forall i :: 0 <= i < |a| ==> a[i] != pat[0]
    ensures ReplaceAll(a + b, pat, rep) == a + ReplaceAll(b, pat, rep)
    decreases |a|
  {
    if a != [] {
      var s := a + b;
      if |s| < |pat| {
        assert ReplaceAll(s, pat, rep) == s;
        assert ReplaceAll(b, pat, rep) == b;
      } else {
        assert s[..|pat|] != pat by { assert s[..|pat|][0] == a[0]; }
        assert ReplaceAll(s, pat, rep) == [s[0]] + ReplaceAll(s[1..], pat, rep);
        assert s[1..] == a[1..] + b;
        ReplaceAllSkipsPrefix(a[1..], b, pat, rep);
        assert s[0] == a[0];
        assert a == [a[0]] + a[1..];
        assert [a[0]] + (a[1..] + ReplaceAll(b, pat, rep)) == a + ReplaceAll(b, pat, rep);
      }
    } else {
      assert a + b == b;
    }
  }

  /** A leading occurrence of the pattern is replaced. */
  lemma ReplaceAllLeading(b: string, pat: string, rep: string)
    requires 0 < |pat|
    ensures ReplaceAll(pat + b, pat, rep) == rep + ReplaceAll(b, pat, rep)
  {
    var s := pat + b;
    assert s[..|pat|] == pat;
    assert s[|pat|..] == b;
  }

  /** ASCII letters and the two dotted/dotless capital and small i that case mapping joins to 'i'. */
  function UpperChar(c: char): char
  {
    if 'a' <= c <= 'z' then (c as int - 32) as char
    else if c == 'ı' then 'I'
    else c
  }

  function LowerChar(c: char): char
  {
    if 'A' <= c <= 'Z' then (c as int + 32) as char
    else if c == 'İ' then 'i'
    else c
  }

  /** `Char.equals(other, ignoreCase = true)`: same char, same upper case, or same lower case of the upper case. */
  predicate CharEqualsIgnoreCase(a: char, b: char)
  {
    a == b || UpperChar(a) == UpperChar(b) || LowerChar(UpperChar(a)) == LowerChar(UpperChar(b))
  }

  /** `s.endsWith(suffix, ignoreCase = true)`. */
  predicate EndsWithIgnoreCase(s: string, suffix: string)
  {
    |suffix| <= |s| &&
    forall i :: 0 <= i < |suffix| ==> CharEqualsIgnoreCase(s[|s| - |suffix| + i], suffix[i])
  }

  /** `a.equals(b, ignoreCase = true)`: same length, every pair of chars equal ignoring case. */
  predicate EqualsIgnoreCase(a: string, b: string)
  {
    |a| == |b| && forall i :: 0 <= i < |a| ==> CharEqualsIgnoreCase(a[i], b[i])
  }

  /**
   * The UTF-16 code units Kotlin stores for one character: the value itself
   * below 0x10000, otherwise a high surrogate (0xD800–0xDBFF) followed by a
   * low one (0xDC00–0xDFFF).
   */
  function Utf16Units(c: char): (u: seq<int>)
    ensures 1 <= |u| <= 2
    ensures |u| == 2 <==> 0xD800 <= u[0] < 0xDC00
    ensures forall i :: 0 <= i < |u| ==> 0 <= u[i] < 0x1_0000
  {
    var v := c as int;
    if v < 0x1_0000 then [v]
    else
      var w := v - 0x1_0000;
      [0xD800 + w / 0x400, 0xDC00 + w % 0x400]
  }

  /** Different characters have different code units. */
  lemma Utf16UnitsInjective(a: char, b: char)
    requires Utf16Units(a) == Utf16Units(b)
    ensures a == b
  {
    if 0x1_0000 <= a as int {
      var wa, wb := a as int - 0x1_0000, b as int - 0x1_0000;
      assert wa == wa / 0x400 * 0x400 + wa % 0x400;
      assert wb == wb / 0x400 * 0x400 + wb % 0x400;
    }
  }

  /** A string as Kotlin's `Char`s: the UTF-16 units of its characters, in order. */
  function Utf16(s: string): (u: seq<int>)
    ensures s == [] <==> u == []
  {
    if s == [] then [] else Utf16Units(s[0]) + Utf16(s[1..])
  }

  /** Different strings have different UTF-16 encodings: a high surrogate tells where each character ends. */
  lemma {:induction false} Utf16Injective(a: string, b: string)
    requires Utf16(a) == Utf16(b)
    ensures a == b
  {
    if a != [] && b != [] {
      var ua, ub := Utf16Units(a[0]), Utf16Units(b[0]);
      var u := Utf16(a);
      assert ua[0] == u[0] == ub[0];
      assert ua == u[..|ua|] && ub == u[..|ub|];
      Utf16UnitsInjective(a[0], b[0]);
      assert Utf16(a[1..]) == u[|ua|..] == Utf16(b[1..]);
      Utf16Injective(a[1..], b[1..]);
      assert a == [a[0]] + a[1..];
      assert b == [b[0]] + b[1..];
    }
  }

  /** Lexicographic order of code-unit sequences. */
  predicate UnitsLe(a: seq<int>, b: seq<int>)
  {
    if a == [] then true
    else if b == [] then false
    else if a[0] != b[0] then a[0] < b[0]
    else UnitsLe(a[1..], b[1..])
  }

  /** `a.compareTo(b) <= 0`: Kotlin compares strings unit by unit in UTF-16, not by code point. */
  predicate StrLe(a: string, b: string)
  {
    UnitsLe(Utf16(a), Utf16(b))
  }

  lemma {:induction false} UnitsLeTotal(a: seq<int>, b: seq<int>)
    ensures UnitsLe(a, b) || UnitsLe(b, a)
  {
    if a != [] && b != [] && a[0] == b[0] {
      UnitsLeTotal(a[1..], b[1..]);
    }
  }

  lemma {:induction false} UnitsLeTransitive(a: seq<int>, b: seq<int>, c: seq<int>)
    requires UnitsLe(a, b) && UnitsLe(b, c)
    ensures UnitsLe(a, c)
  {
    if a != [] && b != [] && c != [] && a[0] == b[0] && b[0] == c[0] {
      UnitsLeTransitive(a[1..], b[1..], c[1..]);
    }
  }

  lemma {:induction false} UnitsLeAntisymmetric(a: seq<int>, b: seq<int>)
    requires UnitsLe(a, b) && UnitsLe(b, a)
    ensures a == b
  {
    if a != [] && b != [] {
      UnitsLeAntisymmetric(a[1..], b[1..]);
      assert a == [a[0]] + a[1..];
      assert b == [b[0]] + b[1..];
    }
  }

  lemma StrLeTotal(a: string, b: string)
    ensures StrLe(a, b) || StrLe(b, a)
  {
    UnitsLeTotal(Utf16(a), Utf16(b));
  }

  lemma StrLeTransitive(a: string, b: string, c: string)
    requires StrLe(a, b) && StrLe(b, c)
    ensures StrLe(a, c)
  {
    UnitsLeTransitive(Utf16(a), Utf16(b), Utf16(c));
  }

  lemma StrLeAntisymmetric(a: string, b: string)
    requires StrLe(a, b) && StrLe(b, a)
    ensures a == b
  {
    UnitsLeAntisymmetric(Utf16(a), Utf16(b));
    Utf16Injective(a, b);
  }

  /**
   * UTF-16 order is not code-point order: U+1F600 (units D83D DE00) comes
   * before U+FF21 although its code point is greater.
   */
  lemma Utf16OrderNotCodePoint()
    ensures '\U{FF21}' < '\U{1F600}'
    ensures StrLe("\U{1F600}", "\U{FF21}") && !StrLe("\U{FF21}", "\U{1F600}")
  {
    assert Utf16("\U{1F600}") == [0xD83D, 0xDE00];
    assert Utf16("\U{FF21}") == [0xFF21];
  }
}
