/** The parts of JavaScript string and number behaviour the backend relies on:
    the `\d`, `\w` and `\s` classes of its regular expressions, the decimal
    text a number becomes inside a template literal, `String.prototype.trim`,
    `toLowerCase` on the ASCII letters `\w` can match, and the global
    `parseInt` called without a radix. */
module JsText {
  import opened Wrappers

  /** Character classes of the regular expressions and of `parseInt`. */
  datatype CharClass =
    | Radix(base: nat)   // the digits of a base; `\d` is Radix(10)
    | Space              // `\s`
    | Word               // `\w`

  const DecimalDigit: CharClass := Radix(10)

  /** The value of c read as a digit of a base up to 36, and 36 when c is no
      such digit at all. */
  function DigitValue(c: char): nat
  {
    if '0' <= c <= '9' then c as int - '0' as int
    else if 'a' <= c <= 'z' then c as int - 'a' as int + 10
    else if 'A' <= c <= 'Z' then c as int - 'A' as int + 10
    else 36
  }

  /** ECMAScript WhiteSpace and LineTerminator code points: what `\s`
      matches and what `trim` and `parseInt` skip. */
  predicate IsSpace(c: char)
  {
    || c == '\t' || c == '\n' || c == '\U{B}' || c == '\U{C}' || c == '\r'
    || c == ' ' || c == '\U{A0}' || c == '\U{1680}'
    || ('\U{2000}' <= c <= '\U{200A}')
    || c == '\U{2028}' || c == '\U{2029}' || c == '\U{202F}' || c == '\U{205F}'
    || c == '\U{3000}' || c == '\U{FEFF}'
  }

  /** `\w`: ASCII letters, decimal digits and the underscore. */
  predicate IsWordChar(c: char)
  {
    ('a' <= c <= 'z') || ('A' <= c <= 'Z') || ('0' <= c <= '9') || c == '_'
  }

  predicate InClass(c: char, k: CharClass)
  {
    match k
    case Radix(b) => DigitValue(c) < b
    case Space => IsSpace(c)
    case Word => IsWordChar(c)
  }

  predicate AllIn(s: string, k: CharClass)
  {
    forall i :: 0 <= i < |s| ==> InClass(s[i], k)
  }

  /** The length of the longest prefix of s whose characters all belong to k:
      what a greedy `k+` or `k*` consumes. */
  function Span(s: string, k: CharClass): (n: nat)
    ensures n <= |s|
    ensures forall i :: 0 <= i < n ==> InClass(s[i], k)
    ensures n < |s| ==> !InClass(s[n], k)
  {
    if |s| == 0 || !InClass(s[0], k) then 0 else 1 + Span(s[1..], k)
  }

  /** A run of class characters followed by a character outside the class
      (or by nothing) is consumed exactly. */
  lemma SpanOfConcat(a: string, b: string, k: CharClass)
    requires AllIn(a, k)
    requires |b| == 0 || !InClass(b[0], k)
    ensures Span(a + b, k) == |a|
  {
    forall i | 0 <= i < |a|
      ensures InClass((a + b)[i], k)
    {
      assert (a + b)[i] == a[i];
    }
    if |b| > 0 {
      assert (a + b)[|a|] == b[0];
    }
  }

  /** The decimal digit character of d. */
  function DigitChar(d: nat): (c: char)
    requires d < 10
    ensures DigitValue(c) == d && '0' <= c <= '9'
  {
    ('0' as int + d) as char
  }

  /** The text of a non-negative integer inside a template literal,
      `${n}`: its decimal digits without leading zeros. */
  function NatToString(n: nat): (s: string)
    ensures |s| > 0 && AllIn(s, DecimalDigit)
    ensures |s| > 1 ==> s[0] != '0'
  {
    if n < 10 then [DigitChar(n)] else NatToString(n / 10) + [DigitChar(n % 10)]
  }

  /** The number a string of base-`base` digits denotes. */
  function ValueOf(s: string, base: nat): nat
    requires AllIn(s, Radix(base))
  {
    if |s| == 0 then 0
    else ValueOf(s[..|s| - 1], base) * base + DigitValue(s[|s| - 1])
  }

  /** Reading back the decimal text of a number gives the number. */
  lemma {:induction false} ValueOfNatToString(n: nat)
    ensures ValueOf(NatToString(n), 10) == n
  {
    var s := NatToString(n);
    if n >= 10 {
      ValueOfNatToString(n / 10);
      assert s[..|s| - 1] == NatToString(n / 10);
    }
  }

  /** `parseInt(s)` with no radix argument; None stands for NaN. Leading
      white space is skipped, one sign is read, a `0x`/`0X` prefix switches
      to base 16, and the longest run of digits of the base that follows is
      read; anything after it is ignored. */
  function ParseInt(s: string): (r: Option<int>)
  {
    var t := s[Span(s, Space)..];
    var negative := |t| > 0 && t[0] == '-';
    var u := if |t| > 0 && (t[0] == '-' || t[0] == '+') then t[1..] else t;
    var hex := |u| >= 2 && u[0] == '0' && (u[1] == 'x' || u[1] == 'X');
    var base := if hex then 16 else 10;
    var v := if hex then u[2..] else u;
    var z := v[..Span(v, Radix(base))];
    if |z| == 0 then None
    else
      var magnitude: int := ValueOf(z, base);
      Some(if negative then -magnitude else magnitude)
  }

  /** `parseInt` reads a decimal number back, and stops at the first
      character that cannot continue it: `"2abc"` is 2. The exception is the
      text `0` followed by `x` or `X`, which `parseInt` reads as a base-16
      prefix instead. */
  lemma ParseIntReadsDecimalPrefix(n: nat, rest: string)
    requires |rest| == 0 || !('0' <= rest[0] <= '9')
    requires |rest| == 0 || n != 0 || (rest[0] != 'x' && rest[0] != 'X')
    ensures ParseInt(NatToString(n) + rest) == Some(n)
  {
    var d := NatToString(n);
    var s := d + rest;
    assert !IsSpace(s[0]);
    assert Span(s, Space) == 0;
    assert s[0..] == s;
    SpanOfConcat(d, rest, Radix(10));
    assert s[..|d|] == d;
    ValueOfNatToString(n);
  }

  /** `parseInt` of the decimal text of a number is that number. */
  lemma ParseIntOfNatToString(n: nat)
    ensures ParseInt(NatToString(n)) == Some(n)
  {
    ParseIntReadsDecimalPrefix(n, []);
    assert NatToString(n) + [] == NatToString(n);
  }

  /** A text whose first character is none of white space, a sign or a
      decimal digit is NaN. */
  lemma ParseIntRejectsNonNumeric(s: string)
    requires |s| > 0 && !IsSpace(s[0]) && s[0] != '-' && s[0] != '+' && !('0' <= s[0] <= '9')
    ensures ParseInt(s) == None
  {
    assert Span(s, Space) == 0;
    assert s[0..] == s;
    assert Span(s, Radix(10)) == 0;
  }

  /** `trim()` without its leading white space. */
  function TrimEnd(s: string): (r: string)
    ensures |r| <= |s| && r == s[..|r|]
    ensures |r| == 0 || !IsSpace(r[|r| - 1])
    ensures forall i :: |r| <= i < |s| ==> IsSpace(s[i])
  {
    if |s| > 0 && IsSpace(s[|s| - 1]) then TrimEnd(s[..|s| - 1]) else s
  }

  /** `String.prototype.trim`: the text between the leading and the
      trailing white space. */
  function Trim(s: string): (r: string)
    ensures |r| == 0 || (!IsSpace(r[0]) && !IsSpace(r[|r| - 1]))
    ensures Span(s, Space) + |r| <= |s|
    ensures r == s[Span(s, Space)..Span(s, Space) + |r|]
    ensures forall i :: Span(s, Space) + |r| <= i < |s| ==> IsSpace(s[i])
  {
    var a := Span(s, Space);
    TrimEnd(s[a..])
  }

  /** `toLowerCase` on the ASCII text `\w` can match. */
  function LowerChar(c: char): char
  {
    if 'A' <= c <= 'Z' then (c as int - 'A' as int + 'a' as int) as char else c
  }

  function ToLower(s: string): (r: string)
    ensures |r| == |s|
    ensures forall i :: 0 <= i < |s| ==> r[i] == LowerChar(s[i])
  {
    seq(|s|, i requires 0 <= i < |s| => LowerChar(s[i]))
  }

  /** Two characters that are equal once upper-case ASCII letters are
      mapped to lower case. */
  predicate SameIgnoringCase(a: char, b: char)
  {
    a == b
    || ('A' <= a <= 'Z' && b as int == a as int + 32)
    || ('A' <= b <= 'Z' && a as int == b as int + 32)
  }

  /** Lower-casing identifies exactly the strings that differ only in the
      case of their letters, leaves no upper-case letter behind, and is
      idempotent. */
  lemma ToLowerFolds(a: string, b: string)
    ensures ToLower(a) == ToLower(b) <==>
      |a| == |b| && forall i :: 0 <= i < |a| ==> SameIgnoringCase(a[i], b[i])
    ensures forall i :: 0 <= i < |a| ==> !('A' <= ToLower(a)[i] <= 'Z')
    ensures ToLower(ToLower(a)) == ToLower(a)
  {
    if |a| == |b| && forall i :: 0 <= i < |a| ==> SameIgnoringCase(a[i], b[i]) {
      forall i | 0 <= i < |a|
        ensures ToLower(a)[i] == ToLower(b)[i]
      {
        assert SameIgnoringCase(a[i], b[i]);
      }
    }
    if ToLower(a) == ToLower(b) {
      forall i | 0 <= i < |a|
        ensures SameIgnoringCase(a[i], b[i])
      {
        assert LowerChar(a[i]) == LowerChar(b[i]);
      }
    }
  }

  /** `${x}` of a value that may be undefined. */
  function Interpolate(x: Option<string>): string
  {
    if x.Some? then x.value else "undefined"
  }

  /** JavaScript truthiness of a string that may be undefined. */
  predicate Truthy(x: Option<string>)
  {
    x.Some? && x.value != ""
  }
}
