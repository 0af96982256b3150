/**
 * The handful of JavaScript string and number primitives the appointment code relies on:
 * decimal rendering of integers (`String(n)`, template literals), `padStart`, `split`
 * and `parseInt` with no radix argument.
 */
module JsText {
  import opened Wrappers

  predicate IsDigit(c: char) {
    '0' <= c <= '9'
  }

  predicate AllDigits(s: string) {
    forall i :: 0 <= i < |s| ==> IsDigit(s[i])
  }

  function DigitValue(c: char): (d: nat)
    requires IsDigit(c)
    ensures d < 10
  {
    (c as int) - ('0' as int)
  }

  function DigitChar(d: nat): (c: char)
    requires d < 10
    ensures IsDigit(c) && DigitValue(c) == d
  {
    ('0' as int + d) as char
  }

  /** The number a string of decimal digits denotes (most significant digit first). */
  function DigitsValue(s: string): nat
    requires AllDigits(s)
  {
    if s == [] then 0 else DigitsValue(s[..|s| - 1]) * 10 + DigitValue(s[|s| - 1])
  }

  /** `String(n)` for a non-negative integer: shortest decimal form, no leading zero. */
  function NatToString(n: nat): (r: string)
    ensures |r| >= 1 && AllDigits(r)
    ensures DigitsValue(r) == n
    ensures r[0] == '0' ==> n == 0 && r == "0"
    decreases n
  {
    if n < 10 then [DigitChar(n)]
    else
      var prefix := NatToString(n / 10);
      assert (prefix + [DigitChar(n % 10)])[..|prefix|] == prefix;
      prefix + [DigitChar(n % 10)]
  }

  /** `String(i)` (or `${i}`) for an integer. */
  function IntToString(i: int): (r: string)
    ensures |r| >= 1
    ensures i >= 0 <==> r[0] != '-'
  {
    if i < 0 then "-" + NatToString(-i) else NatToString(i)
  }

  lemma {:induction false} NatToStringInjective(a: nat, b: nat)
    requires NatToString(a) == NatToString(b)
    ensures a == b
  {
  }

  lemma IntToStringInjective(a: int, b: int)
    requires IntToString(a) == IntToString(b)
    ensures a == b
  {
    if a < 0 && b < 0 {
      assert NatToString(-a) == IntToString(a)[1..];
      assert NatToString(-b) == IntToString(b)[1..];
      NatToStringInjective(-a, -b);
    } else if a >= 0 && b >= 0 {
      NatToStringInjective(a, b);
    }
  }

  /** `s.padStart(width, fill)` with a one-character fill string. */
  function PadStart(s: string, width: nat, fill: char): (r: string)
    ensures |r| == if |s| >= width then |s| else width
  {
    if |s| >= width then s else Repeat(fill, width - |s|) + s
  }

  /** The padded text ends with `s` and everything before it is `fill`. */
  lemma PadStartShape(s: string, width: nat, fill: char)
    ensures var r := PadStart(s, width, fill);
      r[|r| - |s|..] == s && forall i :: 0 <= i < |r| - |s| ==> r[i] == fill
  {
  }

  function Repeat(c: char, n: nat): (r: string)
    ensures |r| == n && forall i :: 0 <= i < n ==> r[i] == c
  {
    if n == 0 then [] else [c] + Repeat(c, n - 1)
  }

  /** `s.split(sep)` for a one-character separator. */
  function Split(s: string, sep: char): (parts: seq<string>)
    ensures |parts| >= 1
    ensures forall i :: 0 <= i < |parts| ==> sep !in parts[i]
  {
    if s == [] then [[]]
    else if s[0] == sep then [[]] + Split(s[1..], sep)
    else
      var rest := Split(s[1..], sep);
      [[s[0]] + rest[0]] + rest[1..]
  }

  /** `parts.join(sep)` for a one-character separator. */
  function Join(parts: seq<string>, sep: char): string
    requires |parts| >= 1
  {
    if |parts| == 1 then parts[0] else parts[0] + [sep] + Join(parts[1..], sep)
  }

  lemma {:induction false} SplitJoin(s: string, sep: char)
    ensures Join(Split(s, sep), sep) == s
  {
    if s == [] {
    } else if s[0] == sep {
      SplitJoin(s[1..], sep);
    } else {
      SplitJoin(s[1..], sep);
      var rest := Split(s[1..], sep);
      if |rest| == 1 {
      } else {
        assert ([[s[0]] + rest[0]] + rest[1..])[1..] == rest[1..];
        assert Join(rest, sep) == rest[0] + [sep] + Join(rest[1..], sep);
      }
    }
  }

  lemma {:induction false} SplitNoSeparator(s: string, sep: char)
    requires sep !in s
    ensures Split(s, sep) == [s]
  {
    if s != [] {
      SplitNoSeparator(s[1..], sep);
      assert [s[0]] + s[1..] == s;
    }
  }

  /** Text with one separator splits into the parts before and after it. */
  lemma {:induction false} SplitOnce(a: string, b: string, sep: char)
    requires sep !in a && sep !in b
    ensures Split(a + [sep] + b, sep) == [a, b]
  {
    if a == [] {
      assert a + [sep] + b == [sep] + b;
      assert ([sep] + b)[1..] == b;
      SplitNoSeparator(b, sep);
    } else {
      SplitOnce(a[1..], b, sep);
      assert (a + [sep] + b)[1..] == a[1..] + [sep] + b;
      assert [a[0]] + a[1..] == a;
    }
  }

  /**
   * The characters `parseInt` skips before the number: ECMAScript's WhiteSpace
   * (tab, vertical tab, form feed, the byte order mark and the space separators of
   * Unicode category Zs) and LineTerminator (line feed, carriage return, U+2028, U+2029).
   */
  predicate IsJsWhiteSpace(c: char) {
    c == '\t' || c == '\n' || c == '\U{B}' || c == '\U{C}' || c == '\r' || c == ' ' ||
    c == '\U{A0}' || c == '\U{1680}' || ('\U{2000}' <= c <= '\U{200A}') ||
    c == '\U{2028}' || c == '\U{2029}' || c == '\U{202F}' || c == '\U{205F}' ||
    c == '\U{3000}' || c == '\U{FEFF}'
  }

  function TrimStart(s: string): (r: string)
    ensures r == [] || !IsJsWhiteSpace(r[0])
    ensures |r| <= |s| && r == s[|s| - |r|..]
  {
    if s != [] && IsJsWhiteSpace(s[0]) then TrimStart(s[1..]) else s
  }

  predicate IsHexDigit(c: char) {
    IsDigit(c) || 'a' <= c <= 'f' || 'A' <= c <= 'F'
  }

  function HexDigitValue(c: char): (d: nat)
    requires IsHexDigit(c)
    ensures d < 16
  {
    if IsDigit(c) then DigitValue(c)
    else if 'a' <= c <= 'f' then (c as int) - ('a' as int) + 10
    else (c as int) - ('A' as int) + 10
  }

  function HexValue(s: string): nat
    requires forall i :: 0 <= i < |s| ==> IsHexDigit(s[i])
  {
    if s == [] then 0 else HexValue(s[..|s| - 1]) * 16 + HexDigitValue(s[|s| - 1])
  }

  /** The longest prefix of `s` made of decimal digits. */
  function DigitPrefix(s: string): (p: string)
    ensures AllDigits(p) && p <= s
    ensures |p| < |s| ==> !IsDigit(s[|p|])
  {
    if s != [] && IsDigit(s[0]) then [s[0]] + DigitPrefix(s[1..]) else []
  }

  /** The longest prefix of `s` made of hexadecimal digits. */
  function HexPrefix(s: string): (p: string)
    ensures forall i :: 0 <= i < |p| ==> IsHexDigit(p[i])
    ensures p <= s
    ensures |p| < |s| ==> !IsHexDigit(s[|p|])
  {
    if s != [] && IsHexDigit(s[0]) then [s[0]] + HexPrefix(s[1..]) else []
  }

  /**
   * `parseInt(s)` with no radix: skip leading white space, take an optional sign, read
   * hexadecimal after a `0x`/`0X` prefix and decimal otherwise, stop at the first
   * character that is not a digit. `None` stands for `NaN` (no digit at all).
   */
  function ParseInt(s: string): Option<int> {
    var t := TrimStart(s);
    if t != [] && t[0] == '-' then
      match ParseMagnitude(t[1..])
      case None => None
      case Some(m) => Some(-m)
    else if t != [] && t[0] == '+' then ParseMagnitude(t[1..])
    else ParseMagnitude(t)
  }

  /** The unsigned part of `parseInt`: hexadecimal after `0x`/`0X`, decimal otherwise. */
  function ParseMagnitude(u: string): (r: Option<int>)
    ensures r.Some? ==> r.value >= 0
  {
    if |u| >= 2 && u[0] == '0' && (u[1] == 'x' || u[1] == 'X') then
      var z := HexPrefix(u[2..]);
      if z == [] then None else Some(HexValue(z))
    else
      var z := DigitPrefix(u);
      if z == [] then None else Some(DigitsValue(z))
  }

  lemma {:induction false} DigitPrefixOfDigits(s: string)
    requires AllDigits(s)
    ensures DigitPrefix(s) == s
  {
    if s != [] {
      DigitPrefixOfDigits(s[1..]);
    }
  }

  /** Text that does not start with white space is left as it is by `TrimStart`. */
  lemma TrimStartUnchanged(s: string)
    requires s == [] || !IsJsWhiteSpace(s[0])
    ensures TrimStart(s) == s
  {
  }

  lemma DigitIsNotSpace(c: char)
    requires IsDigit(c)
    ensures !IsJsWhiteSpace(c) && c != '-' && c != '+'
  {
  }

  /** A non-empty digit string is read as decimal: a digit never starts a `0x` prefix. */
  lemma MagnitudeOfDigits(u: string)
    requires u != [] && AllDigits(u)
    ensures ParseMagnitude(u) == Some(DigitsValue(u))
  {
    if |u| >= 2 {
      assert IsDigit(u[1]);
    }
    DigitPrefixOfDigits(u);
  }

  /** `parseInt` reads back every integer that `String` writes. */
  lemma ParseIntOfIntToString(i: int)
    ensures ParseInt(IntToString(i)) == Some(i)
  {
    var s := IntToString(i);
    if i < 0 {
      var digits := NatToString(-i);
      assert s == "-" + digits && s[1..] == digits;
      TrimStartUnchanged(s);
      MagnitudeOfDigits(digits);
    } else {
      var digits := NatToString(i);
      assert s == digits;
      DigitIsNotSpace(s[0]);
      TrimStartUnchanged(s);
      MagnitudeOfDigits(digits);
    }
  }

  /** `parseInt` of a plain digit string is its decimal value. */
  lemma ParseIntOfDigits(s: string)
    requires s != [] && AllDigits(s)
    ensures ParseInt(s) == Some(DigitsValue(s))
  {
    DigitIsNotSpace(s[0]);
    TrimStartUnchanged(s);
    MagnitudeOfDigits(s);
  }

  /** `10^k`. */
  function Pow10(k: nat): (p: nat)
    ensures p >= 1
  {
    if k == 0 then 1 else 10 * Pow10(k - 1)
  }

  /** The last `w` decimal digits of `n`, most significant first (a fixed-width field). */
  function Digits(n: nat, w: nat): (r: string)
    ensures |r| == w && AllDigits(r)
  {
    if w == 0 then [] else Digits(n / 10, w - 1) + [DigitChar(n % 10)]
  }

  lemma {:induction false} DigitsValueOfDigits(n: nat, w: nat)
    requires n < Pow10(w)
    ensures DigitsValue(Digits(n, w)) == n
  {
    if w > 0 {
      DigitsValueOfDigits(n / 10, w - 1);
      var r := Digits(n, w);
      assert r[..|r| - 1] == Digits(n / 10, w - 1);
    }
  }

  /** A string of digits is the fixed-width field of its own value. */
  lemma {:induction false} DigitsOfDigitsValue(s: string)
    requires AllDigits(s)
    ensures Digits(DigitsValue(s), |s|) == s
  {
    if s != [] {
      var p, last := s[..|s| - 1], s[|s| - 1];
      DigitsOfDigitsValue(p);
      var n := DigitsValue(s);
      assert n / 10 == DigitsValue(p) && n % 10 == DigitValue(last);
      assert DigitChar(DigitValue(last)) == last;
      assert s == p + [last];
    }
  }

  lemma {:induction false} NatToStringLength(n: nat, w: nat)
    requires n < Pow10(w)
    ensures |NatToString(n)| <= w || (n == 0 && w == 0)
  {
    if n >= 10 {
      NatToStringLength(n / 10, w - 1);
    }
  }

  lemma {:induction false} NatToStringLengthAtLeast(n: nat, k: nat)
    requires n >= Pow10(k)
    ensures |NatToString(n)| >= k + 1
  {
    if k > 0 {
      NatToStringLengthAtLeast(n / 10, k - 1);
    }
  }

  /** Zero-padding the decimal form of `n` to width `w` gives the fixed-width field. */
  lemma {:induction false} PadStartIsDigits(n: nat, w: nat)
    requires n < Pow10(w) && w >= 1
    ensures PadStart(NatToString(n), w, '0') == Digits(n, w)
  {
    if n < 10 {
      PadStartOneDigit(n, w);
    } else {
      var s, last := NatToString(n / 10), DigitChar(n % 10);
      assert NatToString(n) == s + [last];
      assert Digits(n, w) == Digits(n / 10, w - 1) + [last];
      QuotientBelowPow10(n, w);
      NatToStringLength(n / 10, w - 1);
      PadStartIsDigits(n / 10, w - 1);
      PadStartSnoc(s, last, w);
    }
  }

  lemma PadStartOneDigit(n: nat, w: nat)
    requires n < 10 && w >= 1
    ensures PadStart(NatToString(n), w, '0') == Digits(n, w)
  {
    var last := DigitChar(n);
    assert n / 10 == 0 && n % 10 == n;
    assert NatToString(n) == [last];
    assert Digits(n, w) == Digits(0, w - 1) + [last];
    ZeroDigits(w - 1);
    PadStartFill([last], w, '0');
  }

  /** Text no wider than `w` is padded with exactly the missing fill characters. */
  lemma PadStartFill(s: string, w: nat, fill: char)
    requires |s| <= w
    ensures PadStart(s, w, fill) == Repeat(fill, w - |s|) + s
  {
    if |s| == w {
      assert Repeat(fill, 0) == [];
    }
  }

  lemma QuotientBelowPow10(n: nat, w: nat)
    requires n < Pow10(w) && w >= 1
    ensures n / 10 < Pow10(w - 1)
    ensures n >= 10 ==> w >= 2
  {
    assert Pow10(w) == 10 * Pow10(w - 1);
    assert Pow10(0) == 1;
  }

  /** Padding text with a tail on its left is padding the head alone. */
  lemma PadStartAppend(s: string, tail: string, w: nat, fill: char)
    ensures PadStart(s + tail, w + |tail|, fill) == PadStart(s, w, fill) + tail
  {
    if |s| < w {
      assert Repeat(fill, w - |s|) + (s + tail) == (Repeat(fill, w - |s|) + s) + tail;
    }
  }

  lemma PadStartSnoc(s: string, c: char, w: nat)
    requires 1 <= w && |s| <= w - 1
    ensures PadStart(s + [c], w, '0') == PadStart(s, w - 1, '0') + [c]
  {
    if |s| == w - 1 {
    } else {
      assert Repeat('0', w - |s| - 1) + (s + [c]) == (Repeat('0', w - 1 - |s|) + s) + [c];
    }
  }

  lemma {:induction false} ZeroDigits(w: nat)
    ensures Digits(0, w) == Repeat('0', w)
  {
    if w > 0 {
      ZeroDigits(w - 1);
    }
  }

  /**
   * JavaScript's `a < b` on strings: the first differing character decides, and a proper
   * prefix is smaller.
   */
  predicate StringLess(a: string, b: string) {
    if a == [] then b != []
    else if b == [] then false
    else if a[0] != b[0] then a[0] < b[0]
    else StringLess(a[1..], b[1..])
  }

  /** JavaScript's `a <= b` on strings. */
  predicate StringLeq(a: string, b: string) {
    a == b || StringLess(a, b)
  }

  lemma {:induction false} StringLessOfConcat(x: string, p: string, y: string, q: string)
    requires |x| == |y|
    ensures StringLess(x + p, y + q) <==> StringLess(x, y) || (x == y && StringLess(p, q))
  {
    if x == [] {
      assert x + p == p && y + q == q;
    } else {
      assert (x + p)[0] == x[0] && (y + q)[0] == y[0];
      assert (x + p)[1..] == x[1..] + p;
      assert (y + q)[1..] == y[1..] + q;
      StringLessOfConcat(x[1..], p, y[1..], q);
      if x[0] == y[0] {
        assert x == y <==> x[1..] == y[1..];
      }
    }
  }

  lemma {:induction false} StringLessIrreflexive(a: string)
    ensures !StringLess(a, a)
  {
    if a != [] {
      StringLessIrreflexive(a[1..]);
    }
  }

  /** Equal-width digit fields compare as strings the way their numbers compare. */
  lemma {:induction false} DigitsOrder(a: nat, b: nat, w: nat)
    requires a < Pow10(w) && b < Pow10(w)
    ensures StringLess(Digits(a, w), Digits(b, w)) <==> a < b
    ensures Digits(a, w) == Digits(b, w) <==> a == b
  {
    if w > 0 {
      DigitsOrder(a / 10, b / 10, w - 1);
      StringLessOfConcat(Digits(a / 10, w - 1), [DigitChar(a % 10)], Digits(b / 10, w - 1), [DigitChar(b % 10)]);
      if Digits(a, w) == Digits(b, w) {
        assert Digits(a, w)[w - 1] == DigitChar(a % 10);
        assert Digits(a, w)[..w - 1] == Digits(a / 10, w - 1);
        assert Digits(b, w)[..w - 1] == Digits(b / 10, w - 1);
      }
    }
  }
}
