/** Character and string helpers standing for the few JavaScript string
    built-ins the core uses: decimal rendering (`n.toString()`), `parseInt` on
    a digit run, `padStart`, `toLowerCase`, `trim`, `includes`. */
module Strings {

  predicate IsDigit(c: char) {
    '0' <= c <= '9'
  }

  predicate IsDigits(s: string) {
    forall i :: 0 <= i < |s| ==> IsDigit(s[i])
  }

  function DigitChar(d: nat): (c: char)
    requires d < 10
    ensures IsDigit(c) && c as int - '0' as int == d
  {
    ('0' as int + d) as char
  }

  /** `parseInt` of a (non-empty) run of ASCII digits. */
  function DigitsValue(s: string): nat
    requires IsDigits(s)
  {
    if s == [] then 0 else DigitsValue(s[..|s| - 1]) * 10 + (s[|s| - 1] as int - '0' as int)
  }

  /** `n.toString()` for a non-negative integer: shortest decimal rendering. */
  function NatToString(n: nat): (s: string)
    ensures |s| >= 1 && IsDigits(s)
    ensures n >= 10 ==> s[0] != '0'
    decreases n
  {
    if n < 10 then [DigitChar(n)] else NatToString(n / 10) + [DigitChar(n % 10)]
  }

  /** `i.toString()` for any integer: a minus sign before the magnitude. */
  function IntToString(i: int): (s: string)
    ensures |s| >= 1
    ensures i >= 0 ==> s == NatToString(i)
    ensures i < 0 ==> s[0] == '-'
  {
    if i < 0 then "-" + NatToString(-i) else NatToString(i)
  }

  lemma {:induction false} NatToStringRoundTrip(n: nat)
    ensures DigitsValue(NatToString(n)) == n
  {
    if n >= 10 {
      NatToStringRoundTrip(n / 10);
      var s := NatToString(n);
      assert s[..|s| - 1] == NatToString(n / 10);
    }
  }

  lemma {:induction false} NatToStringLength(n: nat)
    ensures n < 10 ==> |NatToString(n)| == 1
    ensures n < 100 ==> |NatToString(n)| <= 2
    ensures n < 1000 ==> |NatToString(n)| <= 3
    ensures n < 10000 ==> |NatToString(n)| <= 4
    ensures n >= 10 ==> |NatToString(n)| >= 2
    ensures n >= 1000 ==> |NatToString(n)| >= 4
  {
    if n >= 10 {
      NatToStringLength(n / 10);
    }
  }

  function Repeat(c: char, k: nat): (r: string)
    ensures |r| == k && forall i :: 0 <= i < k ==> r[i] == c
  {
    seq(k, _ => c)
  }

  /** `s.padStart(width, fill)` with a one-character fill. */
  function PadStart(s: string, width: nat, fill: char): (r: string)
    ensures |r| == if |s| >= width then |s| else width
    ensures forall i :: 0 <= i < |r| - |s| ==> r[i] == fill
  {
    if |s| >= width then s else Repeat(fill, width - |s|) + s
  }

  /** The padded text ends with the original text. */
  lemma PadStartEndsWith(s: string, width: nat, fill: char)
    ensures var r := PadStart(s, width, fill); r[|r| - |s|..] == s
  {
  }

  lemma {:induction false} DigitsValueLeadingZeros(z: string, s: string)
    requires forall i :: 0 <= i < |z| ==> z[i] == '0'
    requires IsDigits(s)
    ensures IsDigits(z + s) && DigitsValue(z + s) == DigitsValue(s)
    decreases |z| + |s|
  {
    if s == [] {
      assert z + s == z;
      if z != [] {
        DigitsValueLeadingZeros(z[..|z| - 1], []);
        assert z[..|z| - 1] + [] == z[..|z| - 1];
      }
    } else {
      DigitsValueLeadingZeros(z, s[..|s| - 1]);
      assert (z + s)[..|z + s| - 1] == z + s[..|s| - 1];
    }
  }

  /** Zero-padding a decimal rendering does not change the number it denotes. */
  lemma PaddedRoundTrip(n: nat, width: nat)
    ensures IsDigits(PadStart(NatToString(n), width, '0'))
    ensures DigitsValue(PadStart(NatToString(n), width, '0')) == n
  {
    var s := NatToString(n);
    NatToStringRoundTrip(n);
    if |s| < width {
      var z := Repeat('0', width - |s|);
      assert PadStart(s, width, '0') == z + s;
      DigitsValueLeadingZeros(z, s);
    } else {
      assert PadStart(s, width, '0') == s;
    }
  }

  function Pow10(n: nat): (r: nat)
    ensures r >= 1
  {
    if n == 0 then 1 else 10 * Pow10(n - 1)
  }

  /** A run of `k` digits denotes a number below ten to the `k`. */
  lemma {:induction false} DigitsBound(s: string)
    requires IsDigits(s)
    ensures DigitsValue(s) < Pow10(|s|)
  {
    if s != [] {
      assert IsDigits(s[..|s| - 1]);
      DigitsBound(s[..|s| - 1]);
    }
  }

  /** Two digit runs of one length with one value are the same run. */
  lemma {:induction false} DigitsInjective(a: string, b: string)
    requires |a| == |b| && IsDigits(a) && IsDigits(b) && DigitsValue(a) == DigitsValue(b)
    ensures a == b
    decreases |a|
  {
    if a != [] {
      var i := |a| - 1;
      assert IsDigits(a[..i]) && IsDigits(b[..i]);
      DigitsInjective(a[..i], b[..i]);
      assert a == a[..i] + [a[i]] && b == b[..i] + [b[i]];
    }
  }

  function LowerChar(c: char): char {
    if 'A' <= c <= 'Z' then (c as int + 32) as char else c
  }

  /** `toLowerCase`, restricted to the ASCII letters A-Z. */
  function Lower(s: string): (r: string)
    ensures |r| == |s| && forall i :: 0 <= i < |s| ==> r[i] == LowerChar(s[i])
  {
    seq(|s|, i requires 0 <= i < |s| => LowerChar(s[i]))
  }

  /** JavaScript's `\s` class (WhiteSpace and LineTerminator code points), which
      is also the set `String.prototype.trim` removes. */
  predicate IsSpace(c: char) {
    var n := c as int;
    n == 9 || n == 10 || n == 11 || n == 12 || n == 13 || n == 32 || n == 0xA0 ||
    n == 0x1680 || (0x2000 <= n <= 0x200A) || n == 0x2028 || n == 0x2029 ||
    n == 0x202F || n == 0x205F || n == 0x3000 || n == 0xFEFF
  }

  function TrimStart(s: string): (r: string)
    ensures |r| <= |s| && r == s[|s| - |r|..]
    ensures r != [] ==> !IsSpace(r[0])
    ensures forall i :: 0 <= i < |s| - |r| ==> IsSpace(s[i])
  {
    if s != [] && IsSpace(s[0]) then TrimStart(s[1..]) else s
  }

  function TrimEnd(s: string): (r: string)
    ensures |r| <= |s| && r == s[..|r|]
    ensures r != [] ==> !IsSpace(r[|r| - 1])
    ensures forall i :: |r| <= i < |s| ==> IsSpace(s[i])
  {
    if s != [] && IsSpace(s[|s| - 1]) then TrimEnd(s[..|s| - 1]) else s
  }

  /** `r` occurs in `s` at offset `i`. */
  predicate InfixAt(r: string, s: string, i: int) {
    0 <= i && i + |r| <= |s| && s[i..i + |r|] == r
  }

  /** A prefix of a suffix of `s` is an infix of `s`. */
  lemma PrefixOfSuffix(s: string, t: string, r: string)
    requires |t| <= |s| && t == s[|s| - |t|..]
    requires |r| <= |t| && r == t[..|r|]
    ensures InfixAt(r, s, |s| - |t|)
  {
  }

  /** `s.trim()`: the infix left after removing leading and trailing whitespace. */
  function Trim(s: string): (r: string)
    ensures r != [] ==> !IsSpace(r[0]) && !IsSpace(r[|r| - 1])
    ensures exists i :: InfixAt(r, s, i)
  {
    var t := TrimStart(s);
    var r := TrimEnd(t);
    PrefixOfSuffix(s, t, r);
    r
  }

  /** Trimming a string that has no surrounding whitespace changes nothing. */
  lemma TrimNoSpace(s: string)
    requires s != [] ==> !IsSpace(s[0]) && !IsSpace(s[|s| - 1])
    ensures Trim(s) == s
  {
  }

  /** `s.includes(sub)`. */
  predicate Contains(s: string, sub: string)
    decreases |s|
  {
    |sub| <= |s| && (s[..|sub|] == sub || Contains(s[1..], sub))
  }
}
