/** Text helpers shared by the browser and the server side: white space as
    each language defines it, the case mappings the substring tests depend on,
    splitting on a separator, and decimal/hexadecimal digit strings. */
module Strings {
  import opened Wrappers

  // ---------------------------------------------------------------------
  // White space

  /** Python's str.isspace(), which str.strip() and int() use. */
  predicate IsPySpace(c: char) {
    c == ' ' || ('\t' <= c <= '\r') || ('\U{1C}' <= c <= '\U{1F}') || c == '\U{85}' || c == '\U{A0}'
    || c == '\U{1680}' || ('\U{2000}' <= c <= '\U{200A}') || c == '\U{2028}' || c == '\U{2029}'
    || c == '\U{202F}' || c == '\U{205F}' || c == '\U{3000}'
  }

  /** ECMAScript WhiteSpace and LineTerminator, which String.prototype.trim
      and parseInt skip. */
  predicate IsJsSpace(c: char) {
    c == ' ' || ('\t' <= c <= '\r') || c == '\U{A0}' || c == '\U{FEFF}'
    || c == '\U{1680}' || ('\U{2000}' <= c <= '\U{200A}') || c == '\U{2028}' || c == '\U{2029}'
    || c == '\U{202F}' || c == '\U{205F}' || c == '\U{3000}'
  }

  /** The character classes the parsers skip or read. */
  datatype CharClass = JsSpace | PySpace | Digit | HexDigit

  predicate InClass(c: char, k: CharClass) {
    match k
    case JsSpace => IsJsSpace(c)
    case PySpace => IsPySpace(c)
    case Digit => IsDigit(c)
    case HexDigit => IsHexDigit(c)
  }

  /** Drops the leading characters of class k. */
  function TrimLeft(s: string, k: CharClass): string {
    if |s| > 0 && InClass(s[0], k) then TrimLeft(s[1..], k) else s
  }

  /** Drops the trailing characters of class k. */
  function TrimRight(s: string, k: CharClass): string {
    if |s| > 0 && InClass(s[|s| - 1], k) then TrimRight(s[..|s| - 1], k) else s
  }

  /** TrimLeft removes a prefix, all of class k, and stops at the first
      character outside it. */
  lemma {:induction false} TrimLeftSpec(s: string, k: CharClass)
    ensures var r := TrimLeft(s, k);
      |r| <= |s| && r == s[|s| - |r|..] && (r == [] || !InClass(r[0], k))
      && forall i :: 0 <= i < |s| - |r| ==> InClass(s[i], k)
  {
    if |s| > 0 && InClass(s[0], k) {
      TrimLeftSpec(s[1..], k);
      var r := TrimLeft(s, k);
      assert s[1..][|s| - 1 - |r|..] == s[|s| - |r|..];
    }
  }

  /** TrimRight removes a suffix, all of class k, and stops at the last
      character outside it. */
  lemma {:induction false} TrimRightSpec(s: string, k: CharClass)
    ensures var r := TrimRight(s, k);
      |r| <= |s| && r == s[..|r|] && (r == [] || !InClass(r[|r| - 1], k))
      && forall i :: |r| <= i < |s| ==> InClass(s[i], k)
  {
    if |s| > 0 && InClass(s[|s| - 1], k) {
      TrimRightSpec(s[..|s| - 1], k);
    }
  }

  function Trim(s: string, k: CharClass): string {
    TrimRight(TrimLeft(s, k), k)
  }

  // ---------------------------------------------------------------------
  // Case mappings
  //
  // Both are used only to test whether a string contains one of a few fixed
  // keys. JavaScript's toLowerCase is modelled on ASCII and Latin-1 capitals,
  // Python's upper on every lower-case character whose upper case contains an
  // ASCII letter; every other character is kept, and no other character's
  // mapping can complete or break an occurrence of those keys.

  /** String.prototype.toLowerCase on one character. */
  function LowerChar(c: char): (r: char)
    ensures 'A' <= c <= 'Z' ==> r as int == c as int + 32
    ensures !('A' <= c <= 'Z') && !('\U{C0}' <= c <= '\U{DE}') ==> r == c
  {
    if 'A' <= c <= 'Z' || ('\U{C0}' <= c <= '\U{DE}' && c != '\U{D7}') then (c as int + 32) as char else c
  }

  function Lower(s: string): (r: string)
    ensures |r| == |s|
    ensures forall i :: 0 <= i < |s| ==> r[i] == LowerChar(s[i])
  {
    seq(|s|, i requires 0 <= i < |s| => LowerChar(s[i]))
  }

  /** Python's str.upper on one character. */
  function UpperChar(c: char): string {
    if 'a' <= c <= 'z' then [(c as int - 32) as char] else UpperSpecial(c, SpecialUpper)
  }

  /** The other characters whose upper case holds an ASCII letter, with
      that upper case: all seventeen of them, in code-point order. */
  const SpecialUpper: seq<(char, string)> := [
    ('\U{DF}', "SS"), ('\U{131}', "I"), ('\U{149}', "\U{2BC}N"), ('\U{17F}', "S"),
    ('\U{1F0}', "J\U{30C}"), ('\U{1E96}', "H\U{331}"), ('\U{1E97}', "T\U{308}"),
    ('\U{1E98}', "W\U{30A}"), ('\U{1E99}', "Y\U{30A}"), ('\U{1E9A}', "A\U{2BE}"),
    ('\U{FB00}', "FF"), ('\U{FB01}', "FI"), ('\U{FB02}', "FL"), ('\U{FB03}', "FFI"),
    ('\U{FB04}', "FFL"), ('\U{FB05}', "ST"), ('\U{FB06}', "ST")]

  function UpperSpecial(c: char, table: seq<(char, string)>): string {
    if table == [] then [c]
    else if table[0].0 == c then table[0].1
    else UpperSpecial(c, table[1..])
  }

  function Upper(s: string): string {
    if s == [] then [] else Upper(s[..|s| - 1]) + UpperChar(s[|s| - 1])
  }

  // ---------------------------------------------------------------------
  // Substrings

  predicate StartsWith(s: string, p: string) {
    |p| <= |s| && s[..|p|] == p
  }

  predicate EndsWith(s: string, p: string) {
    |p| <= |s| && s[|s| - |p|..] == p
  }

  /** `t` occurs in `s` (Python's `t in s`, JavaScript's s.includes(t)). */
  predicate Contains(s: string, t: string)
    decreases |s|
  {
    StartsWith(s, t) || (|s| > 0 && Contains(s[1..], t))
  }

  // ---------------------------------------------------------------------
  // Splitting on a separator (str.split(sep) and String.prototype.split(sep))

  function IndexOf(s: string, c: char): (i: nat)
    requires c in s
    ensures i < |s| && s[i] == c && c !in s[..i]
  {
    if s[0] == c then 0 else 1 + IndexOf(s[1..], c)
  }

  function Split(s: string, sep: char): (parts: seq<string>)
    ensures |parts| >= 1
    ensures forall k :: 0 <= k < |parts| ==> sep !in parts[k]
    decreases |s|
  {
    if sep !in s then [s]
    else
      var i := IndexOf(s, sep);
      [s[..i]] + Split(s[i + 1..], sep)
  }

  function Join(parts: seq<string>, sep: char): string
    requires |parts| >= 1
  {
    if |parts| == 1 then parts[0] else parts[0] + [sep] + Join(parts[1..], sep)
  }

  /** Splitting loses nothing: joining the parts gives the string back. */
  lemma {:induction false} JoinSplit(s: string, sep: char)
    ensures Join(Split(s, sep), sep) == s
    decreases |s|
  {
    if sep in s {
      var i := IndexOf(s, sep);
      var parts := Split(s, sep);
      var rest := Split(s[i + 1..], sep);
      assert parts == [s[..i]] + rest;
      assert parts[1..] == rest;
      JoinSplit(s[i + 1..], sep);
      assert Join(parts, sep) == s[..i] + [sep] + Join(rest, sep);
      assert s == s[..i] + [sep] + s[i + 1..];
    }
  }

  /** The first separator of `p + [sep] + rest` is the one after `p`. */
  lemma {:induction false} IndexOfAfter(p: string, sep: char, rest: string)
    requires sep !in p
    ensures sep in p + [sep] + rest && IndexOf(p + [sep] + rest, sep) == |p|
  {
    var s := p + [sep] + rest;
    assert s[|p|] == sep;
    if p != [] {
      assert s[1..] == p[1..] + [sep] + rest;
      IndexOfAfter(p[1..], sep, rest);
    }
  }

  /** Parts free of the separator are exactly what splitting their join gives. */
  lemma {:induction false} SplitJoin(parts: seq<string>, sep: char)
    requires |parts| >= 1
    requires forall k :: 0 <= k < |parts| ==> sep !in parts[k]
    ensures Split(Join(parts, sep), sep) == parts
  {
    if |parts| > 1 {
      var rest := Join(parts[1..], sep);
      var s := parts[0] + [sep] + rest;
      assert Join(parts, sep) == s;
      IndexOfAfter(parts[0], sep, rest);
      assert s[..|parts[0]|] == parts[0];
      assert s[|parts[0]| + 1..] == rest;
      SplitJoin(parts[1..], sep);
      assert parts == [parts[0]] + parts[1..];
    }
  }

  // ---------------------------------------------------------------------
  // Decimal and hexadecimal digit strings

  predicate IsDigit(c: char) { '0' <= c <= '9' }

  predicate IsHexDigit(c: char) { IsDigit(c) || 'a' <= c <= 'f' || 'A' <= c <= 'F' }

  predicate AllDigits(s: string) { forall i :: 0 <= i < |s| ==> IsDigit(s[i]) }

  predicate AllHexDigits(s: string) { forall i :: 0 <= i < |s| ==> IsHexDigit(s[i]) }

  function DigitValue(c: char): (v: nat)
    requires IsDigit(c)
    ensures v < 10
  {
    c as int - '0' as int
  }

  function HexDigitValue(c: char): (v: nat)
    requires IsHexDigit(c)
    ensures v < 16
  {
    if IsDigit(c) then DigitValue(c)
    else if 'a' <= c <= 'f' then c as int - 'a' as int + 10
    else c as int - 'A' as int + 10
  }

  /** The number a string of decimal digits denotes. */
  function DigitsValue(s: string): nat
    requires AllDigits(s)
  {
    if s == [] then 0 else DigitsValue(s[..|s| - 1]) * 10 + DigitValue(s[|s| - 1])
  }

  function HexDigitsValue(s: string): nat
    requires AllHexDigits(s)
  {
    if s == [] then 0 else HexDigitsValue(s[..|s| - 1]) * 16 + HexDigitValue(s[|s| - 1])
  }

  /** The longest prefix made of characters of class k. */
  function LongestPrefix(s: string, k: CharClass): (p: string)
    ensures forall i :: 0 <= i < |p| ==> InClass(p[i], k)
  {
    if |s| > 0 && InClass(s[0], k) then [s[0]] + LongestPrefix(s[1..], k) else []
  }

  /** The prefix taken is a prefix of s that no longer one of class k extends. */
  lemma {:induction false} LongestPrefixSpec(s: string, k: CharClass)
    ensures var p := LongestPrefix(s, k);
      |p| <= |s| && p == s[..|p|] && (|p| == |s| || !InClass(s[|p|], k))
  {
    if |s| > 0 && InClass(s[0], k) {
      LongestPrefixSpec(s[1..], k);
    }
  }

  /** A string all of class k is its own longest prefix. */
  lemma {:induction false} LongestPrefixWhole(s: string, k: CharClass)
    requires forall i :: 0 <= i < |s| ==> InClass(s[i], k)
    ensures LongestPrefix(s, k) == s
  {
    if s != [] {
      LongestPrefixWhole(s[1..], k);
      assert s == [s[0]] + s[1..];
    }
  }

  // ---------------------------------------------------------------------
  // Integer to decimal text: str(n) in Python, `${n}` in JavaScript

  function DigitChar(d: nat): (c: char)
    requires d < 10
    ensures IsDigit(c) && DigitValue(c) == d
  {
    ('0' as int + d) as char
  }

  function NatToString(n: nat): string
  {
    if n < 10 then [DigitChar(n)] else NatToString(n / 10) + [DigitChar(n % 10)]
  }

  function IntToString(n: int): string {
    if n < 0 then "-" + NatToString(-n) else NatToString(n)
  }

  /** Printing a natural number gives digits, without a superfluous leading
      zero, that read back as the same number. */
  lemma {:induction false} NatToStringRoundTrip(n: nat)
    ensures |NatToString(n)| >= 1 && AllDigits(NatToString(n))
    ensures DigitsValue(NatToString(n)) == n
    ensures NatToString(n)[0] == '0' ==> n == 0
  {
    if n >= 10 {
      NatToStringRoundTrip(n / 10);
      var s := NatToString(n);
      assert s[..|s| - 1] == NatToString(n / 10);
    }
  }

  /** Two-digit zero padding: n.toString().padStart(2, '0'). */
  function Pad2(n: nat): string
    requires n < 100
  {
    [DigitChar(n / 10), DigitChar(n % 10)]
  }

  /** The padded text is two digits that read back as n. */
  lemma Pad2Digits(n: nat)
    requires n < 100
    ensures |Pad2(n)| == 2 && AllDigits(Pad2(n)) && DigitsValue(Pad2(n)) == n
  {
    var r := Pad2(n);
    assert r[..1] == [DigitChar(n / 10)];
    assert DigitsValue([DigitChar(n / 10)]) == n / 10;
  }
}
