/** The JavaScript string operations the pages rely on: number formatting
    (`String(n)`, `padStart`), `parseInt` in base 10, `split`, `trim`,
    `toLowerCase`, `includes` and `substring`. */
module Text {
  import opened Common

  predicate IsDigit(c: char) { '0' <= c <= '9' }

  predicate AllDigits(s: string) { forall i :: 0 <= i < |s| ==> IsDigit(s[i]) }

  function DigitValue(c: char): (d: nat)
    requires IsDigit(c)
    ensures d < 10
  {
    (c as int) - ('0' as int)
  }

  function DigitChar(d: nat): (c: char)
    requires d < 10
    ensures IsDigit(c) && DigitValue(c) == d
  {
    (('0' as int) + d) as char
  }

  /** Decimal value of a string of digits, most significant digit first. */
  function DigitsValue(s: string): nat
    requires AllDigits(s)
  {
    if s == [] then 0 else DigitsValue(s[..|s| - 1]) * 10 + DigitValue(s[|s| - 1])
  }

  /** `String(n)` for a non-negative integer: its decimal digits without
      leading zeros; reading the digits back gives `n`. */
  function NatToString(n: nat): (s: string)
    ensures |s| >= 1 && AllDigits(s)
    ensures (s[0] == '0') == (n == 0)
    ensures n == 0 ==> s == "0"
    ensures DigitsValue(s) == n
  {
    if n < 10 then [DigitChar(n)]
    else
      var high := NatToString(n / 10);
      var s := high + [DigitChar(n % 10)];
      assert s[..|s| - 1] == high;
      s
  }

  /** `String(i)` for any integer: a minus sign before the digits of a
      negative number. */
  function IntToString(i: int): (s: string)
    ensures |s| >= 1
    ensures i >= 0 ==> s == NatToString(i)
    ensures i < 0 ==> s == "-" + NatToString(-i)
    ensures forall k :: 0 <= k < |s| ==> s[k] == '-' || IsDigit(s[k])
  {
    if i < 0 then "-" + NatToString(-i) else NatToString(i)
  }

  /** A character that is neither a digit nor a minus sign does not occur
      in `String(i)`. */
  lemma IntToStringLacks(i: int, c: char)
    requires c != '-' && !IsDigit(c)
    ensures c !in IntToString(i)
  {
    var s := IntToString(i);
    forall k | 0 <= k < |s| ensures s[k] != c {
    }
  }

  /** A non-digit does not occur in a string of digits. */
  lemma DigitsLack(s: string, c: char)
    requires AllDigits(s) && !IsDigit(c)
    ensures c !in s
  {
    forall k | 0 <= k < |s| ensures s[k] != c {
      assert IsDigit(s[k]);
    }
  }

  /** The characters `trim` and `parseInt` skip: ECMAScript WhiteSpace and
      LineTerminator. */
  predicate IsWhitespace(c: char)
  {
    c == ' ' || c == '\t' || c == '\n' || c == '\r' || c == '\U{B}' || c == '\U{C}'
    || c == '\U{A0}' || c == '\U{1680}' || ('\U{2000}' <= c <= '\U{200A}')
    || c == '\U{2028}' || c == '\U{2029}' || c == '\U{202F}' || c == '\U{205F}'
    || c == '\U{3000}' || c == '\U{FEFF}'
  }

  /** Number of whitespace characters at the start of `s`. */
  function LeadingSpace(s: string): (k: nat)
    ensures k <= |s|
    ensures forall i :: 0 <= i < k ==> IsWhitespace(s[i])
    ensures k < |s| ==> !IsWhitespace(s[k])
  {
    if s == [] || !IsWhitespace(s[0]) then 0
    else
      var k := LeadingSpace(s[1..]);
      assert forall i :: 1 <= i <= k ==> s[i] == s[1..][i - 1];
      1 + k
  }

  /** Number of whitespace characters at the end of `s`. */
  function TrailingSpace(s: string): (k: nat)
    ensures k <= |s|
    ensures forall i :: |s| - k <= i < |s| ==> IsWhitespace(s[i])
    ensures k < |s| ==> !IsWhitespace(s[|s| - k - 1])
  {
    if s == [] || !IsWhitespace(s[|s| - 1]) then 0
    else
      var k := TrailingSpace(s[..|s| - 1]);
      assert forall i :: |s| - 1 - k <= i < |s| - 1 ==> s[i] == s[..|s| - 1][i];
      1 + k
  }

  /** `trimStart`: drops the leading whitespace. */
  function TrimStart(s: string): (r: string)
  {
    s[LeadingSpace(s)..]
  }

  /** `trim`: drops the leading and the trailing whitespace, leaving a
      contiguous piece of `s`. */
  function Trim(s: string): (r: string)
    ensures LeadingSpace(s) + |r| <= |s| && r == s[LeadingSpace(s)..LeadingSpace(s) + |r|]
  {
    var t := s[LeadingSpace(s)..];
    t[..|t| - TrailingSpace(t)]
  }

  /** `trim` gives the empty string exactly when `s` is all whitespace. */
  lemma TrimEmptyIff(s: string)
    ensures Trim(s) == [] <==> forall i :: 0 <= i < |s| ==> IsWhitespace(s[i])
  {
    var k := LeadingSpace(s);
    var t := s[k..];
    if Trim(s) == [] {
      assert TrailingSpace(t) == |t|;
    }
  }

  /** What `trim` keeps neither starts nor ends with whitespace. */
  lemma TrimEnds(s: string)
    ensures Trim(s) == [] || (!IsWhitespace(Trim(s)[0]) && !IsWhitespace(Trim(s)[|Trim(s)| - 1]))
  {
    var k := LeadingSpace(s);
    var t := s[k..];
    var r := Trim(s);
    if r != [] {
      assert r[0] == s[k];
      assert r[|r| - 1] == t[|t| - TrailingSpace(t) - 1];
    }
  }

  /** The longest prefix of `s` made of digits. */
  function DigitPrefix(s: string): (d: string)
    ensures AllDigits(d) && d <= s
    ensures |d| < |s| ==> !IsDigit(s[|d|])
  {
    if s == [] || !IsDigit(s[0]) then [] else [s[0]] + DigitPrefix(s[1..])
  }

  lemma {:induction false} DigitPrefixOfDigits(s: string)
    requires AllDigits(s)
    ensures DigitPrefix(s) == s
  {
    if s != [] {
      DigitPrefixOfDigits(s[1..]);
    }
  }

  /** `parseInt(s)` on decimal text: skips leading whitespace, reads an
      optional sign and then as many digits as there are; `None` stands for
      NaN, the result when no digit follows. A "0x" prefix, which
      `parseInt` without a radix reads as hexadecimal, is read here as the
      digit 0. */
  function ParseInt(s: string): (r: Option<int>)
    ensures r.None? <==> DigitPrefix(SignFree(TrimStart(s))) == []
  {
    var t := TrimStart(s);
    var d := DigitPrefix(SignFree(t));
    var v: int := if d == [] then 0 else DigitsValue(d);
    if d == [] then None
    else if |t| > 0 && t[0] == '-' then Some(-v)
    else Some(v)
  }

  function SignFree(t: string): string
  {
    if |t| > 0 && (t[0] == '-' || t[0] == '+') then t[1..] else t
  }

  /** `parseInt` reads back what `String` writes. */
  lemma {:induction false} ParseIntOfIntToString(i: int)
    ensures ParseInt(IntToString(i)) == Some(i)
  {
    var s := IntToString(i);
    var digits := NatToString(if i < 0 then -i else i);
    assert !IsWhitespace(s[0]);
    assert LeadingSpace(s) == 0;
    assert TrimStart(s) == s;
    assert SignFree(s) == digits;
    DigitPrefixOfDigits(digits);
    assert DigitPrefix(SignFree(TrimStart(s))) == digits;
  }

  /** `parseInt` of a non-empty string of digits is its decimal value,
      leading zeros included. */
  lemma {:induction false} ParseIntOfDigits(s: string)
    requires |s| > 0 && AllDigits(s)
    ensures ParseInt(s) == Some(DigitsValue(s))
  {
    DigitPrefixOfDigits(s);
    assert '0' <= s[0] <= '9';
    assert !IsWhitespace(s[0]);
    assert LeadingSpace(s) == 0;
    assert TrimStart(s) == s;
    assert s[0] != '-' && s[0] != '+';
    assert SignFree(s) == s;
    assert DigitPrefix(SignFree(TrimStart(s))) == s;
  }

  /** A leading zero does not change the value of a digit string. */
  lemma {:induction false} LeadingZero(s: string)
    requires AllDigits(s)
    ensures AllDigits("0" + s) && DigitsValue("0" + s) == DigitsValue(s)
  {
    if s != [] {
      var n := |s| - 1;
      assert ("0" + s)[..|"0" + s| - 1] == "0" + s[..n];
      LeadingZero(s[..n]);
    }
  }

  /** `padStart(width, c)`: puts copies of `c` before `s` until it has
      `width` characters; a longer string is left as it is. */
  function PadStart(s: string, width: nat, c: char): (r: string)
    ensures |r| == if |s| >= width then |s| else width
    ensures s <= r[|r| - |s|..] && r[|r| - |s|..] == s
    ensures forall i :: 0 <= i < |r| - |s| ==> r[i] == c
    decreases width - |s|
  {
    if |s| >= width then s else PadStart([c] + s, width, c)
  }

  /** Padding a digit string with zeros keeps its value. */
  lemma {:induction false} PadStartZeros(s: string, width: nat)
    requires AllDigits(s)
    ensures AllDigits(PadStart(s, width, '0'))
    ensures DigitsValue(PadStart(s, width, '0')) == DigitsValue(s)
    decreases width - |s|
  {
    if |s| < width {
      LeadingZero(s);
      PadStartZeros("0" + s, width);
    }
  }

  /** A capital of Latin Extended-A whose small letter is the next code
      point: the even ones in the blocks A-macron to I-ogonek, IJ to
      K-cedilla and Eng to Y-circumflex. */
  predicate EvenPairCapital(c: char)
  {
    ('\U{100}' <= c <= '\U{12F}' || '\U{132}' <= c <= '\U{137}' || '\U{14A}' <= c <= '\U{177}')
    && (c as int) % 2 == 0
  }

  /** The odd capitals of Latin Extended-A, from L-acute to N-caron and
      from Z-acute to Z-caron, whose small letter is the next code point. */
  predicate OddPairCapital(c: char)
  {
    ('\U{139}' <= c <= '\U{148}' || '\U{179}' <= c <= '\U{17E}') && (c as int) % 2 == 1
  }

  /** `toLowerCase` on one character, for the capitals of Basic Latin
      (A-Z), Latin-1 (such as Á, É, Ñ, Ü), Latin Extended-A (such as Ł,
      Ź, Ÿ) and the basic Cyrillic block (Ѐ-Џ and А-Я); every other
      character is left as it is. */
  function LowerChar(c: char): (l: char)
  {
    if 'A' <= c <= 'Z' || ('\U{C0}' <= c <= '\U{DE}' && c != '\U{D7}') || '\U{410}' <= c <= '\U{42F}' then
      ((c as int) + 32) as char
    else if '\U{400}' <= c <= '\U{40F}' then
      ((c as int) + 80) as char
    else if EvenPairCapital(c) || OddPairCapital(c) then
      ((c as int) + 1) as char
    else if c == '\U{178}' then
      '\U{FF}'
    else c
  }

  function ToLower(s: string): (r: string)
    ensures |r| == |s| && forall i :: 0 <= i < |s| ==> r[i] == LowerChar(s[i])
  {
    seq(|s|, i requires 0 <= i < |s| => LowerChar(s[i]))
  }

  /** `s.includes(q)`: `q` occurs somewhere in `s` as a contiguous piece. */
  predicate Contains(s: string, q: string)
  {
    q <= s || (s != [] && Contains(s[1..], q))
  }

  /** `q` occurs in `s` starting at index `k`. */
  predicate WindowAt(s: string, q: string, k: int)
  {
    0 <= k <= |s| - |q| && s[k..k + |q|] == q
  }

  /** `includes` agrees with "some window of `s` equals `q`". */
  lemma {:induction false} ContainsWindow(s: string, q: string)
    ensures Contains(s, q) <==> exists k :: WindowAt(s, q, k)
  {
    if q <= s {
      assert WindowAt(s, q, 0);
    } else if s == [] {
    } else {
      ContainsWindow(s[1..], q);
      if exists k :: WindowAt(s, q, k) {
        var k :| WindowAt(s, q, k);
        assert k != 0;
        assert WindowAt(s[1..], q, k - 1);
      }
      if exists k :: WindowAt(s[1..], q, k) {
        var k :| WindowAt(s[1..], q, k);
        assert WindowAt(s, q, k + 1);
      }
    }
  }

  /** `substring(0, n)`: the first `n` characters, or all of them. */
  function Prefix(s: string, n: nat): (r: string)
    ensures r <= s && |r| == if |s| <= n then |s| else n
  {
    if |s| <= n then s else s[..n]
  }

  /** `s.split(sep)` for a non-empty separator: the pieces between the
      occurrences of `sep`, found left to right without overlap. */
  function Split(s: string, sep: string): (pieces: seq<string>)
    requires |sep| > 0
    ensures |pieces| >= 1
    decreases |s|
  {
    if |s| < |sep| then [s]
    else if s[..|sep|] == sep then [""] + Split(s[|sep|..], sep)
    else
      var rest := Split(s[1..], sep);
      [[s[0]] + rest[0]] + rest[1..]
  }

  /** A string that lacks the last character of the separator is one piece. */
  lemma {:induction false} SplitNoSeparator(s: string, sep: string)
    requires |sep| > 0 && sep[|sep| - 1] !in s
    ensures Split(s, sep) == [s]
  {
    if |s| >= |sep| {
      assert s[..|sep|][|sep| - 1] == s[|sep| - 1];
      SplitNoSeparator(s[1..], sep);
      assert [s[0]] + s[1..] == s;
    }
  }

  /** Splitting at a two-character separator `c1 c2` (with `c1 != c2`)
      cuts at its first occurrence when the piece before it has no `c2`. */
  lemma {:induction false} SplitFirstPair(a: string, c1: char, c2: char, b: string)
    requires c1 != c2 && c2 !in a
    ensures Split(a + [c1, c2] + b, [c1, c2]) == [a] + Split(b, [c1, c2])
  {
    var s := a + [c1, c2] + b;
    if a == [] {
      assert s[..2] == [c1, c2] && s[2..] == b;
    } else {
      assert s[1] == if |a| > 1 then a[1] else c1;
      assert s[..2] != [c1, c2];
      assert s[1..] == a[1..] + [c1, c2] + b;
      SplitFirstPair(a[1..], c1, c2, b);
      assert [a[0]] + a[1..] == a;
    }
  }

  /** Splitting at a one-character separator cuts at its first occurrence. */
  lemma {:induction false} SplitFirstChar(a: string, c: char, b: string)
    requires c !in a
    ensures Split(a + [c] + b, [c]) == [a] + Split(b, [c])
  {
    var s := a + [c] + b;
    if a == [] {
      assert s[..1] == [c] && s[1..] == b;
    } else {
      assert s[0] == a[0] && s[..1] == [s[0]];
      assert s[1..] == a[1..] + [c] + b;
      SplitFirstChar(a[1..], c, b);
      assert [a[0]] + a[1..] == a;
    }
  }

  /** Three pieces free of a one-character separator, joined by it, split
      back into those three pieces. */
  lemma SplitThree(a: string, b: string, c: string, sep: char)
    requires sep !in a && sep !in b && sep !in c
    ensures Split(a + [sep] + b + [sep] + c, [sep]) == [a, b, c]
  {
    assert a + [sep] + b + [sep] + c == a + [sep] + (b + [sep] + c);
    SplitFirstChar(a, sep, b + [sep] + c);
    SplitFirstChar(b, sep, c);
    SplitNoSeparator(c, [sep]);
  }

  // ---------------------------------------------------------------------
  // Sorting strings

  /** The order of JavaScript's default `sort` on strings: character by
      character, a proper prefix first. */
  predicate StrLe(a: string, b: string)
  {
    a == [] || (b != [] && (a[0] < b[0] || (a[0] == b[0] && StrLe(a[1..], b[1..]))))
  }

  lemma {:induction false} StrLeTotal(a: string, b: string)
    ensures StrLe(a, b) || StrLe(b, a)
  {
    if a != [] && b != [] && a[0] == b[0] {
      StrLeTotal(a[1..], b[1..]);
    }
  }

  lemma {:induction false} StrLeTrans(a: string, b: string, c: string)
    requires StrLe(a, b) && StrLe(b, c)
    ensures StrLe(a, c)
  {
    if a != [] && b != [] && c != [] && a[0] == b[0] == c[0] {
      StrLeTrans(a[1..], b[1..], c[1..]);
    }
  }

  lemma {:induction false} StrLeAntisymmetric(a: string, b: string)
    requires StrLe(a, b) && StrLe(b, a)
    ensures a == b
  {
    if a != [] && b != [] {
      StrLeAntisymmetric(a[1..], b[1..]);
      assert a == [a[0]] + a[1..] && b == [b[0]] + b[1..];
    }
  }

  predicate SortedStrings(s: seq<string>)
  {
    forall i, j :: 0 <= i < j < |s| ==> StrLe(s[i], s[j])
  }

  /** `x` put into the sorted list `s` before the first element it does
      not follow. */
  function InsertString(x: string, s: seq<string>): (r: seq<string>)
    requires SortedStrings(s)
    ensures SortedStrings(r) && multiset(r) == multiset(s) + multiset{x}
  {
    if s == [] then [x]
    else if StrLe(x, s[0]) then
      InsertBefore(x, s);
      [x] + s
    else
      var rest := InsertString(x, s[1..]);
      StrLeTotal(x, s[0]);
      InsertAfter(s[0], rest, s[1..], x);
      assert s == [s[0]] + s[1..];
      [s[0]] + rest
  }

  lemma InsertBefore(x: string, s: seq<string>)
    requires SortedStrings(s) && s != [] && StrLe(x, s[0])
    ensures SortedStrings([x] + s)
  {
    forall j | 0 <= j < |s| ensures StrLe(x, s[j]) {
      if j > 0 {
        StrLeTrans(x, s[0], s[j]);
      }
    }
    var r := [x] + s;
    forall i, j | 0 <= i < j < |r| ensures StrLe(r[i], r[j]) {
      assert r[j] == s[j - 1];
      if i > 0 {
        assert r[i] == s[i - 1];
      }
    }
  }

  lemma InsertAfter(h: string, rest: seq<string>, s: seq<string>, x: string)
    requires SortedStrings(rest) && SortedStrings([h] + s) && StrLe(h, x)
    requires multiset(rest) == multiset(s) + multiset{x}
    ensures SortedStrings([h] + rest)
  {
    forall j | 0 <= j < |rest| ensures StrLe(h, rest[j]) {
      assert rest[j] in multiset(rest);
      if rest[j] != x {
        assert rest[j] in multiset(s);
        var k :| 0 <= k < |s| && s[k] == rest[j];
        var hs := [h] + s;
        assert hs[0] == h && hs[k + 1] == s[k];
        assert StrLe(hs[0], hs[k + 1]);
      }
    }
    var r := [h] + rest;
    forall i, j | 0 <= i < j < |r| ensures StrLe(r[i], r[j]) {
      assert r[j] == rest[j - 1];
      if i > 0 {
        assert r[i] == rest[i - 1];
      }
    }
  }

  /** `sort()` on a list of strings: an insertion sort. */
  function SortStrings(s: seq<string>): (r: seq<string>)
    ensures SortedStrings(r) && multiset(r) == multiset(s)
  {
    if s == [] then []
    else
      var r := InsertString(s[|s| - 1], SortStrings(s[..|s| - 1]));
      assert s == s[..|s| - 1] + [s[|s| - 1]];
      r
  }
}
