/** String primitives with Python's meaning: `str.isspace`, `str.strip`, `str.lower`
    (ASCII), `str.split(sep)`, `sep.join`, `str(int)` and `int(str)`. */
module Text {
  import opened Wrappers

  /** Python's `str.isspace()` for one character: the characters with Unicode
      bidirectional type WS, B or S, or general category Zs. `str.strip()` and the
      regular-expression class `\s` both use this set. */
  predicate IsSpace(c: char) {
    || c == ' ' || c == '\t' || c == '\n' || c == '\r' || c == '\U{b}' || c == '\U{c}'
    || ('\U{1c}' <= c <= '\U{1f}')
    || c == '\U{85}' || c == '\U{a0}' || c == '\U{1680}'
    || ('\U{2000}' <= c <= '\U{200a}')
    || c == '\U{2028}' || c == '\U{2029}' || c == '\U{202f}' || c == '\U{205f}' || c == '\U{3000}'
  }

  /** The line boundaries `str.splitlines()` splits on (`\r\n` counts as two here,
      which only adds empty lines). */
  predicate IsLineBreak(c: char) {
    || c == '\n' || c == '\r' || c == '\U{b}' || c == '\U{c}'
    || c == '\U{1c}' || c == '\U{1d}' || c == '\U{1e}'
    || c == '\U{85}' || c == '\U{2028}' || c == '\U{2029}'
  }

  predicate IsDigit(c: char) { '0' <= c <= '9' }
  predicate IsLower(c: char) { 'a' <= c <= 'z' }
  predicate IsUpper(c: char) { 'A' <= c <= 'Z' }
  predicate IsAlnum(c: char) { IsDigit(c) || IsLower(c) || IsUpper(c) }
  predicate IsHex(c: char) { IsDigit(c) || ('a' <= c <= 'f') || ('A' <= c <= 'F') }

  predicate AllChars(s: string, p: char -> bool) {
    forall i :: 0 <= i < |s| ==> p(s[i])
  }

  /** ASCII lowering of one character. */
  function LowerChar(c: char): (r: char)
    ensures IsUpper(c) ==> r as int == c as int + 32
    ensures !IsUpper(c) ==> r == c
  {
    if IsUpper(c) then (c as int + 32) as char else c
  }

  function Lower(s: string): (r: string)
    ensures |r| == |s|
    ensures forall i :: 0 <= i < |s| ==> r[i] == LowerChar(s[i])
  {
    if |s| == 0 then "" else [LowerChar(s[0])] + Lower(s[1..])
  }

  /** Lowering twice is lowering once. */
  lemma LowerIdempotent(s: string)
    ensures Lower(Lower(s)) == Lower(s)
  {
    var l := Lower(s);
    forall i | 0 <= i < |s| ensures Lower(l)[i] == l[i] {
      assert !IsUpper(l[i]);
    }
  }

  /** ASCII upper-casing of one character. */
  function UpperChar(c: char): (r: char)
    ensures IsLower(c) ==> r as int == c as int - 32
    ensures !IsLower(c) ==> r == c
  {
    if IsLower(c) then (c as int - 32) as char else c
  }

  function Upper(s: string): (r: string)
    ensures |r| == |s|
    ensures forall i :: 0 <= i < |s| ==> r[i] == UpperChar(s[i])
  {
    if |s| == 0 then "" else [UpperChar(s[0])] + Upper(s[1..])
  }

  predicate StartsWith(s: string, p: string) {
    |p| <= |s| && s[..|p|] == p
  }

  /** Python's `p in s` for a substring `p`. */
  predicate Contains(s: string, p: string)
    decreases |s|
  {
    StartsWith(s, p) || (|s| > 0 && Contains(s[1..], p))
  }

  lemma {:induction false} ContainsAt(s: string, p: string, i: nat)
    requires i + |p| <= |s| && s[i..i + |p|] == p
    ensures Contains(s, p)
    decreases i
  {
    if i > 0 {
      assert s[1..][i - 1..i - 1 + |p|] == s[i..i + |p|];
      ContainsAt(s[1..], p, i - 1);
    }
  }

  lemma {:induction false} ContainsWitness(s: string, p: string) returns (i: nat)
    requires Contains(s, p)
    ensures i + |p| <= |s| && s[i..i + |p|] == p
    decreases |s|
  {
    if StartsWith(s, p) {
      i := 0;
    } else {
      var j := ContainsWitness(s[1..], p);
      i := j + 1;
      assert s[1..][j..j + |p|] == s[i..i + |p|];
    }
  }

  /** A one-character substring occurs iff the character does. */
  lemma ContainsChar(s: string, c: char)
    ensures Contains(s, [c]) <==> c in s
  {
    if c in s {
      var i :| 0 <= i < |s| && s[i] == c;
      assert s[i..i + 1] == [c];
      ContainsAt(s, [c], i);
    }
    if Contains(s, [c]) {
      var i := ContainsWitness(s, [c]);
      assert s[i] == s[i..i + 1][0];
    }
  }

  /** Number of leading whitespace characters. */
  function LeadingSpaces(s: string): (k: nat)
    ensures k <= |s|
    ensures forall i :: 0 <= i < k ==> IsSpace(s[i])
    ensures k < |s| ==> !IsSpace(s[k])
  {
    if |s| == 0 || !IsSpace(s[0]) then 0 else 1 + LeadingSpaces(s[1..])
  }

  /** Number of trailing whitespace characters. */
  function TrailingSpaces(s: string): (k: nat)
    ensures k <= |s|
    ensures forall i :: |s| - k <= i < |s| ==> IsSpace(s[i])
    ensures k < |s| ==> !IsSpace(s[|s| - k - 1])
  {
    if |s| == 0 || !IsSpace(s[|s| - 1]) then 0 else 1 + TrailingSpaces(s[..|s| - 1])
  }

  /** Python's `s.strip()`: the slice of `s` left after removing whitespace at both
      ends. */
  function Strip(s: string): (r: string)
    ensures r == "" || (!IsSpace(r[0]) && !IsSpace(r[|r| - 1]))
    ensures exists i, j ::
              && 0 <= i <= j <= |s| && r == s[i..j]
              && (forall k :: 0 <= k < i ==> IsSpace(s[k]))
              && (forall k :: j <= k < |s| ==> IsSpace(s[k]))
  {
    var a := LeadingSpaces(s);
    var rest := s[a..];
    var b := TrailingSpaces(rest);
    var j := a + |rest| - b;
    assert forall k :: j <= k < |s| ==> s[k] == rest[k - a];
    assert rest[..|rest| - b] == s[a..j];
    assert 0 <= a <= j <= |s| && rest[..|rest| - b] == s[a..j]
           && (forall k :: 0 <= k < a ==> IsSpace(s[k]))
           && (forall k :: j <= k < |s| ==> IsSpace(s[k]));
    rest[..|rest| - b]
  }

  /** A string without whitespace at either end is its own strip. */
  lemma StripNoEdgeSpace(s: string)
    requires s == "" || (!IsSpace(s[0]) && !IsSpace(s[|s| - 1]))
    ensures Strip(s) == s
  {
    assert LeadingSpaces(s) == 0;
    assert s[0..] == s;
    assert TrailingSpaces(s) == 0;
  }

  /** Index of the first occurrence of `c`. */
  function IndexOf(s: string, c: char): (i: nat)
    requires c in s
    ensures i < |s| && s[i] == c && c !in s[..i]
  {
    if s[0] == c then 0 else 1 + IndexOf(s[1..], c)
  }

  /** The first occurrence is the only position holding `c` with no `c` before it. */
  lemma IndexOfUnique(s: string, c: char, i: nat)
    requires i < |s| && s[i] == c && c !in s[..i]
    ensures IndexOf(s, c) == i
  {
  }

  /** Extending a string does not move an occurrence already present. */
  lemma IndexOfPrefix(s: string, t: string, c: char)
    requires |t| <= |s| && t == s[..|t|] && c in t
    ensures c in s && IndexOf(s, c) == IndexOf(t, c)
  {
    var i := IndexOf(t, c);
    assert s[i] == t[i];
    assert s[..i] == t[..i];
    IndexOfUnique(s, c, i);
  }

  /** Python's `sep.join(xs)`. */
  function Join(sep: string, xs: seq<string>): string {
    if |xs| == 0 then ""
    else if |xs| == 1 then xs[0]
    else xs[0] + sep + Join(sep, xs[1..])
  }

  /** Python's `s.split(c)` for a one-character separator: the pieces between
      separators, so joining them back with `c` gives `s`. */
  function Split(s: string, c: char): (r: seq<string>)
    ensures |r| >= 1
    ensures forall i :: 0 <= i < |r| ==> c !in r[i]
    ensures Join([c], r) == s
    decreases |s|
  {
    if c !in s then [s]
    else
      var i := IndexOf(s, c);
      var rest := Split(s[i + 1..], c);
      assert s == s[..i] + [c] + s[i + 1..];
      [s[..i]] + rest
  }

  /** Splitting a join on a separator no piece contains gives the pieces back. */
  lemma {:induction false} SplitJoin(xs: seq<string>, c: char)
    requires |xs| >= 1
    requires forall i :: 0 <= i < |xs| ==> c !in xs[i]
    ensures Split(Join([c], xs), c) == xs
    decreases |xs|
  {
    if |xs| > 1 {
      var rest := Join([c], xs[1..]);
      assert Join([c], xs) == xs[0] + [c] + rest;
      SplitCons(xs[0], c, rest);
      SplitJoin(xs[1..], c);
      assert xs == [xs[0]] + xs[1..];
    }
  }

  lemma SplitCons(a: string, c: char, rest: string)
    requires c !in a
    ensures Split(a + [c] + rest, c) == [a] + Split(rest, c)
  {
    var s := a + [c] + rest;
    assert s[|a|] == c && s[..|a|] == a;
    IndexOfUnique(s, c, |a|);
    assert s[|a| + 1..] == rest;
  }

  /** Python's `s.split(c, 1)`: the text before the first `c` and, when `c` occurs,
      the text after it. */
  function SplitOnce(s: string, c: char): (r: (string, Option<string>))
    ensures c !in s ==> r == (s, None)
    ensures c in s ==> r.1.Some? && s == r.0 + [c] + r.1.value && c !in r.0
  {
    if c !in s then (s, None)
    else
      var i := IndexOf(s, c);
      assert s == s[..i] + [c] + s[i + 1..];
      (s[..i], Some(s[i + 1..]))
  }

  function DigitChar(d: nat): (c: char)
    requires d < 10
    ensures IsDigit(c) && c as int - '0' as int == d
  {
    ('0' as int + d) as char
  }

  /** Python's `str(n)` for a natural number. */
  function NatToString(n: nat): (r: string)
    ensures |r| >= 1 && AllChars(r, IsDigit)
    ensures |r| > 1 ==> r[0] != '0'
  {
    if n < 10 then [DigitChar(n)] else NatToString(n / 10) + [DigitChar(n % 10)]
  }

  /** Python's `str(i)` for an integer. */
  function IntToString(i: int): string {
    if i < 0 then "-" + NatToString(-i) else NatToString(i)
  }

  /** The value of a string of ASCII digits. */
  function DigitsValue(s: string): nat
    requires AllChars(s, IsDigit)
  {
    if |s| == 0 then 0
    else DigitsValue(s[..|s| - 1]) * 10 + (s[|s| - 1] as int - '0' as int)
  }

  lemma {:induction false} NatToStringValue(n: nat)
    ensures DigitsValue(NatToString(n)) == n
  {
    if n >= 10 {
      var s := NatToString(n);
      assert s[..|s| - 1] == NatToString(n / 10);
      NatToStringValue(n / 10);
    }
  }

  /** The digit string of Python's `int()` grammar: ASCII digits where a single `_`
      may separate two digits. */
  predicate UnderscoredDigits(s: string) {
    && |s| > 0
    && (forall i :: 0 <= i < |s| ==> IsDigit(s[i]) || s[i] == '_')
    && (forall i :: 0 <= i < |s| && s[i] == '_' ==> 0 < i < |s| - 1 && IsDigit(s[i - 1]) && IsDigit(s[i + 1]))
  }

  /** The string with every `_` removed. */
  function DropUnderscores(s: string): (r: string)
    ensures (forall i :: 0 <= i < |s| ==> IsDigit(s[i]) || s[i] == '_') ==> AllChars(r, IsDigit)
    ensures '_' !in s ==> r == s
  {
    if |s| == 0 then ""
    else (if s[0] == '_' then "" else [s[0]]) + DropUnderscores(s[1..])
  }

  /** The ASCII information separators U+001C..U+001F: `str.isspace()` holds for them,
      but `int()` skips only the C locale's whitespace among ASCII characters, so they
      are not allowed around a number. */
  predicate IsInfoSeparator(c: char) { '\U{1c}' <= c <= '\U{1f}' }

  /** Python's `int(s)` on a string: surrounding whitespace, an optional sign, then
      digits; `None` where Python raises `ValueError`. An information separator is
      neither whitespace nor part of a number there, so one anywhere is an error. */
  function ParseInt(s: string): (r: Option<int>)
    ensures r.Some? ==> Strip(s) != ""
    ensures (exists i :: 0 <= i < |s| && IsInfoSeparator(s[i])) ==> r.None?
  {
    if exists i :: 0 <= i < |s| && IsInfoSeparator(s[i]) then None
    else ParseSigned(Strip(s))
  }

  lemma ParseSignedFive()
    ensures ParseSigned("5") == Some(5)
  {
    assert UnderscoredDigits("5");
    assert DropUnderscores("5") == "5";
    assert DigitsValue("5") == DigitsValue("") * 10 + 5;
  }

  /** `int()` skips ASCII blanks around the digits. */
  lemma ParseIntSkipsAsciiSpace()
    ensures ParseInt(" \t5\n") == Some(5)
  {
    var s := " \t5\n";
    assert forall i :: 0 <= i < |s| ==> !IsInfoSeparator(s[i]);
    assert Strip(s) == "5" by {
      assert LeadingSpaces(s[2..]) == 0;
      assert LeadingSpaces(s[1..]) == 1;
      assert LeadingSpaces(s) == 2;
      assert s[2..] == "5\n";
      assert "5\n"[..1] == "5";
      assert TrailingSpaces("5") == 0;
      assert TrailingSpaces("5\n") == 1;
    }
    ParseSignedFive();
  }

  /** Beyond ASCII, `int()` skips what `str.isspace()` calls whitespace. */
  lemma ParseIntSkipsUnicodeSpace()
    ensures ParseInt("\U{a0}5") == Some(5)
  {
    var t := "\U{a0}5";
    assert forall i :: 0 <= i < |t| ==> !IsInfoSeparator(t[i]);
    assert Strip(t) == "5" by {
      assert LeadingSpaces(t[1..]) == 0;
      assert LeadingSpaces(t) == 1;
      assert t[1..] == "5";
      assert TrailingSpaces("5") == 0;
    }
    ParseSignedFive();
  }

  /** An information separator before the digits makes `int()` fail. */
  lemma ParseIntRejectsSeparator()
    ensures ParseInt("\U{1c}5") == None
  {
    assert IsInfoSeparator("\U{1c}5"[0]);
  }

  /** An optional sign followed by underscored digits. */
  function ParseSigned(t: string): (r: Option<int>)
    ensures r.Some? ==> t != ""
  {
    if |t| == 0 then None
    else
      var neg := t[0] == '-';
      var body := if t[0] == '-' || t[0] == '+' then t[1..] else t;
      if !UnderscoredDigits(body) then None
      else
        var v: int := DigitsValue(DropUnderscores(body));
        Some(if neg then -v else v)
  }

  /** `int(str(i)) == i`: rendering an integer and parsing it back is the identity. */
  lemma IntToStringRoundTrip(i: int)
    ensures ParseInt(IntToString(i)) == Some(i)
  {
    var m: nat := if i < 0 then -i else i;
    var d := NatToString(m);
    NatToStringValue(m);
    var sign := if i < 0 then "-" else "";
    ParseSignedDigits(sign, d);
    assert IntToString(i) == sign + d;
  }

  lemma ParseSignedDigits(sign: string, digits: string)
    requires sign == "" || sign == "-"
    requires |digits| > 0 && AllChars(digits, IsDigit)
    ensures ParseInt(sign + digits)
            == Some(if sign == "-" then -(DigitsValue(digits) as int) else DigitsValue(digits))
  {
    var s := sign + digits;
    assert s[|s| - 1] == digits[|digits| - 1];
    assert !IsSpace(s[0]) by { if sign == "" { assert IsDigit(s[0]); } }
    StripNoEdgeSpace(s);
    SignedDigitsValue(sign, digits);
  }

  lemma SignedDigitsValue(sign: string, digits: string)
    requires sign == "" || sign == "-"
    requires |digits| > 0 && AllChars(digits, IsDigit)
    ensures ParseSigned(sign + digits)
            == Some(if sign == "-" then -(DigitsValue(digits) as int) else DigitsValue(digits))
  {
    if sign == "-" {
      NegativeDigitsValue(digits);
    } else {
      assert sign + digits == digits;
      PositiveDigitsValue(digits);
    }
  }

  lemma PositiveDigitsValue(digits: string)
    requires |digits| > 0 && AllChars(digits, IsDigit)
    ensures ParseSigned(digits) == Some(DigitsValue(digits))
  {
    DigitsAreUnderscored(digits);
    assert IsDigit(digits[0]);
  }

  lemma NegativeDigitsValue(digits: string)
    requires |digits| > 0 && AllChars(digits, IsDigit)
    ensures ParseSigned("-" + digits) == Some(-(DigitsValue(digits) as int))
  {
    DigitsAreUnderscored(digits);
    var t := "-" + digits;
    assert t[0] == '-';
    assert t[1..] == digits;
    var v: int := DigitsValue(DropUnderscores(digits));
    assert v == DigitsValue(digits);
    assert ParseSigned(t) == Some(-v);
  }

  lemma DigitsAreUnderscored(s: string)
    requires |s| > 0 && AllChars(s, IsDigit)
    ensures UnderscoredDigits(s) && DropUnderscores(s) == s
  {
    assert '_' !in s by {
      forall k | 0 <= k < |s| ensures s[k] != '_' { assert IsDigit(s[k]); }
    }
  }

  function Take<T>(s: seq<T>, n: nat): (r: seq<T>)
    ensures |r| == if |s| < n then |s| else n
    ensures r == s[..|r|]
  {
    if |s| <= n then s else s[..n]
  }

  /** Length of the run of ASCII digits at the start of `s`. */
  function DigitRun(s: string): (k: nat)
    ensures k <= |s| && AllChars(s[..k], IsDigit)
    ensures k < |s| ==> !IsDigit(s[k])
  {
    if |s| == 0 || !IsDigit(s[0]) then 0
    else
      var k := 1 + DigitRun(s[1..]);
      assert s[..k] == [s[0]] + s[1..][..k - 1];
      k
  }

  /** `DigitRun` is determined by a digit prefix followed by a non-digit or the end. */
  lemma {:induction false} DigitRunAt(s: string, n: nat)
    requires n <= |s| && AllChars(s[..n], IsDigit)
    requires n < |s| ==> !IsDigit(s[n])
    ensures DigitRun(s) == n
  {
    if n > 0 {
      assert s[0] == s[..n][0];
      assert s[1..][..n - 1] == s[..n][1..];
      DigitRunAt(s[1..], n - 1);
    }
  }
}
