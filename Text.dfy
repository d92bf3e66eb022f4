/** Character classes and string operations of Python's and JavaScript's
    string libraries, as far as the model needs them. Strings are `seq<char>`
    (UTF-16 code units on the JavaScript side, code points on the Python side;
    every character the model inspects is in the Basic Multilingual Plane). */
module Text {

  import opened Wrappers

  // ---------------------------------------------------------------------
  // Character classes

  predicate IsDigit(c: char) { '0' <= c <= '9' }

  /** Characters removed by JavaScript's `String.prototype.trim` and matched
      by the regular-expression class `\s` (WhiteSpace and LineTerminator of
      ECMA-262). */
  predicate IsJsSpace(c: char)
  {
    c == '\t' || c == '\n' || c == '\U{0B}' || c == '\U{0C}' || c == '\r' || c == ' '
    || c == '\U{A0}' || c == '\U{1680}' || ('\U{2000}' <= c <= '\U{200A}')
    || c == '\U{2028}' || c == '\U{2029}' || c == '\U{202F}' || c == '\U{205F}'
    || c == '\U{3000}' || c == '\U{FEFF}'
  }

  /** Characters the regular-expression `.` does not match (ECMA-262
      LineTerminator). */
  predicate IsJsLineTerminator(c: char)
  {
    c == '\n' || c == '\r' || c == '\U{2028}' || c == '\U{2029}'
  }

  /** Characters for which Python's `str.isspace` holds; `str.strip()` with no
      argument removes exactly these. */
  predicate IsPySpace(c: char)
  {
    ('\t' <= c <= '\r') || ('\U{1C}' <= c <= ' ') || c == '\U{85}' || c == '\U{A0}'
    || c == '\U{1680}' || ('\U{2000}' <= c <= '\U{200A}') || c == '\U{2028}'
    || c == '\U{2029}' || c == '\U{202F}' || c == '\U{205F}' || c == '\U{3000}'
  }

  /** Line boundaries of Python's `str.splitlines`. */
  predicate IsPyLineBreak(c: char)
  {
    c == '\n' || c == '\r' || c == '\U{0B}' || c == '\U{0C}' || c == '\U{1C}'
    || c == '\U{1D}' || c == '\U{1E}' || c == '\U{85}' || c == '\U{2028}' || c == '\U{2029}'
  }

  /** The class consisting of the one character `c`. */
  function CharIs(c: char): char -> bool
  {
    x => x == c
  }

  // ---------------------------------------------------------------------
  // Case

  function LowerChar(c: char): char
  {
    if 'A' <= c <= 'Z' then (c as int + 32) as char else c
  }

  /** Lower-casing restricted to ASCII letters. */
  function LowerAscii(s: string): (r: string)
    ensures |r| == |s|
    ensures forall i :: 0 <= i < |s| ==> r[i] == LowerChar(s[i])
  {
    if s == [] then [] else [LowerChar(s[0])] + LowerAscii(s[1..])
  }

  predicate IsLower(s: string)
  {
    forall i :: 0 <= i < |s| ==> !('A' <= s[i] <= 'Z')
  }

  lemma LowerAsciiIsLower(s: string)
    ensures IsLower(LowerAscii(s))
    ensures LowerAscii(LowerAscii(s)) == LowerAscii(s)
  {
  }

  lemma LowerAsciiOfLower(s: string)
    requires IsLower(s)
    ensures LowerAscii(s) == s
  {
  }

  /** JavaScript `toLowerCase` on the Basic Latin and Latin-1 letters: the
      capitals A-Z and U+00C0-U+00DE (but U+00D7, the multiplication sign)
      move up by 32; every other character is kept. */
  function LowerLatin1Char(c: char): char
  {
    if 'A' <= c <= 'Z' || ('\U{C0}' <= c <= '\U{DE}' && c != '\U{D7}') then (c as int + 32) as char else c
  }

  function LowerLatin1(s: string): (r: string)
    ensures |r| == |s|
    ensures forall i :: 0 <= i < |s| ==> r[i] == LowerLatin1Char(s[i])
  {
    if s == [] then [] else [LowerLatin1Char(s[0])] + LowerLatin1(s[1..])
  }

  /** Lower-casing changes no white space and nothing already lower case. */
  lemma LowerLatin1CharFacts(c: char)
    ensures IsJsSpace(LowerLatin1Char(c)) <==> IsJsSpace(c)
    ensures LowerLatin1Char(LowerLatin1Char(c)) == LowerLatin1Char(c)
  {
  }

  /** Lower-casing keeps white space where it is. */
  lemma LowerLatin1Spaces(s: string)
    ensures forall i :: 0 <= i < |s| ==> (IsJsSpace(LowerLatin1(s)[i]) <==> IsJsSpace(s[i]))
  {
    forall i | 0 <= i < |s|
      ensures IsJsSpace(LowerLatin1(s)[i]) <==> IsJsSpace(s[i])
    {
      LowerLatin1CharFacts(s[i]);
    }
  }

  // ---------------------------------------------------------------------
  // Prefixes and search

  predicate StartsWith(s: string, prefix: string)
  {
    |prefix| <= |s| && s[..|prefix|] == prefix
  }

  predicate Contains(s: string, c: char) { c in s }

  /** Index of the first `c` in `s`, if any (Python `str.find`, JavaScript
      `indexOf`). */
  function IndexOf(s: string, c: char): (r: Option<nat>)
    ensures r.None? <==> c !in s
    ensures r.Some? ==> r.value < |s| && s[r.value] == c && c !in s[..r.value]
  {
    if s == [] then None
    else if s[0] == c then Some(0)
    else match IndexOf(s[1..], c)
      case None => None
      case Some(i) => Some(i + 1)
  }

  // ---------------------------------------------------------------------
  // Stripping

  /** Drop the leading characters of class `p`. */
  function TrimStart(s: string, p: char -> bool): (r: string)
    ensures |r| <= |s| && r == s[|s| - |r|..]
    ensures forall k :: 0 <= k < |s| - |r| ==> p(s[k])
    ensures r != [] ==> !p(r[0])
  {
    if s != [] && p(s[0]) then TrimStart(s[1..], p) else s
  }

  /** Drop the trailing characters of class `p`. */
  function TrimEnd(s: string, p: char -> bool): (r: string)
    ensures |r| <= |s| && r == s[..|r|]
    ensures forall k :: |r| <= k < |s| ==> p(s[k])
    ensures r != [] ==> !p(r[|r| - 1])
  {
    if s != [] && p(s[|s| - 1]) then TrimEnd(s[..|s| - 1], p) else s
  }

  /** Drop leading and trailing characters of class `p`: Python's
      `str.strip(chars)` and JavaScript's `trim` for the right class. */
  function Strip(s: string, p: char -> bool): string
  {
    TrimEnd(TrimStart(s, p), p)
  }

  /** Stripping leaves no character of the class at either end. */
  lemma StripEnds(s: string, p: char -> bool)
    ensures var r := Strip(s, p); r != [] ==> !p(r[0]) && !p(r[|r| - 1])
  {
    var t := TrimStart(s, p);
    var r := TrimEnd(t, p);
    if r != [] {
      assert r[0] == t[0];
    }
  }

  /** A string with no class character at either end is its own strip. */
  lemma StripOfClean(s: string, p: char -> bool)
    requires s != [] ==> !p(s[0]) && !p(s[|s| - 1])
    ensures Strip(s, p) == s
  {
  }

  lemma StripIdempotent(s: string, p: char -> bool)
    ensures Strip(Strip(s, p), p) == Strip(s, p)
  {
    StripEnds(s, p);
    StripOfClean(Strip(s, p), p);
  }

  lemma {:induction false} TrimStartPrefix(l: string, rest: string, p: char -> bool)
    requires forall i :: 0 <= i < |l| ==> p(l[i])
    requires rest != [] ==> !p(rest[0])
    ensures TrimStart(l + rest, p) == rest
  {
    if l != [] {
      assert (l + rest)[1..] == l[1..] + rest;
      TrimStartPrefix(l[1..], rest, p);
    }
  }

  lemma {:induction false} TrimEndSuffix(rest: string, r: string, p: char -> bool)
    requires forall i :: 0 <= i < |r| ==> p(r[i])
    requires rest != [] ==> !p(rest[|rest| - 1])
    ensures TrimEnd(rest + r, p) == rest
  {
    if r != [] {
      assert (rest + r)[..|rest + r| - 1] == rest + r[..|r| - 1];
      TrimEndSuffix(rest, r[..|r| - 1], p);
    }
  }

  /** Stripping removes exactly a run of class characters on each side of
      a core that has none at its ends. */
  lemma StripWrapped(l: string, x: string, r: string, p: char -> bool)
    requires forall i :: 0 <= i < |l| ==> p(l[i])
    requires forall i :: 0 <= i < |r| ==> p(r[i])
    requires x != [] && !p(x[0]) && !p(x[|x| - 1])
    ensures Strip(l + x + r, p) == x
  {
    assert l + x + r == l + (x + r);
    assert (x + r)[0] == x[0];
    TrimStartPrefix(l, x + r, p);
    TrimEndSuffix(x, r, p);
  }

  /** JavaScript `s.trim()`. */
  function TrimJs(s: string): string { Strip(s, IsJsSpace) }

  /** Python `s.strip()`. */
  function StripPy(s: string): string { Strip(s, IsPySpace) }

  // ---------------------------------------------------------------------
  // Splitting and joining

  /** Split at every character of class `p` (JavaScript `split(c)` and Python
      `split(c)` for the class of one character `c`; Python `splitlines` for
      the line boundaries). Always at least one part. */
  function SplitWhere(s: string, p: char -> bool): (parts: seq<string>)
    ensures |parts| >= 1
    ensures forall i, k :: 0 <= i < |parts| && 0 <= k < |parts[i]| ==> !p(parts[i][k])
  {
    if s == [] then [""]
    else
      var rest := SplitWhere(s[1..], p);
      if p(s[0]) then [""] + rest else [[s[0]] + rest[0]] + rest[1..]
  }

  function Split(s: string, c: char): (parts: seq<string>)
    ensures |parts| >= 1
    ensures forall i :: 0 <= i < |parts| ==> c !in parts[i]
  {
    SplitWhere(s, CharIs(c))
  }

  /** The first part is the text up to the first class character. */
  lemma {:induction false} FirstPartOfSplitWhere(s: string, p: char -> bool)
    ensures var first := SplitWhere(s, p)[0];
      StartsWith(s, first) && (|first| < |s| ==> p(s[|first|]))
    decreases |s|
  {
    if s != [] && !p(s[0]) {
      FirstPartOfSplitWhere(s[1..], p);
      var rest := SplitWhere(s[1..], p);
      assert SplitWhere(s, p)[0] == [s[0]] + rest[0];
      assert s == [s[0]] + s[1..];
    }
  }

  /** The first part of a split is the text up to the first separator. */
  lemma FirstPartOfSplit(s: string, c: char)
    ensures StartsWith(s, Split(s, c)[0])
    ensures |Split(s, c)[0]| < |s| ==> s[|Split(s, c)[0]|] == c
  {
    FirstPartOfSplitWhere(s, CharIs(c));
  }

  /** Python `sep.join(parts)` and JavaScript `parts.join(sep)`. */
  function Join(parts: seq<string>, sep: string): string
  {
    if parts == [] then ""
    else if |parts| == 1 then parts[0]
    else parts[0] + sep + Join(parts[1..], sep)
  }

  lemma {:induction false} JoinCons(a: string, parts: seq<string>, sep: string)
    requires parts != []
    ensures Join([a] + parts, sep) == a + sep + Join(parts, sep)
  {
    assert ([a] + parts)[1..] == parts;
  }

  /** Putting a character in front of the first part puts it in front of
      the joined string. */
  lemma JoinPrepend(x: char, parts: seq<string>, sep: string)
    requires parts != []
    ensures Join([[x] + parts[0]] + parts[1..], sep) == [x] + Join(parts, sep)
  {
    if |parts| > 1 {
      JoinCons([x] + parts[0], parts[1..], sep);
      JoinCons(parts[0], parts[1..], sep);
      assert parts == [parts[0]] + parts[1..];
    }
  }

  /** Splitting at `c` and joining with `c` gives back the string. */
  lemma {:induction false} JoinSplit(s: string, c: char)
    ensures Join(Split(s, c), [c]) == s
  {
    JoinSplitWhere(s, c);
  }

  lemma {:induction false} JoinSplitWhere(s: string, c: char)
    ensures Join(SplitWhere(s, CharIs(c)), [c]) == s
    decreases |s|
  {
    if s != [] {
      var rest := SplitWhere(s[1..], CharIs(c));
      JoinSplitWhere(s[1..], c);
      if s[0] == c {
        JoinCons("", rest, [c]);
      } else {
        JoinPrepend(s[0], rest, [c]);
      }
      assert s == [s[0]] + s[1..];
    }
  }

  /** A string free of `c` is a single part. */
  lemma {:induction false} SplitNoSeparator(a: string, c: char)
    requires c !in a
    ensures SplitWhere(a, CharIs(c)) == [a]
    decreases |a|
  {
    if a != [] {
      SplitNoSeparator(a[1..], c);
      assert [a[0]] + a[1..] == a;
    }
  }

  /** The first separator ends the first part. */
  lemma {:induction false} SplitAtFirst(a: string, c: char, rest: string)
    requires c !in a
    ensures SplitWhere(a + [c] + rest, CharIs(c)) == [a] + SplitWhere(rest, CharIs(c))
    decreases |a|
  {
    if a == [] {
      assert a + [c] + rest == [c] + rest;
      assert ([c] + rest)[1..] == rest;
    } else {
      var s := a + [c] + rest;
      assert s[0] == a[0];
      assert s[1..] == a[1..] + [c] + rest;
      SplitAtFirst(a[1..], c, rest);
      assert [a[0]] + a[1..] == a;
    }
  }

  /** Joining parts free of `c` with `c` and splitting at `c` gives back the
      parts. */
  lemma {:induction false} SplitJoin(parts: seq<string>, c: char)
    requires parts != []
    requires forall i :: 0 <= i < |parts| ==> c !in parts[i]
    ensures Split(Join(parts, [c]), c) == parts
    decreases |parts|
  {
    if |parts| == 1 {
      SplitNoSeparator(parts[0], c);
    } else {
      SplitJoin(parts[1..], c);
      SplitAtFirst(parts[0], c, Join(parts[1..], [c]));
      assert parts == [parts[0]] + parts[1..];
    }
  }

  /** JavaScript `s.split(sep)` for a separator string of length >= 1: the
      occurrences are taken left to right and do not overlap. */
  function SplitOn(s: string, sep: string): (parts: seq<string>)
    requires |sep| > 0
    ensures |parts| >= 1
    decreases |s|
  {
    if |s| < |sep| then [s]
    else if s[..|sep|] == sep then [""] + SplitOn(s[|sep|..], sep)
    else
      var rest := SplitOn(s[1..], sep);
      [[s[0]] + rest[0]] + rest[1..]
  }

  lemma {:induction false} JoinSplitOn(s: string, sep: string)
    requires |sep| > 0
    ensures Join(SplitOn(s, sep), sep) == s
    decreases |s|
  {
    if |s| >= |sep| {
      if s[..|sep|] == sep {
        JoinSplitOn(s[|sep|..], sep);
        JoinSplitOnMatch(s, sep);
      } else {
        JoinSplitOn(s[1..], sep);
        JoinSplitOnSkip(s, sep);
      }
    }
  }

  lemma JoinSplitOnMatch(s: string, sep: string)
    requires |sep| > 0 && |s| >= |sep| && s[..|sep|] == sep
    requires Join(SplitOn(s[|sep|..], sep), sep) == s[|sep|..]
    ensures Join(SplitOn(s, sep), sep) == s
  {
    var t := s[|sep|..];
    var rest := SplitOn(t, sep);
    assert SplitOn(s, sep) == [""] + rest;
    JoinCons("", rest, sep);
    assert Join(rest, sep) == t;
    assert s == s[..|sep|] + t;
    assert "" + sep + t == s;
  }

  lemma JoinSplitOnSkip(s: string, sep: string)
    requires |sep| > 0 && |s| >= |sep| && s[..|sep|] != sep
    requires Join(SplitOn(s[1..], sep), sep) == s[1..]
    ensures Join(SplitOn(s, sep), sep) == s
  {
    var rest := SplitOn(s[1..], sep);
    assert SplitOn(s, sep) == [[s[0]] + rest[0]] + rest[1..];
    JoinPrepend(s[0], rest, sep);
    assert s == [s[0]] + s[1..];
  }

  /** `sep` occurs in `s` at position `i`. */
  predicate OccursAt(s: string, sep: string, i: nat)
  {
    i + |sep| <= |s| && s[i..i + |sep|] == sep
  }

  /** `sep` occurs somewhere in `s`. */
  predicate Occurs(s: string, sep: string)
  {
    exists i: nat :: i <= |s| && OccursAt(s, sep, i)
  }

  lemma {:induction false} SplitOnAbsent(s: string, sep: string)
    requires |sep| > 0 && !Occurs(s, sep)
    ensures SplitOn(s, sep) == [s]
    decreases |s|
  {
    if |s| >= |sep| {
      assert !OccursAt(s, sep, 0);
      assert s[0..0 + |sep|] == s[..|sep|];
      assert !Occurs(s[1..], sep) by {
        if Occurs(s[1..], sep) {
          var i: nat :| i <= |s[1..]| && OccursAt(s[1..], sep, i);
          assert s[1..][i..i + |sep|] == s[i + 1..i + 1 + |sep|];
          assert OccursAt(s, sep, i + 1);
        }
      }
      SplitOnAbsent(s[1..], sep);
      assert s == [s[0]] + s[1..];
    }
  }

  // ---------------------------------------------------------------------
  // Decimal numerals

  function DigitChar(d: nat): char
    requires d < 10
  {
    ('0' as int + d) as char
  }

  function DigitValue(c: char): nat
    requires IsDigit(c)
  {
    c as int - '0' as int
  }

  predicate AllDigits(s: string)
  {
    forall i :: 0 <= i < |s| ==> IsDigit(s[i])
  }

  /** Digits hold no character that is not a digit. */
  lemma DigitsLack(d: string, c: char)
    requires AllDigits(d) && !IsDigit(c)
    ensures c !in d
  {
  }

  /** Decimal numeral of a natural number, no leading zeros (Python `str(n)`,
      JavaScript `n.toString()`). */
  function NatToString(n: nat): (r: string)
    ensures |r| >= 1 && AllDigits(r)
    ensures r[0] == '0' ==> n == 0
  {
    if n < 10 then [DigitChar(n)] else NatToString(n / 10) + [DigitChar(n % 10)]
  }

  /** The longest prefix of decimal digits. */
  function LeadingDigits(s: string): (d: string)
    ensures AllDigits(d) && StartsWith(s, d)
    ensures |d| < |s| ==> !IsDigit(s[|d|])
  {
    if s != [] && IsDigit(s[0]) then [s[0]] + LeadingDigits(s[1..]) else []
  }

  /** Digits followed by a non-digit (or nothing) are the leading digits. */
  lemma {:induction false} LeadingDigitsOf(d: string, rest: string)
    requires AllDigits(d)
    requires rest != [] ==> !IsDigit(rest[0])
    ensures LeadingDigits(d + rest) == d
  {
    if d != [] {
      assert (d + rest)[1..] == d[1..] + rest;
      LeadingDigitsOf(d[1..], rest);
    } else {
      assert d + rest == rest;
    }
  }

  function IntToString(n: int): (r: string)
  {
    if n < 0 then "-" + NatToString(-n) else NatToString(n)
  }

  /** Value of a string of decimal digits. */
  function DigitsValue(s: string): nat
    requires AllDigits(s)
  {
    if s == [] then 0 else DigitsValue(s[..|s| - 1]) * 10 + DigitValue(s[|s| - 1])
  }

  lemma {:induction false} DigitsValueOfNatToString(n: nat)
    ensures DigitsValue(NatToString(n)) == n
  {
    if n >= 10 {
      DigitsValueOfNatToString(n / 10);
      var s := NatToString(n);
      assert s[..|s| - 1] == NatToString(n / 10);
    }
  }

  lemma {:induction false} NatToStringInjective(m: nat, n: nat)
    requires NatToString(m) == NatToString(n)
    ensures m == n
  {
    DigitsValueOfNatToString(m);
    DigitsValueOfNatToString(n);
  }
}
