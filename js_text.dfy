/**
 * The few JavaScript string primitives the extension relies on, stated over
 * `string` (a sequence of Unicode scalar values): `trim`, the regular-expression
 * class `\s`, the class `\d`, `join`, `split`, decimal rendering of numbers and
 * case-insensitive character comparison.
 */
module JsText {
  import opened Wrappers

  /** The characters that `String.prototype.trim` removes and that the regular
      expression class `\s` matches: ECMAScript's WhiteSpace and LineTerminator. */
  predicate IsSpace(c: char) {
    || c == '\t' || c == '\n' || c == '\U{B}' || c == '\U{C}' || c == '\r' || c == ' '
    || c == '\U{A0}' || c == '\U{1680}' || ('\U{2000}' <= c <= '\U{200A}')
    || c == '\U{2028}' || c == '\U{2029}' || c == '\U{202F}' || c == '\U{205F}'
    || c == '\U{3000}' || c == '\U{FEFF}'
  }

  predicate IsBlank(s: string) {
    forall k :: 0 <= k < |s| ==> IsSpace(s[k])
  }

  /** Neither starts nor ends with white space: what `trim` returns. */
  predicate Trimmed(s: string) {
    s == [] || (!IsSpace(s[0]) && !IsSpace(s[|s| - 1]))
  }

  /** Drops the leading white space. */
  function TrimStart(s: string): (r: string)
    ensures |r| <= |s| && r == s[|s| - |r|..]
    ensures r != [] ==> !IsSpace(r[0])
  {
    if s != [] && IsSpace(s[0]) then TrimStart(s[1..]) else s
  }

  /** Everything `TrimStart` drops is white space. */
  lemma {:induction false} TrimStartDropsSpace(s: string)
    ensures forall k :: 0 <= k < |s| - |TrimStart(s)| ==> IsSpace(s[k])
  {
    if s != [] && IsSpace(s[0]) {
      TrimStartDropsSpace(s[1..]);
    }
  }

  /** Drops the trailing white space. */
  function TrimEnd(s: string): (r: string)
    ensures |r| <= |s| && r == s[..|r|]
    ensures r != [] ==> !IsSpace(r[|r| - 1])
  {
    if s != [] && IsSpace(s[|s| - 1]) then TrimEnd(s[..|s| - 1]) else s
  }

  /** Everything `TrimEnd` drops is white space. */
  lemma {:induction false} TrimEndDropsSpace(s: string)
    ensures forall k :: |TrimEnd(s)| <= k < |s| ==> IsSpace(s[k])
  {
    if s != [] && IsSpace(s[|s| - 1]) {
      TrimEndDropsSpace(s[..|s| - 1]);
    }
  }

  /** `String.prototype.trim`: the longest infix of `s` that neither starts nor
      ends with white space, everything around it being white space. The
      leading white space goes one character at a time, then the trailing. */
  function Trim(s: string): (r: string)
    ensures |r| <= |s|
    ensures Trimmed(r)
    ensures r == [] <==> IsBlank(s)
  {
    if s != [] && IsSpace(s[0]) then
      assert IsBlank(s) <==> IsBlank(s[1..]) by {
        if IsBlank(s[1..]) {
          assert forall k :: 1 <= k < |s| ==> s[k] == s[1..][k - 1];
        }
      }
      Trim(s[1..])
    else
      TrimEndDropsSpace(s);
      TrimEnd(s)
  }

  /** `trim` drops the leading, then the trailing white space. */
  lemma {:induction false} TrimDef(s: string)
    ensures Trim(s) == TrimEnd(TrimStart(s))
  {
    if s != [] && IsSpace(s[0]) {
      TrimDef(s[1..]);
    }
  }

  /** Trimming keeps only characters of the original text. */
  lemma TrimKeepsChars(s: string)
    ensures forall c :: c in Trim(s) ==> c in s
  {
    TrimDef(s);
    var t := TrimStart(s);
    assert forall c :: c in TrimEnd(t) ==> c in t;
    assert forall c :: c in t ==> c in s;
  }

  /** Trimming a trimmed string changes nothing. */
  lemma TrimIdempotent(s: string)
    ensures Trim(Trim(s)) == Trim(s)
  {
    TrimNoop(Trim(s));
  }

  /** A string without white space at either end is its own trim. */
  lemma TrimNoop(s: string)
    requires Trimmed(s)
    ensures Trim(s) == s
  {
    assert TrimEnd(s) == s;
  }

  /** Trimming drops exactly the white space put around a trimmed text. */
  lemma {:induction false} TrimPadded(left: string, v: string, right: string)
    requires IsBlank(left) && IsBlank(right)
    requires v != [] && !IsSpace(v[0]) && !IsSpace(v[|v| - 1])
    ensures Trim(left + v + right) == v
    decreases |left|
  {
    if left != [] {
      assert (left + v + right)[1..] == left[1..] + v + right;
      assert IsBlank(left[1..]) by {
        assert forall k :: 0 <= k < |left| - 1 ==> left[1..][k] == left[k + 1];
      }
      TrimPadded(left[1..], v, right);
    } else {
      assert left + v + right == v + right;
      TrimEndBlankSuffix(v, right);
    }
  }

  lemma {:induction false} TrimEndBlankSuffix(t: string, right: string)
    requires IsBlank(right) && (t == [] || !IsSpace(t[|t| - 1]))
    ensures TrimEnd(t + right) == t
    decreases |right|
  {
    if right != [] {
      assert (t + right)[..|t + right| - 1] == t + right[..|right| - 1];
      TrimEndBlankSuffix(t, right[..|right| - 1]);
    } else {
      assert t + right == t;
    }
  }

  // ---------------------------------------------------------------- digits

  /** The regular-expression class `\d` (ASCII digits only, no `u` flag). */
  predicate IsDigit(c: char) {
    '0' <= c <= '9'
  }

  lemma DigitNotSpace(c: char)
    requires IsDigit(c)
    ensures !IsSpace(c)
  {
  }

  predicate AllDigits(s: string) {
    forall k :: 0 <= k < |s| ==> IsDigit(s[k])
  }

  /** The longest prefix of `s` made of digits: what a greedy `\d+` or `\d*` takes. */
  function DigitRun(s: string): (r: string)
    ensures |r| <= |s| && r == s[..|r|]
    ensures AllDigits(r)
    ensures |r| == |s| || !IsDigit(s[|r|])
  {
    if s != [] && IsDigit(s[0]) then [s[0]] + DigitRun(s[1..]) else []
  }

  /** The first maximal run of digits in `s` (`s.match(/\d+/)?.[0]`), or "" when
      `s` holds no digit. */
  function FirstDigitRun(s: string): (r: string)
    ensures AllDigits(r)
    ensures r == [] <==> forall k :: 0 <= k < |s| ==> !IsDigit(s[k])
    decreases |s|
  {
    if s == [] then []
    else if IsDigit(s[0]) then DigitRun(s)
    else FirstDigitRun(s[1..])
  }

  /** Appending a non-digit after a run of digits does not lengthen the run. */
  lemma {:induction false} DigitRunOf(d: string, t: string)
    requires AllDigits(d)
    requires t == [] || !IsDigit(t[0])
    ensures DigitRun(d + t) == d
  {
    if d != [] {
      assert (d + t)[1..] == d[1..] + t;
      DigitRunOf(d[1..], t);
    } else {
      assert d + t == t;
    }
  }

  /** A match of `<lead>(\d+)(?:[stops]|$)` at the start of `s`: the digits it
      captures. The greedy `\d+` cannot give back digits to succeed, since the
      character after a shorter run would be a digit. */
  function DelimitedDigitsAt(s: string, lead: char, stops: set<char>): (r: Option<string>)
    ensures r.Some? ==> r.value != [] && AllDigits(r.value)
  {
    if s != [] && s[0] == lead then
      var d := DigitRun(s[1..]);
      if d != [] && (1 + |d| == |s| || s[1 + |d|] in stops) then Some(d) else None
    else
      None
  }

  /** The leftmost match of `<lead>(\d+)(?:[stops]|$)` in `s` (what `s.match`
      returns first): its captured digits. */
  function FirstDelimitedDigits(s: string, lead: char, stops: set<char>): (r: Option<string>)
    ensures r.Some? ==> r.value != [] && AllDigits(r.value)
    decreases |s|
  {
    if s == [] then None
    else if DelimitedDigitsAt(s, lead, stops).Some? then DelimitedDigitsAt(s, lead, stops)
    else FirstDelimitedDigits(s[1..], lead, stops)
  }

  /** The search finds a match exactly when one exists, and what it returns is
      the capture of a match at some position. */
  lemma {:induction false} FirstDelimitedDigitsSpec(s: string, lead: char, stops: set<char>)
    ensures FirstDelimitedDigits(s, lead, stops).Some? <==>
      exists i :: 0 <= i < |s| && DelimitedDigitsAt(s[i..], lead, stops).Some?
    ensures FirstDelimitedDigits(s, lead, stops).Some? ==>
      exists i :: 0 <= i < |s| && DelimitedDigitsAt(s[i..], lead, stops) == FirstDelimitedDigits(s, lead, stops)
    decreases |s|
  {
    if s != [] {
      assert s[0..] == s;
      if DelimitedDigitsAt(s, lead, stops).None? {
        FirstDelimitedDigitsSpec(s[1..], lead, stops);
        forall i | 1 <= i < |s|
          ensures s[i..] == s[1..][i - 1..]
        {
        }
        if exists i :: 0 <= i < |s| && DelimitedDigitsAt(s[i..], lead, stops).Some? {
          var i :| 0 <= i < |s| && DelimitedDigitsAt(s[i..], lead, stops).Some?;
          assert i > 0;
          assert DelimitedDigitsAt(s[1..][i - 1..], lead, stops).Some?;
        }
        if FirstDelimitedDigits(s, lead, stops).Some? {
          var j :| 0 <= j < |s| - 1 && DelimitedDigitsAt(s[1..][j..], lead, stops) == FirstDelimitedDigits(s, lead, stops);
          assert s[j + 1..] == s[1..][j..];
        }
      }
    }
  }

  function DigitValue(c: char): (d: nat)
    requires IsDigit(c)
    ensures d < 10
  {
    (c as int - '0' as int) as nat
  }

  function DigitChar(d: nat): (c: char)
    requires d < 10
    ensures IsDigit(c) && DigitValue(c) == d
  {
    (d + '0' as int) as char
  }

  /** The number a string of decimal digits denotes (`Number("0042") == 42`). */
  function DigitsValue(s: string): nat
    requires AllDigits(s)
  {
    if s == [] then 0 else DigitsValue(s[..|s| - 1]) * 10 + DigitValue(s[|s| - 1])
  }

  /** The decimal rendering of a natural number, as a template literal shows it. */
  function NatToString(n: nat): (r: string)
    ensures r != [] && AllDigits(r)
  {
    if n < 10 then [DigitChar(n)] else NatToString(n / 10) + [DigitChar(n % 10)]
  }

  /** Rendering a number and reading it back gives the number. */
  lemma {:induction false} NatToStringRoundTrip(n: nat)
    ensures DigitsValue(NatToString(n)) == n
  {
    var r := NatToString(n);
    if n >= 10 {
      NatToStringRoundTrip(n / 10);
      assert r[..|r| - 1] == NatToString(n / 10);
    } else {
      assert r[..|r| - 1] == [];
    }
  }

  /** The rendering of an integer (`${n}`), with a leading '-' when negative. */
  function IntToString(n: int): (r: string)
    ensures r != []
  {
    if n < 0 then "-" + NatToString(-n) else NatToString(n)
  }

  // ---------------------------------------------------------------- falsy strings

  /** JavaScript's `a || b` on strings: the empty string is the only falsy one. */
  function Or(a: string, b: string): (r: string)
    ensures r == "" <==> a == "" && b == ""
  {
    if a != "" then a else b
  }

  // ---------------------------------------------------------------- sequences of strings

  predicate StartsWith(s: string, prefix: string) {
    |prefix| <= |s| && s[..|prefix|] == prefix
  }

  predicate EndsWith(s: string, suffix: string) {
    |suffix| <= |s| && s[|s| - |suffix|..] == suffix
  }

  /** `xs.filter(Boolean)` on strings: the non-empty ones, in order. */
  function Truthy(xs: seq<string>): (r: seq<string>)
    ensures |r| <= |xs|
    ensures forall x :: x in r <==> x in xs && x != ""
  {
    if xs == [] then []
    else (if xs[0] != "" then [xs[0]] else []) + Truthy(xs[1..])
  }

  /** Joining the truthy strings gives "" exactly when all of them are "". */
  lemma JoinTruthyEmpty(xs: seq<string>, sep: string)
    ensures Join(Truthy(xs), sep) == "" <==> forall i :: 0 <= i < |xs| ==> xs[i] == ""
  {
    var r := Truthy(xs);
    if r != [] {
      assert r[0] in r;
      if |r| > 1 {
        assert Join(r, sep) == r[0] + sep + Join(r[1..], sep);
      }
      assert |Join(r, sep)| >= |r[0]| > 0;
    } else {
      forall i | 0 <= i < |xs|
        ensures xs[i] == ""
      {
        assert xs[i] in xs;
      }
    }
  }

  /** `parts.join(sep)`. */
  function Join(parts: seq<string>, sep: string): string
  {
    if parts == [] then ""
    else if |parts| == 1 then parts[0]
    else parts[0] + sep + Join(parts[1..], sep)
  }

  /** A join starts with its first part. */
  lemma JoinStartsWith(parts: seq<string>, sep: string)
    ensures parts != [] ==> StartsWith(Join(parts, sep), parts[0])
  {
    if |parts| > 1 {
      assert Join(parts, sep) == parts[0] + (sep + Join(parts[1..], sep));
    }
  }

  /** Joining one more part appends the separator and that part. */
  lemma {:induction false} JoinAppend(parts: seq<string>, x: string, sep: string)
    requires parts != []
    ensures Join(parts + [x], sep) == Join(parts, sep) + sep + x
    decreases |parts|
  {
    if |parts| > 1 {
      assert (parts + [x])[1..] == parts[1..] + [x];
      JoinAppend(parts[1..], x, sep);
    }
  }

  /** `s.split(c)` for a one-character separator: the pieces between the
      occurrences of `c`, always at least one. */
  function Split(s: string, c: char): (r: seq<string>)
    ensures r != []
    ensures forall i :: 0 <= i < |r| ==> c !in r[i]
    decreases |s|
  {
    if c in s then
      var i := IndexOf(s, c);
      [s[..i]] + Split(s[i + 1..], c)
    else
      [s]
  }

  /** The first piece of a split runs up to the first separator. */
  lemma SplitAfter(a: string, c: char, rest: string)
    requires c !in a
    ensures Split(a + [c] + rest, c) == [a] + Split(rest, c)
  {
    var s := a + [c] + rest;
    assert s[|a|] == c;
    var i := IndexOf(s, c);
    assert s[..i] == a;
    assert s[i + 1..] == rest;
  }

  /** The position of the first `c` in `s`. */
  function IndexOf(s: string, c: char): (i: nat)
    requires c in s
    ensures i < |s| && s[i] == c && c !in s[..i]
  {
    if s[0] == c then 0 else 1 + IndexOf(s[1..], c)
  }

  /** Splitting on `c` and joining the pieces with `c` gives back the string. */
  lemma {:induction false} SplitJoin(s: string, c: char)
    ensures Join(Split(s, c), [c]) == s
    decreases |s|
  {
    if c in s {
      var i := IndexOf(s, c);
      var rest := s[i + 1..];
      SplitJoin(rest, c);
      var tail := Split(rest, c);
      assert Split(s, c) == [s[..i]] + tail;
      assert Join(Split(s, c), [c]) == s[..i] + [c] + Join(tail, [c]);
      assert s == s[..i] + [c] + rest;
    }
  }

  /** A joined string holds no character that neither the pieces nor the separator hold. */
  lemma {:induction false} JoinChars(parts: seq<string>, sep: string, c: char)
    requires c !in sep
    requires forall i :: 0 <= i < |parts| ==> c !in parts[i]
    ensures c !in Join(parts, sep)
  {
    if |parts| > 1 {
      JoinChars(parts[1..], sep, c);
    }
  }

  /** `s.slice(0, n)`: at most the first `n` characters. */
  function Take(s: string, n: nat): (r: string)
    ensures |r| <= n && |r| <= |s| && r == s[..|r|]
    ensures |s| <= n ==> r == s
  {
    if |s| <= n then s else s[..n]
  }

  // ---------------------------------------------------------------- letter case

  /** The case-folding a regular expression with the `i` flag (and no `u` flag)
      applies to a character: its upper-case form, except that a non-ASCII
      character whose upper case is ASCII ('ı', 'ſ') stays as it is. Stated for
      ASCII and Latin-1 letters and for 'ğ'; every other character folds to
      itself, which is exact for the patterns matched here (no other character
      upper-cases to one of their letters). */
  function RegexFold(c: char): char {
    if 'a' <= c <= 'z' then (c as int - 32) as char
    else if '\U{E0}' <= c <= '\U{FE}' && c != '\U{F7}' then (c as int - 32) as char
    else if c == 'ğ' then 'Ğ'
    else c
  }

  /** `toUpperCase` on one character, for the characters whose upper case is ASCII:
      ASCII lower case, 'ı' and 'ſ'; Latin-1 lower case too. */
  function UpperChar(c: char): char {
    if 'a' <= c <= 'z' then (c as int - 32) as char
    else if c == 'ı' then 'I'
    else if c == 'ſ' then 'S'
    else if '\U{E0}' <= c <= '\U{FE}' && c != '\U{F7}' then (c as int - 32) as char
    else c
  }

  function ToUpper(s: string): (r: string)
    ensures |r| == |s|
    ensures forall k :: 0 <= k < |s| ==> r[k] == UpperChar(s[k])
  {
    if s == [] then [] else [UpperChar(s[0])] + ToUpper(s[1..])
  }

  /** `s.toUpperCase() === t`, character by character. */
  predicate UpperIs(s: string, t: string) {
    |s| == |t| && forall k :: 0 <= k < |s| ==> UpperChar(s[k]) == t[k]
  }

  lemma UpperIsToUpper(s: string, t: string)
    ensures UpperIs(s, t) <==> ToUpper(s) == t
  {
    if UpperIs(s, t) {
      assert ToUpper(s) == t;
    }
  }

  /** `pattern` matches `s` at position `i` under the `i` flag. */
  predicate MatchesCiAt(s: string, i: nat, pattern: string) {
    i + |pattern| <= |s| && forall k :: 0 <= k < |pattern| ==> RegexFold(s[i + k]) == RegexFold(pattern[k])
  }

  /** `new RegExp(pattern, 'i').test(s)` for a pattern of literal characters. */
  predicate ContainsCi(s: string, pattern: string) {
    exists i :: 0 <= i <= |s| && MatchesCiAt(s, i, pattern)
  }

  /** Leading white space, as a greedy `\s*` takes it: its length. */
  function SpaceRun(s: string): (n: nat)
    ensures n <= |s|
    ensures forall k :: 0 <= k < n ==> IsSpace(s[k])
    ensures n == |s| || !IsSpace(s[n])
  {
    if s != [] && IsSpace(s[0]) then 1 + SpaceRun(s[1..]) else 0
  }
}
