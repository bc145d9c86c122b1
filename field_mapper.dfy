/**
 * The listing-to-DTO field mapper of the background worker
 * (chrome-extension/background.js, parsePriceToNumber .. mapToPropertyDto):
 * regular-expression and string functions that turn a loosely keyed scraped
 * record into the fixed-shape record sent to the Emlak API.
 */
module FieldMapper {
  import opened Wrappers
  import opened JsText

  // ================================================================ numbers

  /** A match of `-?\d+(?:\.\d+)?`: an optional sign, the whole digits and the
      (possibly empty) fraction digits. */
  datatype Lexeme = Lexeme(negative: bool, whole: string, fraction: string)

  predicate WellFormed(x: Lexeme) {
    x.whole != [] && AllDigits(x.whole) && AllDigits(x.fraction)
  }

  /** The characters of the match. */
  function LexemeText(x: Lexeme): string {
    (if x.negative then "-" else "") + x.whole + (if x.fraction == [] then "" else "." + x.fraction)
  }

  function FractionValue(f: string): real
    requires AllDigits(f)
  {
    if f == [] then 0.0 else (DigitValue(f[0]) as real + FractionValue(f[1..])) / 10.0
  }

  /** `Number(text)` / `parseFloat(text)` of the match, as an exact decimal. */
  function LexemeValue(x: Lexeme): real
    requires WellFormed(x)
  {
    var magnitude := DigitsValue(x.whole) as real + FractionValue(x.fraction);
    if x.negative then -magnitude else magnitude
  }

  /** Whether `-?\d+` can start at `s[0]`. */
  predicate StartsNumber(s: string) {
    (s != [] && IsDigit(s[0])) || (|s| > 1 && s[0] == '-' && IsDigit(s[1]))
  }

  /** The fraction digits `(?:\.\d+)?` directly after the whole digits. */
  function FractionAt(after: string): (f: string)
    ensures AllDigits(f)
    ensures f != [] ==> |after| > |f| && after[0] == '.' && after[1..1 + |f|] == f
  {
    if |after| >= 2 && after[0] == '.' && IsDigit(after[1]) then DigitRun(after[1..]) else []
  }

  /** The match of `-?\d+(?:\.\d+)?` that starts at `s[0]`, if any. Every
      quantifier is greedy and no backtracking can turn a failure into a
      success, so the first choice at each step is the match. */
  function NumberAt(s: string): (r: Option<Lexeme>)
    ensures r.Some? ==> WellFormed(r.value)
    ensures r.Some? <==> StartsNumber(s)
  {
    var negative := s != [] && s[0] == '-';
    var rest := if negative then s[1..] else s;
    var whole := DigitRun(rest);
    if whole == [] then None
    else Some(Lexeme(negative, whole, FractionAt(rest[|whole|..])))
  }

  /** The lexeme found is the text at the start of `s`. */
  lemma NumberAtText(s: string)
    requires NumberAt(s).Some?
    ensures StartsWith(s, LexemeText(NumberAt(s).value))
  {
    var x := NumberAt(s).value;
    var fractionText := if x.fraction == [] then "" else "." + x.fraction;
    var u := x.whole + fractionText;
    assert LexemeText(x) == (if x.negative then "-" else "") + u;
    if x.negative {
      UnsignedText(s[1..]);
      assert StartsWith(s[1..], u);
      StartsWithConcat(s, "-", u);
    } else {
      UnsignedText(s);
    }
  }

  /** The digits and fraction matched at the start of `rest` are its first
      characters. */
  lemma UnsignedText(rest: string)
    ensures var whole := DigitRun(rest);
      var f := FractionAt(rest[|whole|..]);
      StartsWith(rest, whole + (if f == [] then "" else "." + f))
  {
    var whole := DigitRun(rest);
    var after := rest[|whole|..];
    var f := FractionAt(after);
    var fractionText := if f == [] then "" else "." + f;
    if f != [] {
      assert after[..1 + |f|] == "." + f;
    }
    assert StartsWith(after, fractionText);
    StartsWithConcat(rest, whole, fractionText);
  }

  lemma StartsWithConcat(s: string, a: string, b: string)
    requires StartsWith(s, a) && StartsWith(s[|a|..], b)
    ensures StartsWith(s, a + b)
  {
    assert s[..|a + b|] == s[..|a|] + s[|a|..][..|b|];
  }

  /** The leftmost match of `-?\d+(?:\.\d+)?` in `s`. */
  function FirstNumber(s: string): (r: Option<Lexeme>)
    ensures r.Some? ==> WellFormed(r.value)
    decreases |s|
  {
    if s == [] then None
    else if NumberAt(s).Some? then NumberAt(s)
    else FirstNumber(s[1..])
  }

  predicate HasDigit(s: string) {
    exists k :: 0 <= k < |s| && IsDigit(s[k])
  }

  /** Some number is found exactly when the text holds a digit. */
  lemma {:induction false} FirstNumberIff(s: string)
    ensures FirstNumber(s).Some? <==> HasDigit(s)
    decreases |s|
  {
    if s != [] {
      FirstNumberIff(s[1..]);
      if HasDigit(s) && !IsDigit(s[0]) {
        var k :| 0 <= k < |s| && IsDigit(s[k]);
        assert IsDigit(s[1..][k - 1]);
      }
      if HasDigit(s[1..]) {
        var k :| 0 <= k < |s| - 1 && IsDigit(s[1..][k]);
        assert IsDigit(s[k + 1]);
      }
    }
  }

  /** A sign or a fraction in the match comes from a '-' or a '.' of the text. */
  lemma {:induction false} FirstNumberMarks(s: string)
    requires FirstNumber(s).Some?
    ensures FirstNumber(s).value.negative ==> '-' in s
    ensures FirstNumber(s).value.fraction != [] ==> '.' in s
    decreases |s|
  {
    if NumberAt(s).Some? {
      var x := NumberAt(s).value;
      if x.fraction != [] {
        var rest := if x.negative then s[1..] else s;
        var after := rest[|x.whole|..];
        assert after[0] == '.';
        assert '.' in rest;
      }
    } else {
      FirstNumberMarks(s[1..]);
      assert forall c :: c in s[1..] ==> c in s;
    }
  }

  // ================================================================ price

  predicate IsCurrencySymbol(c: char) {
    c == '₺' || c == '$' || c == ',' || c == '€' || c == '£'
  }

  /** `.replace(/[₺$,€£]/g, ' ')` */
  function BlankCurrency(s: string): (r: string)
    ensures |r| == |s|
  {
    seq(|s|, i requires 0 <= i < |s| => if IsCurrencySymbol(s[i]) then ' ' else s[i])
  }

  /** `.replace(/\./g, '')` */
  function DropDots(s: string): string {
    if s == [] then [] else (if s[0] == '.' then [] else [s[0]]) + DropDots(s[1..])
  }

  /** `.replace(/,/g, '.')` */
  function CommaToDot(s: string): (r: string)
    ensures |r| == |s|
  {
    seq(|s|, i requires 0 <= i < |s| => if s[i] == ',' then '.' else s[i])
  }

  /** `.replace(/[^0-9.\-]/g, ' ')` */
  function BlankNonNumeric(s: string): (r: string)
    ensures |r| == |s|
  {
    seq(|s|, i requires 0 <= i < |s| => if IsDigit(s[i]) || s[i] == '.' || s[i] == '-' then s[i] else ' ')
  }

  /** The cleaning chain of parsePriceToNumber, step by step, then `.trim()`. */
  function CleanPrice(s: string): string {
    Trim(BlankNonNumeric(CommaToDot(DropDots(BlankCurrency(s)))))
  }

  /** `parsePriceToNumber(priceText)`; absent text is the empty string. A
      price is found exactly when the text holds a digit. */
  function ParsePrice(text: string): (r: Option<real>)
    ensures r.None? <==> !HasDigit(text)
  {
    CleanPriceChars(text);
    FirstNumberIff(CleanPrice(text));
    HasDigitCarried(text, CleanPrice(text));
    if text == "" then None
    else
      match FirstNumber(CleanPrice(text))
      case None => None
      case Some(x) => Some(LexemeValue(x))
  }

  /** Every non-space character of `r` comes from `s`. */
  predicate FromText(r: string, s: string) {
    forall c :: c in r && c != ' ' ==> c in s
  }

  /** Every digit of `s` is kept in `r`. */
  predicate KeepsDigits(s: string, r: string) {
    forall c :: IsDigit(c) && c in s ==> c in r
  }

  lemma BlankCurrencyChars(s: string)
    ensures ',' !in BlankCurrency(s)
    ensures FromText(BlankCurrency(s), s) && KeepsDigits(s, BlankCurrency(s))
  {
    var r := BlankCurrency(s);
    forall c | c in r
      ensures c != ',' && (c != ' ' ==> c in s)
    {
      var k :| 0 <= k < |r| && r[k] == c;
    }
    forall c | IsDigit(c) && c in s
      ensures c in r
    {
      var k :| 0 <= k < |s| && s[k] == c;
      assert r[k] == c;
    }
  }

  lemma {:induction false} DropDotsChars(s: string)
    ensures '.' !in DropDots(s)
    ensures forall c :: c in DropDots(s) <==> c in s && c != '.'
  {
    if s != [] {
      DropDotsChars(s[1..]);
      assert s == [s[0]] + s[1..];
    }
  }

  lemma CommaToDotChars(s: string)
    requires ',' !in s && '.' !in s
    ensures CommaToDot(s) == s
  {
  }

  lemma BlankNonNumericChars(s: string)
    requires '.' !in s
    ensures '.' !in BlankNonNumeric(s)
    ensures FromText(BlankNonNumeric(s), s) && KeepsDigits(s, BlankNonNumeric(s))
  {
    var r := BlankNonNumeric(s);
    forall c | c in r
      ensures c != '.' && (c != ' ' ==> c in s)
    {
      var k :| 0 <= k < |r| && r[k] == c;
    }
    forall c | IsDigit(c) && c in s
      ensures c in r
    {
      var k :| 0 <= k < |s| && s[k] == c;
      assert r[k] == c;
    }
  }

  lemma TrimKeepsNonSpace(s: string, c: char)
    requires c in s && !IsSpace(c)
    ensures c in Trim(s)
  {
    var k :| 0 <= k < |s| && s[k] == c;
    TrimStartEndKeeps(s, k);
    TrimDef(s);
  }

  /** A character that is not white space survives `TrimStart` then `TrimEnd`. */
  lemma TrimStartEndKeeps(s: string, k: nat)
    requires k < |s| && !IsSpace(s[k])
    ensures s[k] in TrimEnd(TrimStart(s))
  {
    var t := TrimStart(s);
    TrimStartKeeps(s, k);
    var j := k - (|s| - |t|);
    TrimEndKeeps(t, j);
    assert TrimEnd(t)[j] == s[k];
  }

  /** A character that is not white space survives `TrimStart`, shifted left
      by the number of characters dropped. */
  lemma TrimStartKeeps(s: string, k: nat)
    requires k < |s| && !IsSpace(s[k])
    ensures |s| - |TrimStart(s)| <= k && TrimStart(s)[k - (|s| - |TrimStart(s)|)] == s[k]
  {
    TrimStartDropsSpace(s);
  }

  /** A character that is not white space survives `TrimEnd` in place. */
  lemma TrimEndKeeps(t: string, j: nat)
    requires j < |t| && !IsSpace(t[j])
    ensures j < |TrimEnd(t)| && TrimEnd(t)[j] == t[j]
  {
    TrimEndDropsSpace(t);
  }

  /** What the cleaning chain does to characters: digits survive, nothing but
      spaces is introduced, and no '.' survives — the decimal-comma step finds
      no comma left, because the currency class already blanked it. */
  lemma CleanPriceChars(s: string)
    ensures '.' !in CleanPrice(s)
    ensures FromText(CleanPrice(s), s) && KeepsDigits(s, CleanPrice(s))
  {
    var d := BlankNonNumeric(CommaToDot(DropDots(BlankCurrency(s))));
    CleanChainChars(s);
    var r := Trim(d);
    assert '.' !in r && FromText(r, s) by {
      TrimKeepsChars(d);
    }
    forall c | IsDigit(c) && c in s
      ensures c in r
    {
      DigitNotSpace(c);
      TrimKeepsNonSpace(d, c);
    }
  }

  /** The same, before the final trim. */
  lemma CleanChainChars(s: string)
    ensures var d := BlankNonNumeric(CommaToDot(DropDots(BlankCurrency(s))));
      '.' !in d && FromText(d, s) && KeepsDigits(s, d)
  {
    var a := BlankCurrency(s);
    BlankCurrencyChars(s);
    var b := DropDots(a);
    DropDotsChars(a);
    assert ',' !in b;
    CommaToDotChars(b);
    BlankNonNumericChars(b);
  }

  lemma HasDigitCarried(text: string, cleaned: string)
    requires FromText(cleaned, text) && KeepsDigits(text, cleaned)
    ensures HasDigit(cleaned) <==> HasDigit(text)
  {
    if HasDigit(text) {
      var k :| 0 <= k < |text| && IsDigit(text[k]);
      assert text[k] in cleaned;
      var j :| 0 <= j < |cleaned| && cleaned[j] == text[k];
    }
    if HasDigit(cleaned) {
      var j :| 0 <= j < |cleaned| && IsDigit(cleaned[j]);
      assert cleaned[j] in text;
      var k :| 0 <= k < |text| && text[k] == cleaned[j];
    }
  }

  /** The value of a lexeme without fraction digits is an integer with its sign. */
  lemma WholeLexemeValue(x: Lexeme)
    requires WellFormed(x) && x.fraction == []
    ensures LexemeValue(x) == (if x.negative then -(DigitsValue(x.whole) as int) else DigitsValue(x.whole) as int) as real
  {
  }

  /** Every parsed price is a whole number — the first `-?\d+` token, its sign
      included — and it is negative only when the text holds a '-'. */
  lemma ParsePriceIsWhole(text: string)
    requires ParsePrice(text).Some?
    ensures ParsePrice(text).value.Floor as real == ParsePrice(text).value
    ensures ParsePrice(text).value < 0.0 ==> '-' in text
  {
    var cleaned := CleanPrice(text);
    CleanPriceChars(text);
    FirstNumberMarks(cleaned);
    var x := FirstNumber(cleaned).value;
    WholeLexemeValue(x);
    var n := if x.negative then -(DigitsValue(x.whole) as int) else DigitsValue(x.whole) as int;
    assert ParsePrice(text).value == n as real;
    assert (n as real).Floor == n;
    if x.negative {
      assert '-' in cleaned;
    }
  }

  /** Only digits and spaces. */
  predicate DigitsAndSpaces(s: string) {
    forall k :: 0 <= k < |s| ==> IsDigit(s[k]) || s[k] == ' '
  }

  lemma {:induction false} DropDotsNone(s: string)
    requires '.' !in s
    ensures DropDots(s) == s
  {
    if s != [] {
      DropDotsNone(s[1..]);
      assert s == [s[0]] + s[1..];
    }
  }

  /** The character steps of the cleaning leave digits and spaces alone. */
  lemma CleaningKeepsDigitsAndSpaces(s: string)
    requires DigitsAndSpaces(s)
    ensures BlankCurrency(s) == s && DropDots(s) == s && CommaToDot(s) == s && BlankNonNumeric(s) == s
  {
    assert '.' !in s;
    DropDotsNone(s);
  }

  lemma DigitsAvoid(s: string, c: char)
    requires AllDigits(s) && !IsDigit(c)
    ensures c !in s
  {
    forall k | 0 <= k < |s|
      ensures s[k] != c
    {
    }
  }

  /** Dropping the dots of `a.rest` where `a` holds no dot. */
  lemma DropDotsAfter(a: string, rest: string)
    requires '.' !in a
    ensures DropDots(a + "." + rest) == a + DropDots(rest)
  {
    var dotted := "." + rest;
    assert a + "." + rest == a + dotted;
    assert DropDots(dotted) == DropDots(rest) by {
      assert dotted[0] == '.' && dotted[1..] == rest;
    }
    assert DropDots(a) == a by {
      DropDotsNone(a);
    }
    DropDotsAppend(a, dotted);
  }

  /** Thousands dots are dropped and the grouped digits read as one number:
      "3.450" is 3450. */
  lemma ParsePriceThousands(a: string, b: string)
    requires a != [] && b != [] && AllDigits(a) && AllDigits(b)
    ensures ParsePrice(a + "." + b) == Some(DigitsValue(a + b) as real)
  {
    CleanThousands(a, b);
    DigitsAppend(a, b);
    assert a + b + "" == a + b;
    ParsePriceOfCleaned(a + "." + b, a + b, "");
  }

  /** A text that cleans to digits, then nothing or a space, is worth those digits. */
  lemma ParsePriceOfCleaned(text: string, d: string, rest: string)
    requires text != "" && CleanPrice(text) == d + rest
    requires d != [] && AllDigits(d) && (rest == [] || rest[0] == ' ')
    ensures ParsePrice(text) == Some(DigitsValue(d) as real)
  {
    FirstNumberOfDigits(d, rest);
  }

  /** The cleaning of `a.b`: the dot goes. */
  lemma CleanThousands(a: string, b: string)
    requires a != [] && b != [] && AllDigits(a) && AllDigits(b)
    ensures CleanPrice(a + "." + b) == a + b
  {
    var s := a + "." + b;
    assert BlankCurrency(s) == s by {
      forall k | 0 <= k < |s|
        ensures !IsCurrencySymbol(s[k])
      {
        if k > |a| {
          assert s[k] == b[k - |a| - 1];
        }
      }
    }
    assert DropDots(s) == a + b by {
      DigitsAvoid(a, '.');
      DigitsAvoid(b, '.');
      DropDotsAfter(a, b);
      DropDotsNone(b);
    }
    var ab := a + b;
    assert AllDigits(ab) by {
      DigitsAppend(a, b);
    }
    assert BlankNonNumeric(CommaToDot(ab)) == ab by {
      assert DigitsAndSpaces(ab);
      CleaningKeepsDigitsAndSpaces(ab);
    }
    assert Trim(ab) == ab by {
      DigitNotSpace(ab[0]);
      DigitNotSpace(ab[|ab| - 1]);
      TrimNoop(ab);
    }
  }

  /** The cleaning of `a.b,c`: the comma becomes a space and the dot goes. */
  lemma CleanDecimalComma(a: string, b: string, c: string)
    requires a != [] && b != [] && c != [] && AllDigits(a) && AllDigits(b) && AllDigits(c)
    ensures CleanPrice(a + "." + b + "," + c) == a + b + " " + c
  {
    var s := a + "." + b + "," + c;
    var blanked := a + "." + (b + " " + c);
    assert BlankCurrency(s) == blanked;
    var t := a + b + " " + c;
    DropDotsDecimalComma(a, b, c);
    assert BlankNonNumeric(CommaToDot(t)) == t && Trim(t) == t by {
      DigitsSpaceDigitsKept(a + b, c);
    }
  }

  lemma DropDotsDecimalComma(a: string, b: string, c: string)
    requires AllDigits(a) && AllDigits(b) && AllDigits(c)
    ensures DropDots(a + "." + (b + " " + c)) == a + b + " " + c
  {
    DigitsAvoid(a, '.');
    DigitsAvoid(b, '.');
    DigitsAvoid(c, '.');
    DropDotsAfter(a, b + " " + c);
    DropDotsNone(b + " " + c);
  }

  /** Digits, a space and digits pass the rest of the chain untouched. */
  lemma DigitsSpaceDigitsKept(x: string, c: string)
    requires x != [] && c != [] && AllDigits(x) && AllDigits(c)
    ensures var t := x + " " + c; BlankNonNumeric(CommaToDot(t)) == t && Trim(t) == t
  {
    var t := x + " " + c;
    assert BlankNonNumeric(CommaToDot(t)) == t by {
      assert DigitsAndSpaces(t) by {
        forall k | 0 <= k < |t|
          ensures IsDigit(t[k]) || t[k] == ' '
        {
          if k < |x| {
            assert t[k] == x[k];
          } else if k > |x| {
            assert t[k] == c[k - |x| - 1];
          }
        }
      }
      CleaningKeepsDigitsAndSpaces(t);
    }
    assert Trim(t) == t by {
      assert Trimmed(t) by {
        assert t[0] == x[0] && t[|t| - 1] == c[|c| - 1];
        assert IsDigit(x[0]) && IsDigit(c[|c| - 1]);
      }
      TrimNoop(t);
    }
  }

  /** A decimal comma ends the number, because the currency class blanks it
      before the comma-to-dot step can see it: "1.250,50" is 1250, not 1250.5. */
  lemma ParsePriceDecimalComma(a: string, b: string, c: string)
    requires a != [] && b != [] && c != [] && AllDigits(a) && AllDigits(b) && AllDigits(c)
    ensures ParsePrice(a + "." + b + "," + c) == Some(DigitsValue(a + b) as real)
  {
    var text := a + "." + b + "," + c;
    assert CleanPrice(text) == a + b + (" " + c) by {
      CleanDecimalComma(a, b, c);
      assert a + b + " " + c == a + b + (" " + c);
    }
    assert AllDigits(a + b) by {
      DigitsAppend(a, b);
    }
    ParsePriceOfCleaned(text, a + b, " " + c);
  }

  /** Digits followed by nothing or a space are the first number. */
  lemma FirstNumberOfDigits(d: string, rest: string)
    requires d != [] && AllDigits(d) && (rest == [] || rest[0] == ' ')
    ensures FirstNumber(d + rest) == Some(Lexeme(false, d, ""))
    ensures LexemeValue(Lexeme(false, d, "")) == DigitsValue(d) as real
  {
    var x := Lexeme(false, d, "");
    assert LexemeText(x) == d;
    NumberAtOf(x, rest);
  }

  lemma DigitsAppend(a: string, b: string)
    requires AllDigits(a) && AllDigits(b)
    ensures AllDigits(a + b)
  {
    forall k | 0 <= k < |a + b|
      ensures IsDigit((a + b)[k])
    {
      if k >= |a| {
        assert (a + b)[k] == b[k - |a|];
      }
    }
  }

  lemma {:induction false} DropDotsAppend(s: string, t: string)
    ensures DropDots(s + t) == DropDots(s) + DropDots(t)
  {
    if s != [] {
      assert (s + t)[1..] == s[1..] + t;
      DropDotsAppend(s[1..], t);
    } else {
      assert s + t == t;
    }
  }

  // ================================================================ coordinates

  /** Latitude and longitude as `parseFloat` reads the captured texts; both
      absent when the map link holds no coordinates. */
  datatype Coords = Coords(latitude: Option<real>, longitude: Option<real>)

  const MapsQuery := "maps?q="

  /** Whether the number lexeme `x` cannot go on into `rest`: the greedy match
      of `x` followed by `rest` stops exactly at the end of `x`. */
  predicate Stops(x: Lexeme, rest: string) {
    rest == [] || (!IsDigit(rest[0]) && (x.fraction == [] ==> !(|rest| > 1 && rest[0] == '.' && IsDigit(rest[1]))))
  }

  /** The fraction part of a lexeme followed by a stopping character. */
  lemma FractionAtOf(x: Lexeme, rest: string)
    requires WellFormed(x) && Stops(x, rest)
    ensures FractionAt(if x.fraction == [] then rest else "." + x.fraction + rest) == x.fraction
  {
    if x.fraction != [] {
      var tail := "." + x.fraction + rest;
      assert tail[1..] == x.fraction + rest;
      DigitRunOf(x.fraction, rest);
    }
  }

  /** The number at the start of a lexeme's text followed by a stopping
      character is that lexeme. */
  lemma NumberAtOf(x: Lexeme, rest: string)
    requires WellFormed(x) && Stops(x, rest)
    ensures NumberAt(LexemeText(x) + rest) == Some(x)
  {
    var tail := if x.fraction == [] then rest else "." + x.fraction + rest;
    var unsigned := x.whole + tail;
    assert DigitRun(unsigned) == x.whole by {
      DigitRunOf(x.whole, tail);
    }
    assert FractionAt(unsigned[|x.whole|..]) == x.fraction by {
      assert unsigned[|x.whole|..] == tail;
      FractionAtOf(x, rest);
    }
    var s := LexemeText(x) + rest;
    assert s == (if x.negative then "-" else "") + unsigned by {
      LexemeTextSplit(x, rest);
    }
    assert unsigned[0] == x.whole[0];
    if x.negative {
      assert s[0] == '-' && s[1..] == unsigned;
    } else {
      assert s == unsigned;
    }
  }

  /** The text of a lexeme followed by `rest` is its sign, then its digits
      and fraction followed by `rest`. */
  lemma LexemeTextSplit(x: Lexeme, rest: string)
    ensures LexemeText(x) + rest
         == (if x.negative then "-" else "") + (x.whole + (if x.fraction == [] then rest else "." + x.fraction + rest))
  {
  }

  /** What follows `maps?q=` in a match of
      `maps\?q=(-?\d+(?:\.\d+)?),(-?\d+(?:\.\d+)?)`: the two captured numbers.
      The first capture must be followed by ',', which a shorter (backtracked)
      capture never is. */
  function CoordsAfterQuery(t: string): (r: Option<(Lexeme, Lexeme)>)
    ensures r.Some? ==> WellFormed(r.value.0) && WellFormed(r.value.1)
  {
    match NumberAt(t)
    case None => None
    case Some(x) =>
      var k := |LexemeText(x)|;
      if k < |t| && t[k] == ',' then
        match NumberAt(t[k + 1..])
        case None => None
        case Some(y) => Some((x, y))
      else None
  }

  /** A coordinate match at the start of `s`. */
  function CoordsAt(s: string): (r: Option<(Lexeme, Lexeme)>)
    ensures r.Some? ==> WellFormed(r.value.0) && WellFormed(r.value.1)
  {
    if StartsWith(s, MapsQuery) then CoordsAfterQuery(s[|MapsQuery|..]) else None
  }

  /** The leftmost coordinate match in `s`. */
  function FirstCoords(s: string): (r: Option<(Lexeme, Lexeme)>)
    ensures r.Some? ==> WellFormed(r.value.0) && WellFormed(r.value.1)
    decreases |s|
  {
    if s == [] then None
    else if CoordsAt(s).Some? then CoordsAt(s)
    else FirstCoords(s[1..])
  }

  /** `parseCoordsFromMapUrl(mapUrl)`; an absent link is the empty string. */
  function ParseCoords(mapUrl: string): (r: Coords)
    ensures r.latitude.Some? <==> r.longitude.Some?
  {
    if mapUrl == "" then Coords(None, None)
    else
      match FirstCoords(mapUrl)
      case None => Coords(None, None)
      case Some((x, y)) => Coords(Some(LexemeValue(x)), Some(LexemeValue(y)))
  }

  /** The search finds coordinates exactly when a match starts somewhere, and
      what it returns is the match at some position. */
  lemma {:induction false} FirstCoordsSpec(s: string)
    ensures FirstCoords(s).Some? <==> exists i :: 0 <= i < |s| && CoordsAt(s[i..]).Some?
    ensures FirstCoords(s).Some? ==> exists i :: 0 <= i < |s| && CoordsAt(s[i..]) == FirstCoords(s)
    decreases |s|
  {
    if s != [] {
      assert s[0..] == s;
      if CoordsAt(s).None? {
        FirstCoordsSpec(s[1..]);
        forall i | 1 <= i < |s|
          ensures s[i..] == s[1..][i - 1..]
        {
        }
        if exists i :: 0 <= i < |s| && CoordsAt(s[i..]).Some? {
          var i :| 0 <= i < |s| && CoordsAt(s[i..]).Some?;
          assert i > 0;
          assert CoordsAt(s[1..][i - 1..]).Some?;
        }
        if FirstCoords(s).Some? {
          var j :| 0 <= j < |s| - 1 && CoordsAt(s[1..][j..]) == FirstCoords(s[1..]);
          assert s[j + 1..] == s[1..][j..];
        }
      }
    }
  }

  /** Coordinates are found exactly when a coordinate match starts somewhere in
      the link, and they are the numbers of such a match. */
  lemma ParseCoordsSpec(mapUrl: string)
    ensures ParseCoords(mapUrl).latitude.Some? <==>
      exists i :: 0 <= i < |mapUrl| && CoordsAt(mapUrl[i..]).Some?
    ensures ParseCoords(mapUrl).latitude.Some? ==>
      exists i :: 0 <= i < |mapUrl| && CoordsAt(mapUrl[i..]) == FirstCoords(mapUrl)
  {
    FirstCoordsSpec(mapUrl);
  }

  /** The two numbers written after `maps?q=` form a coordinate match. */
  lemma CoordsAtOf(x: Lexeme, y: Lexeme, rest: string)
    requires WellFormed(x) && WellFormed(y) && Stops(y, rest)
    ensures CoordsAt(MapsQuery + LexemeText(x) + "," + LexemeText(y) + rest) == Some((x, y))
  {
    var after := LexemeText(y) + rest;
    var t := LexemeText(x) + ("," + after);
    var s := MapsQuery + t;
    assert s == MapsQuery + LexemeText(x) + "," + LexemeText(y) + rest;
    assert s[..|MapsQuery|] == MapsQuery && s[|MapsQuery|..] == t;
    CoordsAfterQueryOf(x, y, rest);
  }

  lemma CoordsAfterQueryOf(x: Lexeme, y: Lexeme, rest: string)
    requires WellFormed(x) && WellFormed(y) && Stops(y, rest)
    ensures CoordsAfterQuery(LexemeText(x) + ("," + (LexemeText(y) + rest))) == Some((x, y))
  {
    NumberAtOf(x, "," + (LexemeText(y) + rest));
    NumberAtOf(y, rest);
    CoordsAfterQueryOfParts(LexemeText(x), LexemeText(y) + rest, x, y);
  }

  /** In `a,b` the comma sits right after `a`, and `b` follows it. */
  lemma CommaSplit(a: string, b: string)
    ensures var t := a + ("," + b); |a| < |t| && t[|a|] == ',' && t[|a| + 1..] == b
  {
  }

  lemma CoordsAfterQueryOfParts(lx: string, after: string, x: Lexeme, y: Lexeme)
    requires lx == LexemeText(x)
    requires NumberAt(lx + ("," + after)) == Some(x)
    requires NumberAt(after) == Some(y)
    ensures CoordsAfterQuery(lx + ("," + after)) == Some((x, y))
  {
    CommaSplit(lx, after);
  }

  /** The numbers written after `maps?q=` are read back: the link built from two
      numbers parses to those numbers. */
  lemma CoordsRoundTrip(x: Lexeme, y: Lexeme, rest: string)
    requires WellFormed(x) && WellFormed(y) && Stops(y, rest)
    ensures ParseCoords(MapsQuery + LexemeText(x) + "," + LexemeText(y) + rest)
         == Coords(Some(LexemeValue(x)), Some(LexemeValue(y)))
  {
    CoordsAtOf(x, y, rest);
  }

  // ================================================================ listing id

  /** `extractIdFromUrl(url)`: the digits of the leftmost `-(\d+)(?:\?|$)`,
      or the empty string. */
  function ExtractIdFromUrl(url: string): (r: string)
    ensures r == "" || AllDigits(r)
  {
    match FirstDelimitedDigits(url, '-', {'?'})
    case None => ""
    case Some(d) => d
  }

  /** No '-' in `p` is followed by a digit. */
  predicate NoDashDigit(p: string) {
    forall i :: 0 <= i < |p| - 1 ==> !(p[i] == '-' && IsDigit(p[i + 1]))
  }

  lemma NoDashNoDashDigit(p: string)
    requires '-' !in p
    ensures NoDashDigit(p)
  {
  }

  /** A detail link ending in `-<digits>`, optionally followed by a query
      string, yields those digits when no earlier '-' is followed by a digit. */
  lemma {:induction false} ExtractIdTrailing(p: string, d: string, query: string)
    requires d != [] && AllDigits(d) && NoDashDigit(p)
    requires query == [] || query[0] == '?'
    ensures ExtractIdFromUrl(p + "-" + d + query) == d
    decreases |p|
  {
    var s := p + "-" + d + query;
    if p == [] {
      assert s == "-" + d + query;
      assert s[1..] == d + query;
      DigitRunOf(d, query);
    } else {
      assert s[1..] == p[1..] + "-" + d + query;
      assert DelimitedDigitsAt(s, '-', {'?'}).None? by {
        if s[0] == '-' {
          assert s[1] == (if |p| > 1 then p[1] else '-');
        }
      }
      ExtractIdTrailing(p[1..], d, query);
    }
  }

  /** A match of the id pattern ends the string or is followed by a stop. */
  lemma DelimitedDigitsEnd(t: string, lead: char, stops: set<char>)
    requires DelimitedDigitsAt(t, lead, stops).Some?
    ensures IsDigit(t[|t| - 1]) || exists k :: 0 <= k < |t| && t[k] in stops
  {
    var d := DigitRun(t[1..]);
    if 1 + |d| == |t| {
      assert t[|t| - 1] == d[|d| - 1];
    }
  }

  /** An id is taken only from the very end of the link or from right before
      its query string: a link with neither yields none. */
  lemma ExtractIdNeedsEndOrQuery(url: string)
    requires '?' !in url
    requires url == [] || !IsDigit(url[|url| - 1])
    ensures ExtractIdFromUrl(url) == ""
  {
    FirstDelimitedDigitsSpec(url, '-', {'?'});
    if FirstDelimitedDigits(url, '-', {'?'}).Some? {
      var i :| 0 <= i < |url| && DelimitedDigitsAt(url[i..], '-', {'?'}).Some?;
      DelimitedDigitsEnd(url[i..], '-', {'?'});
    }
  }

  // ================================================================ location

  /** City, district and the rest of a "İl / İlçe" text. */
  datatype Location = Location(city: string, district: string, neighborhood: string)

  /** A non-empty text with no white space at either end. */
  predicate Word(w: string) {
    w != [] && !IsSpace(w[0]) && !IsSpace(w[|w| - 1])
  }

  /** A run of digits is a word. */
  lemma DigitsWord(d: string)
    requires d != "" && AllDigits(d)
    ensures Word(d)
  {
    assert IsDigit(d[0]) && IsDigit(d[|d| - 1]);
  }

  /** `parts.map(s => s.trim()).filter(Boolean)` */
  function TrimmedNonEmpty(parts: seq<string>): (r: seq<string>)
    ensures |r| <= |parts|
    ensures forall i :: 0 <= i < |r| ==> Word(r[i])
  {
    if parts == [] then []
    else
      var t := Trim(parts[0]);
      var tail := TrimmedNonEmpty(parts[1..]);
      if t == [] then tail
      else
        assert Word(t);
        [t] + tail
  }

  /** A character absent from every part is absent from every kept piece. */
  lemma {:induction false} TrimmedNonEmptyAvoids(parts: seq<string>, c: char)
    requires forall i :: 0 <= i < |parts| ==> c !in parts[i]
    ensures forall i :: 0 <= i < |TrimmedNonEmpty(parts)| ==> c !in TrimmedNonEmpty(parts)[i]
  {
    if parts != [] {
      TrimmedNonEmptyAvoids(parts[1..], c);
      TrimKeepsChars(parts[0]);
    }
  }

  /** Pieces that all trim to non-empty words are all kept, trimmed. */
  lemma {:induction false} TrimmedNonEmptyOfWords(parts: seq<string>, words: seq<string>)
    requires |parts| == |words|
    requires forall i :: 0 <= i < |parts| ==> Trim(parts[i]) == words[i] && words[i] != []
    ensures TrimmedNonEmpty(parts) == words
  {
    if parts != [] {
      TrimmedNonEmptyOfWords(parts[1..], words[1..]);
      assert words == [words[0]] + words[1..];
    }
  }

  /** Trimming and dropping blanks works piece by piece: the kept pieces of
      `a + b` are those of `a` followed by those of `b`. */
  lemma {:induction false} TrimmedNonEmptyAppend(a: seq<string>, b: seq<string>)
    ensures TrimmedNonEmpty(a + b) == TrimmedNonEmpty(a) + TrimmedNonEmpty(b)
  {
    if a == [] {
      assert a + b == b;
    } else {
      assert (a + b)[0] == a[0];
      assert (a + b)[1..] == a[1..] + b;
      TrimmedNonEmptyAppend(a[1..], b);
    }
  }

  /** A single piece is dropped when blank, and kept trimmed otherwise. */
  lemma TrimmedNonEmptyOne(p: string)
    ensures TrimmedNonEmpty([p]) == if IsBlank(p) then [] else [Trim(p)]
  {
    assert [p][1..] == [];
  }

  /** The non-blank trimmed pieces between the '/' of a location text. */
  function LocationSegments(text: string): (r: seq<string>)
    ensures r == TrimmedNonEmpty(Split(text, '/'))
    ensures forall i :: 0 <= i < |r| ==> Word(r[i]) && '/' !in r[i]
  {
    TrimmedNonEmptyAvoids(Split(text, '/'), '/');
    TrimmedNonEmpty(Split(text, '/'))
  }

  /** `splitCityDistrict(locationText)`; an absent text is the empty string. */
  function SplitCityDistrict(text: string): (r: Location)
    ensures '/' !in r.city && '/' !in r.district
    ensures r.city == "" ==> r.district == ""
    ensures r.district == "" ==> r.neighborhood == ""
    ensures text == "" ==> r == Location("", "", "")
  {
    if text == "" then Location("", "", "")
    else
      var parts := LocationSegments(text);
      Location(
        if |parts| > 0 then parts[0] else "",
        if |parts| > 1 then parts[1] else "",
        Join(if |parts| > 2 then parts[2..] else [], " / "))
  }

  /** Splitting pieces joined by a separator none of them holds gives the pieces back. */
  lemma {:induction false} SplitOfJoin(ps: seq<string>, c: char)
    requires ps != []
    requires forall i :: 0 <= i < |ps| ==> c !in ps[i]
    ensures Split(Join(ps, [c]), c) == ps
  {
    if |ps| == 1 {
      assert Join(ps, [c]) == ps[0];
    } else {
      assert c !in ps[0];
      assert Join(ps, [c]) == ps[0] + [c] + Join(ps[1..], [c]);
      SplitAfter(ps[0], c, Join(ps[1..], [c]));
      SplitOfJoin(ps[1..], c);
      assert ps == [ps[0]] + ps[1..];
    }
  }

  /** Any location text, written as the '/'-free pieces between its slashes:
      the blank pieces are dropped, the others trimmed; the first kept piece is
      the city, the second the district, and all further ones, joined with
      " / ", the neighbourhood. */
  lemma SplitCityDistrictSpec(ps: seq<string>)
    requires ps != []
    requires forall i :: 0 <= i < |ps| ==> '/' !in ps[i]
    ensures var ws := TrimmedNonEmpty(ps);
      SplitCityDistrict(Join(ps, "/")) ==
        if ws == [] then Location("", "", "")
        else Location(ws[0], if |ws| > 1 then ws[1] else "", if |ws| > 2 then Join(ws[2..], " / ") else "")
  {
    SplitOfJoin(ps, '/');
    var text := Join(ps, "/");
    if text == "" {
      assert ps == Split("", '/') == [""];
      TrimmedNonEmptyOne("");
    }
  }

  /** "A / / B": an empty segment between two names is skipped. */
  lemma SplitCityDistrictSkipsBlank(city: string, district: string)
    requires Word(city) && '/' !in city
    requires Word(district) && '/' !in district
    ensures SplitCityDistrict(city + " / / " + district) == Location(city, district, "")
  {
    var ps := [city + " ", " ", " " + district];
    BlankPieces(city, district);
    BlankWords(city, district);
    SplitCityDistrictSpec(ps);
  }

  lemma BlankPieces(city: string, district: string)
    ensures Join([city + " ", " ", " " + district], "/") == city + " / / " + district
  {
    var ps := [city + " ", " ", " " + district];
    assert ps[1..][1..] == [" " + district];
    assert Join(ps[1..], "/") == " " + "/" + " " + district;
  }

  lemma BlankWords(city: string, district: string)
    requires Word(city) && Word(district)
    ensures TrimmedNonEmpty([city + " ", " ", " " + district]) == [city, district]
  {
    var ps := [city + " ", " ", " " + district];
    TrimPaddedWord(city, district, district);
    assert IsBlank(" ");
    assert ps == [ps[0]] + [ps[1]] + [ps[2]];
    TrimmedNonEmptyAppend([ps[0]] + [ps[1]], [ps[2]]);
    TrimmedNonEmptyAppend([ps[0]], [ps[1]]);
    TrimmedNonEmptyOne(ps[0]);
    TrimmedNonEmptyOne(ps[1]);
    TrimmedNonEmptyOne(ps[2]);
  }

  /** A single name is the city, with no district and no neighbourhood. */
  lemma SplitCityDistrictCityOnly(city: string)
    requires Word(city) && '/' !in city
    ensures SplitCityDistrict(city) == Location(city, "", "")
  {
    TrimNoop(city);
    TrimmedNonEmptyOne(city);
    assert Join([city], "/") == city;
    SplitCityDistrictSpec([city]);
  }

  /** Beyond the district, the remaining names are joined with " / ". */
  lemma SplitCityDistrictFour(a: string, b: string, c: string, d: string)
    requires Word(a) && '/' !in a && Word(b) && '/' !in b
    requires Word(c) && '/' !in c && Word(d) && '/' !in d
    ensures SplitCityDistrict(a + " / " + b + " / " + c + " / " + d) == Location(a, b, c + " / " + d)
  {
    var ps := [a + " ", " " + b + " ", " " + c + " ", " " + d];
    FourPieces(a, b, c, d);
    FourWords(a, b, c, d);
    SplitCityDistrictSpec(ps);
    var ws := [a, b, c, d];
    assert ws[2..] == [c, d] && [c, d][1..] == [d];
  }

  lemma FourPieces(a: string, b: string, c: string, d: string)
    ensures Join([a + " ", " " + b + " ", " " + c + " ", " " + d], "/") == a + " / " + b + " / " + c + " / " + d
  {
    var ps := [a + " ", " " + b + " ", " " + c + " ", " " + d];
    var p3 := [" " + c + " ", " " + d];
    assert p3[1..] == [" " + d];
    assert Join(p3, "/") == " " + c + " " + "/" + " " + d;
    assert ps[1..] == [" " + b + " "] + p3 && ([" " + b + " "] + p3)[1..] == p3;
    assert Join(ps[1..], "/") == " " + b + " " + "/" + Join(p3, "/");
  }

  lemma FourWords(a: string, b: string, c: string, d: string)
    requires Word(a) && Word(b) && Word(c) && Word(d)
    ensures TrimmedNonEmpty([a + " ", " " + b + " ", " " + c + " ", " " + d]) == [a, b, c, d]
  {
    var ps := [a + " ", " " + b + " ", " " + c + " ", " " + d];
    TrimPaddedWord(a, b, d);
    TrimPadded(" ", c, " ");
    TrimmedNonEmptyOfWords(ps, [a, b, c, d]);
  }

  /** A location written "city / district / neighbourhood" splits back into its
      three names, whatever white space they were padded with. */
  lemma SplitCityDistrictRoundTrip(city: string, district: string, neighborhood: string)
    requires Word(city) && '/' !in city
    requires Word(district) && '/' !in district
    requires Word(neighborhood) && '/' !in neighborhood
    ensures SplitCityDistrict(city + " / " + district + " / " + neighborhood) == Location(city, district, neighborhood)
  {
    var parts := LocationSegments(city + " / " + district + " / " + neighborhood);
    assert parts == [city, district, neighborhood] by {
      SegmentsOfThree(city, district, neighborhood);
    }
    assert parts[2..] == [neighborhood];
  }

  lemma SegmentsOfThree(city: string, district: string, neighborhood: string)
    requires Word(city) && '/' !in city
    requires Word(district) && '/' !in district
    requires Word(neighborhood) && '/' !in neighborhood
    ensures LocationSegments(city + " / " + district + " / " + neighborhood) == [city, district, neighborhood]
  {
    var p0, p1, p2 := city + " ", " " + district + " ", " " + neighborhood;
    assert city + " / " + district + " / " + neighborhood == p0 + "/" + p1 + "/" + p2;
    SplitThree(p0, p1, p2, '/');
    TrimPaddedWord(city, district, neighborhood);
    ThreeSegments(p0 + "/" + p1 + "/" + p2, [p0, p1, p2], [city, district, neighborhood]);
  }

  lemma TrimPaddedWord(city: string, district: string, neighborhood: string)
    requires Word(city) && Word(district) && Word(neighborhood)
    ensures Trim(city + " ") == city && Trim(" " + district + " ") == district && Trim(" " + neighborhood) == neighborhood
  {
    TrimPadded("", city, " ");
    assert "" + city + " " == city + " ";
    TrimPadded(" ", district, " ");
    TrimPadded(" ", neighborhood, "");
    assert " " + neighborhood + "" == " " + neighborhood;
  }

  lemma SplitThree(a: string, b: string, c: string, sep: char)
    requires sep !in a && sep !in b && sep !in c
    ensures Split(a + [sep] + b + [sep] + c, sep) == [a, b, c]
  {
    assert a + [sep] + b + [sep] + c == a + [sep] + (b + [sep] + c);
    SplitAfter(a, sep, b + [sep] + c);
    SplitAfter(b, sep, c);
  }

  lemma ThreeSegments(text: string, parts: seq<string>, words: seq<string>)
    requires Split(text, '/') == parts && |parts| == |words| == 3
    requires Trim(parts[0]) == words[0] && Trim(parts[1]) == words[1] && Trim(parts[2]) == words[2]
    requires words[0] != [] && words[1] != [] && words[2] != []
    ensures LocationSegments(text) == words
  {
    forall i | 0 <= i < 3
      ensures Trim(parts[i]) == words[i] && words[i] != []
    {
      if i == 0 {
      } else if i == 1 {
      } else {
        assert i == 2;
      }
    }
    TrimmedNonEmptyOfWords(parts, words);
  }

  // ================================================================ record to DTO

  /** A scraped listing: label to text. A label the page did not show is
      absent, which reads like the empty string (both are falsy). */
  type Record = map<string, string>

  function Field(s: Record, key: string): string {
    if key in s then s[key] else ""
  }

  /** The body sent to the Emlak API for one listing. */
  datatype PropertyDto = PropertyDto(
    id: Option<string>,
    url: string,
    title: string,
    description: string,
    priceText: string,
    price: Option<real>,
    city: string,
    district: string,
    neighborhood: string,
    locationText: string,
    mapUrl: string,
    parcelUrl: string,
    latitude: Option<real>,
    longitude: Option<real>,
    contactName: string,
    contactPhone: string,
    listingFrom: string,
    source: string,
    scrapedAt: string,
    original: Record)

  /** The listing number: the trimmed "İlan No", else the trimmed "ID", else
      the number at the end of the URL. */
  function ListingId(s: Record): (r: string)
    ensures r == "" || Word(r)
    ensures r == "" <==> IsBlank(Field(s, "İlan No")) && IsBlank(Field(s, "ID")) && ExtractIdFromUrl(Field(s, "URL")) == ""
  {
    FirstId(Field(s, "İlan No"), Field(s, "ID"), Field(s, "URL"))
  }

  /** The trimmed listing number, else the trimmed generic id, else the id in
      the address. */
  function FirstId(listingNo: string, genericId: string, url: string): (r: string)
    ensures r == "" || Word(r)
    ensures r == "" <==> IsBlank(listingNo) && IsBlank(genericId) && ExtractIdFromUrl(url) == ""
  {
    var fromNo, fromId, fromUrl := Trim(listingNo), Trim(genericId), ExtractIdFromUrl(url);
    assert fromUrl == "" || Word(fromUrl) by {
      if fromUrl != "" {
        DigitsWord(fromUrl);
      }
    }
    Or(fromNo, Or(fromId, fromUrl))
  }

  /** `mapToPropertyDto(scraped)`; `now` is the ISO-8601 time of the call. */
  function MapToPropertyDto(s: Record, now: string): (r: PropertyDto)
    ensures r.id.Some? ==> Word(r.id.value)
    ensures r.latitude.Some? <==> r.longitude.Some?
    ensures r.price.Some? <==> HasDigit(r.priceText)
    ensures r.city == "" ==> r.district == "" && r.neighborhood == ""
    ensures r.id == (if ListingId(s) == "" then None else Some(ListingId(s))) && r.url == Field(s, "URL")
    ensures r.priceText == Field(s, "Fiyat") && r.price == ParsePrice(r.priceText)
    ensures r.mapUrl == Field(s, "Harita") && Coords(r.latitude, r.longitude) == ParseCoords(r.mapUrl)
    ensures r.locationText == Or(Field(s, "İl / İlçe"), Field(s, "Konum"))
    ensures Location(r.city, r.district, r.neighborhood) == SplitCityDistrict(r.locationText)
    ensures r.title == Or(Field(s, "İlan Başlığı"), Field(s, "Baslik")) && r.description == Field(s, "Açıklama")
    ensures r.contactName == Or(Field(s, "Agent Adı"), Field(s, "İletişim")) && r.contactPhone == Field(s, "Agent Telefon")
    ensures r.parcelUrl == Field(s, "Parsel") && r.listingFrom == Field(s, "Kimden")
    ensures r.source == "sahibinden" && r.scrapedAt == now && r.original == s
  {
    var url := Field(s, "URL");
    var id := ListingId(s);
    var priceText := Field(s, "Fiyat");
    var mapUrl := Field(s, "Harita");
    var coords := ParseCoords(mapUrl);
    var locText := Or(Field(s, "İl / İlçe"), Field(s, "Konum"));
    var loc := SplitCityDistrict(locText);
    PropertyDto(
      id := if id == "" then None else Some(id),
      url := url,
      title := Or(Field(s, "İlan Başlığı"), Field(s, "Baslik")),
      description := Field(s, "Açıklama"),
      priceText := priceText,
      price := ParsePrice(priceText),
      city := loc.city,
      district := loc.district,
      neighborhood := loc.neighborhood,
      locationText := locText,
      mapUrl := mapUrl,
      parcelUrl := Field(s, "Parsel"),
      latitude := coords.latitude,
      longitude := coords.longitude,
      contactName := Or(Field(s, "Agent Adı"), Field(s, "İletişim")),
      contactPhone := Field(s, "Agent Telefon"),
      listingFrom := Field(s, "Kimden"),
      source := "sahibinden",
      scrapedAt := now,
      original := s)
  }

  /** The id is missing exactly when neither listing-number field holds more
      than white space and the URL carries no trailing number. */
  lemma DtoIdNoneIff(s: Record, now: string)
    ensures MapToPropertyDto(s, now).id.None? <==>
      IsBlank(Field(s, "İlan No")) && IsBlank(Field(s, "ID")) && ExtractIdFromUrl(Field(s, "URL")) == ""
  {
  }

  /** A non-blank "İlan No" wins over everything else; a non-blank "ID" wins
      over the URL; with both blank, the number in the URL is the id. */
  lemma DtoIdPrecedence(s: Record, now: string)
    ensures !IsBlank(Field(s, "İlan No")) ==> MapToPropertyDto(s, now).id == Some(Trim(Field(s, "İlan No")))
    ensures IsBlank(Field(s, "İlan No")) && !IsBlank(Field(s, "ID")) ==> MapToPropertyDto(s, now).id == Some(Trim(Field(s, "ID")))
    ensures IsBlank(Field(s, "İlan No")) && IsBlank(Field(s, "ID")) && ExtractIdFromUrl(Field(s, "URL")) != "" ==>
      MapToPropertyDto(s, now).id == Some(ExtractIdFromUrl(Field(s, "URL")))
  {
  }

  /** The id depends on nothing but the two number fields and the URL. */
  lemma DtoIdStable(s: Record, t: Record, now: string, later: string)
    requires Field(s, "İlan No") == Field(t, "İlan No") && Field(s, "ID") == Field(t, "ID")
    requires Field(s, "URL") == Field(t, "URL")
    ensures MapToPropertyDto(s, now).id == MapToPropertyDto(t, later).id
  {
  }

  /** Example: a number in the URL is used when the record has none. */
  lemma DtoIdFromUrl(now: string)
    ensures MapToPropertyDto(map["URL" := "https://www.sahibinden.com/ilan/daire-1234?x=1"], now).id == Some("1234")
  {
    var url := "https://www.sahibinden.com/ilan/daire-1234?x=1";
    var m := map["URL" := url];
    assert ExtractIdFromUrl(url) == "1234" by {
      var p := "https://www.sahibinden.com/ilan/daire";
      assert url == p + "-" + "1234" + "?x=1";
      assert '-' !in p;
      NoDashNoDashDigit(p);
      ExtractIdTrailing(p, "1234", "?x=1");
    }
    assert ListingId(m) == "1234" by {
      assert Field(m, "İlan No") == "" && Field(m, "ID") == "" && Field(m, "URL") == url;
    }
    DtoIdIsListingId(m, now);
  }

  lemma DtoIdIsListingId(s: Record, now: string)
    ensures MapToPropertyDto(s, now).id == if ListingId(s) == "" then None else Some(ListingId(s))
  {
  }
}
