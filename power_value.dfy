/**
 * The unit converter: `parse_power_value` (script5.py:13-28) turns the first
 * "digits, optional blanks, unit" token of a text into watts.
 */
module PowerValue {
  import opened Wrappers
  import opened Text

  /** The closed set of units the conversion table knows. */
  datatype Unit = Watt | Kilowatt | Btu

  /** The unit as spelled in the alternation `(w|kw|btu)`, in lower case. */
  function Token(u: Unit): string {
    match u
    case Watt => "w"
    case Kilowatt => "kw"
    case Btu => "btu"
  }

  /** The conversion table `conversions`: watts per unit. */
  function Factor(u: Unit): (f: real)
    ensures f >= 1.0 || (u == Btu && 0.0 < f < 1.0)
  {
    match u
    case Watt => 1.0
    case Kilowatt => 1000.0
    case Btu => 0.29307107
  }

  /** `[\d.,]`: the characters of a number as the patterns admit it. */
  predicate IsNumChar(c: char) {
    IsDigit(c) || c == '.' || c == ','
  }

  /** Every character of `t` is a digit, a dot or a comma. */
  predicate IsNumText(t: string) {
    forall k :: 0 <= k < |t| ==> IsNumChar(t[k])
  }

  /** A text `\d+[\d.,]*` matches in full: a digit, then digits, dots and commas. */
  predicate IsNumber(t: string) {
    |t| > 0 && IsDigit(t[0]) && IsNumText(t)
  }

  /** Every character of `t` is a digit or a dot: what remains of a number once commas are replaced. */
  predicate IsDecimalText(t: string) {
    forall k :: 0 <= k < |t| ==> IsDigit(t[k]) || t[k] == '.'
  }

  /** `(w|kw|btu)` at position `i`, ignoring case. The three tokens start with different
      letters, so at most one of them is there and the alternation has no choice to make. */
  function UnitAt(s: string, i: nat): (r: Option<Unit>)
    ensures r.Some? ==> WordAt(s, i, Token(r.value))
  {
    if WordAt(s, i, "w") then Some(Watt)
    else if WordAt(s, i, "kw") then Some(Kilowatt)
    else if WordAt(s, i, "btu") then Some(Btu)
    else None
  }

  /** Whichever unit token stands at `i` is the one `UnitAt` reports. */
  lemma UnitAtUnique(s: string, i: nat, u: Unit)
    requires WordAt(s, i, Token(u))
    ensures UnitAt(s, i) == Some(u)
  {
    WordAtChar(s, i, Token(u), 0);
    if u != Watt && WordAt(s, i, "w") {
      WordAtChar(s, i, "w", 0);
    }
    if u == Btu && WordAt(s, i, "kw") {
      WordAtChar(s, i, "kw", 0);
    }
  }

  /** A unit token begins with a letter: neither part of a number nor a blank. */
  lemma TokenStart(s: string, i: nat, u: Unit)
    requires WordAt(s, i, Token(u))
    ensures i < |s| && !IsNumChar(s[i]) && !IsSpace(s[i])
  {
    WordAtChar(s, i, Token(u), 0);
  }

  /** What the pattern captures: the number text (group 1) and the unit (group 2). */
  datatype Quantity = Quantity(number: string, unit: Unit)

  /** Declarative reading of `(\d+[\d.,]*)\s*(w|kw|btu)/?h?` matching at `i`: the number is
      `s[i..j]`, blanks fill `s[j..k]` and the unit token starts at `k`. The trailing `/?h?`
      may always match nothing and captures nothing, so it adds no condition. */
  ghost predicate QuantityMatch(s: string, i: nat, j: nat, k: nat, u: Unit) {
    i < j && AllIn(s, i, j, IsNumChar) && IsDigit(s[i]) && AllIn(s, j, k, IsSpace) && WordAt(s, k, Token(u))
  }

  /** The pattern tried at one start position: greedy number, greedy blanks, then a unit. */
  function QuantityAt(s: string, i: nat): (r: Option<Quantity>)
    ensures r.Some? ==> IsNumber(r.value.number)
  {
    if i < |s| && IsDigit(s[i]) then
      var j := RunEnd(s, i, IsNumChar);
      var k := RunEnd(s, j, IsSpace);
      match UnitAt(s, k)
      case Some(u) => Some(Quantity(s[i..j], u))
      case None => None
    else None
  }

  /** Whatever way the pattern matches at `i`, the scanner finds it with the same groups:
      backtracking into the greedy runs can never succeed, because a shorter number is followed
      by a number character and shorter blanks by a blank, and neither starts a unit. */
  lemma QuantityAtComplete(s: string, i: nat, j: nat, k: nat, u: Unit)
    requires QuantityMatch(s, i, j, k, u)
    ensures QuantityAt(s, i) == Some(Quantity(s[i..j], u))
  {
    TokenStart(s, k, u);
    UnitAtUnique(s, k, u);
    RunEndUnique(s, i, j, IsNumChar);
    RunEndUnique(s, j, k, IsSpace);
  }

  /** Every success of the scanner is a match of the pattern. */
  lemma QuantityAtSound(s: string, i: nat) returns (j: nat, k: nat, u: Unit)
    ensures QuantityAt(s, i).Some? ==> QuantityMatch(s, i, j, k, u) && QuantityAt(s, i) == Some(Quantity(s[i..j], u))
  {
    j, k, u := 0, 0, Watt;
    if QuantityAt(s, i).Some? {
      j := RunEnd(s, i, IsNumChar);
      k := RunEnd(s, j, IsSpace);
      u := QuantityAt(s, i).value.unit;
    }
  }

  /** `value.replace(',', '.')`: a comma is taken as the decimal point. */
  function Normalize(t: string): (r: string)
    ensures |r| == |t|
    ensures forall k :: 0 <= k < |t| ==> r[k] == (if t[k] == ',' then '.' else t[k])
    ensures IsNumText(t) ==> IsDecimalText(r)
  {
    seq(|t|, k requires 0 <= k < |t| => if t[k] == ',' then '.' else t[k])
  }

  predicate IsDigits(d: string) {
    forall k :: 0 <= k < |d| ==> IsDigit(d[k])
  }

  function DigitValue(c: char): nat
    requires IsDigit(c)
  {
    c as int - '0' as int
  }

  /** The value of a run of decimal digits, most significant first; the empty run is 0. */
  function DigitsValue(d: string): nat
    requires IsDigits(d)
  {
    if |d| == 0 then 0 else DigitsValue(d[..|d| - 1]) * 10 + DigitValue(d[|d| - 1])
  }

  function Pow10(n: nat): (p: nat)
    ensures p >= 1
  {
    if n == 0 then 1 else 10 * Pow10(n - 1)
  }

  /** Number of occurrences of `c` in `t`. */
  function Count(t: string, c: char): nat {
    if |t| == 0 then 0 else (if t[0] == c then 1 else 0) + Count(t[1..], c)
  }

  /** The position of the first `c` in `t`, or `|t|` when there is none. */
  function IndexOf(t: string, c: char): (k: nat)
    ensures k <= |t|
    ensures k < |t| ==> t[k] == c
    ensures forall q :: 0 <= q < k ==> t[q] != c
  {
    if |t| == 0 then 0 else if t[0] == c then 0 else 1 + IndexOf(t[1..], c)
  }

  /** The value of the decimal written with the integer digits `whole`, a point and the
      fraction digits `frac`. */
  function DecimalValue(whole: string, frac: string): (v: real)
    requires IsDigits(whole) && IsDigits(frac)
    ensures v >= 0.0
  {
    DigitsValue(whole) as real + DigitsValue(frac) as real / Pow10(|frac|) as real
  }

  /** Python's `float` on a text made of digits and dots: digits with at most one dot and at
      least one digit; `None` stands for the `ValueError` it raises otherwise. */
  function ParseDecimal(t: string): (r: Option<real>)
    requires IsDecimalText(t)
    ensures r.Some? ==> r.value >= 0.0
  {
    var d := IndexOf(t, '.');
    if d == |t| then
      if |t| == 0 then None else Some(DecimalValue(t, ""))
    else
      var whole, frac := t[..d], t[d + 1..];
      if IndexOf(frac, '.') < |frac| || |whole| + |frac| == 0 then None
      else Some(DecimalValue(whole, frac))
  }

  /** The unit converter: `float(number.replace(',', '.')) * conversions[unit]`, with `None`
      for the exception the bare `except` swallows. */
  function Convert(number: string, u: Unit): (r: Option<real>)
    requires IsNumText(number)
    ensures r.Some? ==> r.value >= 0.0
  {
    match ParseDecimal(Normalize(number))
    case None => None
    case Some(x) => Some(x * Factor(u))
  }

  /** `parse_power_value`: the leftmost quantity of the text converted to watts; `None` when
      there is no quantity or its number is not a decimal. */
  function ParsePowerValue(s: string): (r: Option<real>)
    ensures r.Some? ==> r.value >= 0.0
  {
    match Leftmost(0, |s|, (i: nat) => QuantityAt(s, i))
    case None => None
    case Some((_, q)) => Convert(q.number, q.unit)
  }

  /** `parse_power_value` converts the leftmost match of its pattern and looks no further:
      whichever match starts first decides the result, including `None` when its number is
      malformed. */
  lemma ParsePowerValueLeftmost(s: string, i: nat, j: nat, k: nat, u: Unit)
    requires QuantityMatch(s, i, j, k, u)
    requires forall q: nat, j': nat, k': nat, u': Unit :: q < i ==> !QuantityMatch(s, q, j', k', u')
    ensures ParsePowerValue(s) == Convert(s[i..j], u)
  {
    QuantityAtComplete(s, i, j, k, u);
    var at := (p: nat) => QuantityAt(s, p);
    forall q: nat | q < i
      ensures at(q).None?
    {
      var j', k', u' := QuantityAtSound(s, q);
    }
    LeftmostAt(0, |s|, at, i, Quantity(s[i..j], u));
  }

  /** Without any "number, blanks, unit" in the text the result is `None`. */
  lemma ParsePowerValueNoMatch(s: string)
    requires forall i: nat, j: nat, k: nat, u: Unit :: !QuantityMatch(s, i, j, k, u)
    ensures ParsePowerValue(s) == None
  {
    var at := (p: nat) => QuantityAt(s, p);
    forall q: nat | q <= |s|
      ensures at(q).None?
    {
      var j', k', u' := QuantityAtSound(s, q);
    }
  }

  lemma {:induction false} CountNone(t: string, c: char)
    ensures Count(t, c) == 0 <==> IndexOf(t, c) == |t|
  {
    if |t| > 0 {
      CountNone(t[1..], c);
    }
  }

  lemma {:induction false} CountBound(t: string, c: char)
    ensures Count(t, c) <= |t|
  {
    if |t| > 0 {
      CountBound(t[1..], c);
    }
  }

  /** Counting past the first occurrence of `c`. */
  lemma {:induction false} CountAfterFirst(t: string, c: char)
    requires IndexOf(t, c) < |t|
    ensures Count(t, c) == 1 + Count(t[IndexOf(t, c) + 1..], c)
  {
    if t[0] != c {
      CountAfterFirst(t[1..], c);
      assert t[1..][IndexOf(t[1..], c) + 1..] == t[IndexOf(t, c) + 1..];
    }
  }

  /** `float` accepts a text of digits and dots exactly when it holds at most one dot and at
      least one digit ("1.", ".5" and "15" are numbers; ".", "" and "1.2.3" are not). */
  lemma ParseDecimalDefined(t: string)
    requires IsDecimalText(t)
    ensures ParseDecimal(t).Some? <==> Count(t, '.') <= 1 && Count(t, '.') < |t|
  {
    var d := IndexOf(t, '.');
    CountNone(t, '.');
    if d < |t| {
      CountAfterFirst(t, '.');
      CountNone(t[d + 1..], '.');
    }
  }

  lemma DigitsHaveNoPoint(d: string)
    requires IsDigits(d)
    ensures IndexOf(d, '.') == |d|
  {
  }

  /** Reading back a decimal written as integer digits, optionally a point and fraction digits,
      gives its value. */
  lemma ParseDecimalOfParts(whole: string, frac: string)
    requires IsDigits(whole) && IsDigits(frac)
    ensures ParseDecimal(whole) == if |whole| == 0 then None else Some(DecimalValue(whole, ""))
    ensures ParseDecimal(whole + "." + frac) == if |whole| + |frac| == 0 then None else Some(DecimalValue(whole, frac))
  {
    DigitsHaveNoPoint(whole);
    DigitsHaveNoPoint(frac);
    var t := whole + "." + frac;
    assert t[|whole|] == '.';
    assert forall q :: 0 <= q < |whole| ==> t[q] == whole[q];
    assert IndexOf(t, '.') == |whole|;
    assert t[..|whole|] == whole;
    assert t[|whole| + 1..] == frac;
  }

  lemma {:induction false} CountNormalize(t: string)
    ensures Count(Normalize(t), '.') == Count(t, '.') + Count(t, ',')
  {
    if |t| > 0 {
      CountNormalize(t[1..]);
      assert Normalize(t)[1..] == Normalize(t[1..]);
    }
  }

  /** A number token converts exactly when it holds at most one separator, comma or dot
      together: "1,5" converts and "1.2.3" or "1,2.3" do not. */
  lemma ConvertDefined(number: string, u: Unit)
    requires IsNumber(number)
    ensures Convert(number, u).Some? <==> Count(number, '.') + Count(number, ',') <= 1
  {
    var t := Normalize(number);
    ParseDecimalDefined(t);
    CountNormalize(number);
    CountBound(t[1..], '.');
  }

  lemma NormalizeDigits(d: string)
    requires IsDigits(d)
    ensures Normalize(d) == d
  {
  }

  lemma NormalizeParts(whole: string, sep: char, frac: string)
    requires IsDigits(whole) && IsDigits(frac) && (sep == '.' || sep == ',')
    ensures IsNumber(whole + [sep] + frac) || |whole| == 0
    ensures Normalize(whole + [sep] + frac) == whole + "." + frac
  {
    var t, dotted := whole + [sep] + frac, whole + "." + frac;
    forall k | 0 <= k < |t|
      ensures Normalize(t)[k] == dotted[k] && IsNumChar(t[k])
    {
      if k < |whole| {
        assert t[k] == whole[k] == dotted[k];
        assert IsDigit(whole[k]);
      } else if k > |whole| {
        assert t[k] == frac[k - |whole| - 1] == dotted[k];
        assert IsDigit(frac[k - |whole| - 1]);
      }
    }
  }

  lemma ConvertOf(number: string, u: Unit, x: real)
    requires IsNumText(number)
    requires ParseDecimal(Normalize(number)) == Some(x)
    ensures Convert(number, u) == Some(x * Factor(u))
  {
  }

  /** The comma is a decimal point like the dot: a whole number, or whole digits, a separator
      and fraction digits, convert to their decimal value times the unit's factor. */
  lemma ConvertValue(whole: string, sep: char, frac: string, u: Unit)
    requires IsDigits(whole) && |whole| > 0 && IsDigits(frac) && (sep == '.' || sep == ',')
    ensures Convert(whole, u) == Some(DecimalValue(whole, "") * Factor(u))
    ensures Convert(whole + [sep] + frac, u) == Some(DecimalValue(whole, frac) * Factor(u))
  {
    NormalizeDigits(whole);
    NormalizeParts(whole, sep, frac);
    ParseDecimalOfParts(whole, frac);
    ConvertOf(whole, u, DecimalValue(whole, ""));
    ConvertOf(whole + [sep] + frac, u, DecimalValue(whole, frac));
  }

  /** "1,5" kW is 1500 W: the comma is the decimal point. */
  lemma ConvertCommaExample()
    ensures Convert("1,5", Kilowatt) == Some(1500.0)
  {
    ConvertValue("1", ',', "5", Kilowatt);
    assert "1" + [','] + "5" == "1,5";
    assert DigitsValue("1") == 1 by { assert "1"[..0] == ""; }
    assert DigitsValue("5") == 5 by { assert "5"[..0] == ""; }
    assert DecimalValue("1", "5") == 1.5;
  }

  /** 12000 BTU/h is 3516.85284 W. */
  lemma ConvertBtuExample()
    ensures Convert("12000", Btu) == Some(3516.85284)
  {
    TwelveThousand();
    assert DecimalValue("12000", "") == 12000.0;
    ConvertValue("12000", '.', "", Btu);
  }

  lemma TwelveThousand()
    ensures DigitsValue("12000") == 12000
  {
    assert "12000"[..4] == "1200" && "1200"[..3] == "120" && "120"[..2] == "12";
    assert "12"[..1] == "1" && "1"[..0] == "";
  }

  /** A number with two separators is not a decimal, so nothing is converted. */
  lemma ConvertMalformedExample(number: string)
    requires number == "1.2.3"
    ensures Convert(number, Watt) == None
  {
    ConvertDefined(number, Watt);
    assert Count(number, '.') == 2 by {
      assert number[1..] == ".2.3" && ".2.3"[1..] == "2.3" && "2.3"[1..] == ".3" && ".3"[1..] == "3" && "3"[1..] == "";
    }
  }

  /** A comma and a dot together are two separators as well. */
  lemma ConvertMixedExample(number: string)
    requires number == "1,2.3"
    ensures Convert(number, Kilowatt) == None
  {
    ConvertDefined(number, Kilowatt);
    assert Count(number, '.') == 1 && Count(number, ',') == 1 by {
      assert number[1..] == ",2.3" && ",2.3"[1..] == "2.3" && "2.3"[1..] == ".3" && ".3"[1..] == "3" && "3"[1..] == "";
    }
  }

  /** `parse_power_value("1,5 kw")` is 1500.0. */
  lemma ParseCommaExample()
    ensures ParsePowerValue("1,5 kw") == Some(1500.0)
  {
    ConvertCommaExample();
    assert QuantityMatch("1,5 kw", 0, 3, 4, Kilowatt);
    ParsePowerValueLeftmost("1,5 kw", 0, 3, 4, Kilowatt);
    assert "1,5 kw"[0..3] == "1,5";
  }

  /** The unit is matched ignoring case and may carry "/h": "12000 BTU/h" is 3516.85284 W. */
  lemma ParseBtuExample()
    ensures ParsePowerValue("12000 BTU/h") == Some(3516.85284)
  {
    ConvertBtuExample();
    assert QuantityMatch("12000 BTU/h", 0, 5, 6, Btu);
    ParsePowerValueLeftmost("12000 BTU/h", 0, 5, 6, Btu);
    assert "12000 BTU/h"[0..5] == "12000";
  }

  /** The leftmost number has two dots: `None`, although "3 w" would convert. */
  lemma ParseMalformedExample(s: string)
    requires s == "1.2.3 w"
    ensures ParsePowerValue(s) == None
  {
    assert s[0..5] == "1.2.3";
    assert QuantityMatch(s, 0, 5, 6, Watt);
    ConvertMalformedExample(s[0..5]);
    ParsePowerValueLeftmost(s, 0, 5, 6, Watt);
  }

  /** An unknown unit matches nothing: `None`. */
  lemma ParseUnknownUnitExample()
    ensures ParsePowerValue("5 lbs") == None
  {
    RunEndUnique("5 lbs", 0, 1, IsNumChar);
    RunEndUnique("5 lbs", 1, 2, IsSpace);
    NotWordAt("5 lbs", 2, "w", 0);
    NotWordAt("5 lbs", 2, "kw", 0);
    NotWordAt("5 lbs", 2, "btu", 0);
    assert UnitAt("5 lbs", 2) == None;
    var at := (p: nat) => QuantityAt("5 lbs", p);
    assert at(0) == None;
    assert at(1) == None && at(2) == None && at(3) == None && at(4) == None && at(5) == None;
  }
}
