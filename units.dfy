/**
 * The temperature helpers of the free-text extractor: number clean-up,
 * Fahrenheit detection and conversion, and the rule that assigns the
 * extracted temperatures to the maximum and minimum.
 */
module Units {
  import opened Wrappers

  // ---------------------------------------------------------------------
  // normalize_number_buggy
  // ---------------------------------------------------------------------

  /** `str.isspace` on the ASCII range: space, `\t \n \v \f \r` and the separators `\x1c`-`\x1f`. */
  predicate IsSpace(c: char)
  {
    c == ' ' || '\t' <= c <= '\r' || '\U{1C}' <= c <= '\U{1F}'
  }

  function StripLeading(s: string): (r: string)
    ensures |r| <= |s| && r == s[|s| - |r|..]
    ensures r != [] ==> !IsSpace(r[0])
    ensures forall i :: 0 <= i < |s| - |r| ==> IsSpace(s[i])
  {
    if s != [] && IsSpace(s[0]) then StripLeading(s[1..]) else s
  }

  function StripTrailing(s: string): (r: string)
    ensures |r| <= |s| && r == s[..|r|]
    ensures r != [] ==> !IsSpace(r[|r| - 1])
    ensures forall i :: |r| <= i < |s| ==> IsSpace(s[i])
  {
    if s != [] && IsSpace(s[|s| - 1]) then StripTrailing(s[..|s| - 1]) else s
  }

  /** `str.strip()`. */
  function Strip(s: string): string
  {
    StripTrailing(StripLeading(s))
  }

  /** `str.replace(',', '.')`. */
  function CommasToDots(s: string): (r: string)
    ensures |r| == |s|
    ensures forall i :: 0 <= i < |s| ==> r[i] == if s[i] == ',' then '.' else s[i]
  {
    if s == [] then [] else [if s[0] == ',' then '.' else s[0]] + CommasToDots(s[1..])
  }

  /** The text `normalize_number_buggy` hands to `float()`. */
  function Cleaned(text: string): string
  {
    CommasToDots(Strip(text))
  }

  /**
   * `normalize_number_buggy`; `parse` stands for `float()`, `None` for the
   * `ValueError` it may raise.
   */
  function NormalizeNumber(text: string, parse: string -> Option<real>): Option<real>
  {
    if text == "" then None else parse(Cleaned(text))
  }

  /** The strip keeps a contiguous middle of the text and removes only whitespace around it. */
  lemma StripMiddle(text: string) returns (i: nat, j: nat)
    ensures i <= j <= |text| && Strip(text) == text[i..j]
    ensures forall k :: 0 <= k < i ==> IsSpace(text[k])
    ensures forall k :: j <= k < |text| ==> IsSpace(text[k])
    ensures Strip(text) != [] ==> !IsSpace(text[i]) && !IsSpace(text[j - 1])
  {
    var l := StripLeading(text);
    var m := StripTrailing(l);
    i := |text| - |l|;
    j := i + |m|;
    assert m == text[i..j];
    forall k | j <= k < |text| ensures IsSpace(text[k]) {
      assert text[k] == l[k - i];
    }
  }

  /** The cleaned text has no comma left and a dot wherever the stripped text had one. */
  lemma CleanedNoComma(text: string)
    ensures var m, c := Strip(text), Cleaned(text);
      ',' !in c && |c| == |m| &&
      forall k :: 0 <= k < |m| ==> (m[k] == ',' ==> c[k] == '.') && (m[k] != ',' ==> c[k] == m[k])
  {
  }

  /** Empty text is no number; otherwise `float` sees the cleaned text. */
  lemma NormalizeNumberCases(text: string, parse: string -> Option<real>)
    ensures text == "" ==> NormalizeNumber(text, parse) == None
    ensures text != "" ==> NormalizeNumber(text, parse) == parse(Cleaned(text))
  {
  }

  /** Stripping twice is stripping once. */
  lemma StripIdempotent(s: string)
    ensures Strip(Strip(s)) == Strip(s)
  {
    var m := Strip(s);
    assert StripLeading(m) == m;
    assert StripTrailing(m) == m;
  }

  /** The decimal comma of `" 32,9 "` reaches `float` as `"32.9"`. */
  lemma DecimalCommaExample(parse: string -> Option<real>)
    ensures NormalizeNumber(" 32,9 ", parse) == parse("32.9")
  {
    var s := " 32,9 ";
    assert StripLeading(s) == s[1..] == "32,9 ";
    assert StripTrailing("32,9 ") == "32,9";
    assert CommasToDots("32,9") == "32.9";
  }

  // ---------------------------------------------------------------------
  // fahrenheit_to_celsius_buggy
  // ---------------------------------------------------------------------

  /** `(t - 32) * 5 / 8`, `None` passed through; the correct factor would be 5/9. */
  function FahrenheitToCelsius(t: Option<real>): (r: Option<real>)
    ensures r.None? <==> t.None?
  {
    match t
    case None => None
    case Some(x) => Some((x - 32.0) * 5.0 / 8.0)
  }

  /** 32 °F maps to 0. */
  lemma FreezingPoint()
    ensures FahrenheitToCelsius(Some(32.0)) == Some(0.0)
  {
  }

  /** The conversion is strictly increasing. */
  lemma ConversionIncreasing(a: real, b: real)
    requires a < b
    ensures FahrenheitToCelsius(Some(a)).value < FahrenheitToCelsius(Some(b)).value
  {
  }

  /** The 5/8 factor agrees with the true 5/9 conversion only at 32 °F. */
  lemma ConversionWrongOffFreezing(x: real)
    ensures FahrenheitToCelsius(Some(x)).value == (x - 32.0) * 5.0 / 9.0 <==> x == 32.0
  {
    if (x - 32.0) * 5.0 / 8.0 == (x - 32.0) * 5.0 / 9.0 {
      assert (x - 32.0) * 45.0 == (x - 32.0) * 40.0;
    }
  }

  // ---------------------------------------------------------------------
  // detect_fahrenheit_buggy
  // ---------------------------------------------------------------------

  /** `str.upper`, restricted to ASCII letters. */
  function Upper(s: string): (r: string)
    ensures |r| == |s|
    ensures forall i :: 0 <= i < |s| ==> r[i] == if 'a' <= s[i] <= 'z' then (s[i] as int - 32) as char else s[i]
  {
    if s == [] then []
    else [if 'a' <= s[0] <= 'z' then (s[0] as int - 32) as char else s[0]] + Upper(s[1..])
  }

  function DetectFahrenheit(text: string, value: Option<real>): bool
  {
    if text == "" || value.None? then false
    else if 'F' in Upper(text) then true
    else value.value > 50.0
  }

  /**
   * The text is taken for Fahrenheit exactly when it is non-empty, its value
   * parsed, and it holds an `F` or `f` or the value exceeds 50.
   */
  lemma DetectFahrenheitIff(text: string, value: Option<real>)
    ensures DetectFahrenheit(text, value) <==>
      text != "" && value.Some? && ('F' in text || 'f' in text || value.value > 50.0)
  {
    var u := Upper(text);
    if 'F' in u {
      var i :| 0 <= i < |u| && u[i] == 'F';
      assert text[i] == 'F' || text[i] == 'f';
    }
    if 'F' in text {
      var i :| 0 <= i < |text| && text[i] == 'F';
      assert u[i] == 'F';
    }
    if 'f' in text {
      var i :| 0 <= i < |text| && text[i] == 'f';
      assert u[i] == 'F';
    }
  }

  /** A Celsius reading above 50 without any unit letter is still taken for Fahrenheit. */
  lemma HotCelsiusMisread()
    ensures DetectFahrenheit("51", Some(51.0))
    ensures !DetectFahrenheit("32.9C", Some(32.9))
  {
    DetectFahrenheitIff("51", Some(51.0));
    DetectFahrenheitIff("32.9C", Some(32.9));
  }

  // ---------------------------------------------------------------------
  // The temperature assignment of extract_weather_data_buggy
  // ---------------------------------------------------------------------

  /** One match of the first temperature pattern: the number text and the unit letter (`""` when absent). */
  datatype TempMatch = TempMatch(number: string, unit: string)

  /** The value a match contributes: parsed, and converted when taken for Fahrenheit. */
  function MatchValue(m: TempMatch, parse: string -> Option<real>): Option<real>
  {
    var v := NormalizeNumber(m.number, parse);
    if DetectFahrenheit(m.number + m.unit, v) then FahrenheitToCelsius(v) else v
  }

  /** `(max_temp, min_temp)` after the values in order: the maximum is filled while it is `None`, later values overwrite the minimum. */
  function Assign(values: seq<Option<real>>): (Option<real>, Option<real>)
  {
    if values == [] then (None, None)
    else
      var (maxTemp, minTemp) := Assign(values[..|values| - 1]);
      if maxTemp.None? then (values[|values| - 1], minTemp) else (maxTemp, values[|values| - 1])
  }

  function MatchValues(matches: seq<TempMatch>, parse: string -> Option<real>): (r: seq<Option<real>>)
    ensures |r| == |matches|
  {
    seq(|matches|, i requires 0 <= i < |matches| => MatchValue(matches[i], parse))
  }

  method ExtractTemperatures(matches: seq<TempMatch>, parse: string -> Option<real>)
    returns (maxTemp: Option<real>, minTemp: Option<real>)
    ensures (maxTemp, minTemp) == Assign(MatchValues(matches, parse))
  {
    maxTemp, minTemp := None, None;
    ghost var values := MatchValues(matches, parse);
    for i := 0 to |matches|
      invariant (maxTemp, minTemp) == Assign(values[..i])
    {
      assert values[..i + 1][..i] == values[..i];
      var tempVal := NormalizeNumber(matches[i].number, parse);
      if DetectFahrenheit(matches[i].number + matches[i].unit, tempVal) {
        tempVal := FahrenheitToCelsius(tempVal);
      }
      if maxTemp.None? {
        maxTemp := tempVal;
      } else {
        minTemp := tempVal;
      }
    }
    assert values[..|matches|] == values;
  }

  /** With every value parsed, the first is the maximum and the last of two or more is the minimum. */
  lemma {:induction false} AssignAllParsed(values: seq<Option<real>>)
    requires forall i :: 0 <= i < |values| ==> values[i].Some?
    ensures Assign(values).0 == (if values == [] then None else values[0])
    ensures Assign(values).1 == (if |values| < 2 then None else values[|values| - 1])
  {
    if values != [] {
      var init := values[..|values| - 1];
      assert forall i :: 0 <= i < |init| ==> init[i] == values[i];
      AssignAllParsed(init);
    }
  }

  /** A value that failed to parse before any number leaves no trace: the next one becomes the maximum. */
  lemma {:induction false} AssignSkipsLeadingNone(values: seq<Option<real>>)
    ensures Assign([None] + values) == Assign(values)
  {
    if values != [] {
      var init := values[..|values| - 1];
      assert ([None] + values)[..|values|] == [None] + init;
      AssignSkipsLeadingNone(init);
    } else {
      assert ([None] + values)[..0] == [];
    }
  }
}
