/**
 * The per-city normalisers, each of which turns one provider's JSON layout
 * into the common seven-column record, and `combine_normalized_data`, which
 * joins their outputs. The date rules a normaliser applies are a parameter,
 * because the copies in different files call different `normalize_date`s.
 */
module Cities {
  import opened Wrappers
  import opened Dates

  /** One normalised row: `city, date, max, min, precip, wind, humidity`. */
  datatype Record = Record(city: Value, date: Value, max: Value, min: Value, precip: Value, wind: Value, humidity: Value)

  /** A JSON object whose values are scalars, such as one forecast item. */
  type Item = map<string, Value>

  /** `item.get(key, default)`. */
  function Lookup(item: Item, key: string, default: Value): Value
  {
    if key in item then item[key] else default
  }

  // ---------------------------------------------------------------------
  // Tokyo: parallel arrays under `daily`
  // ---------------------------------------------------------------------

  /** `daily.get(key, [])`. */
  function Column(daily: map<string, seq<Value>>, key: string): seq<Value>
  {
    if key in daily then daily[key] else []
  }

  /** `xs[i] if i < len(xs) else default`. */
  function At(xs: seq<Value>, i: nat, default: Value): Value
  {
    if i < |xs| then xs[i] else default
  }

  /** The record the Tokyo loop appends for day `i`. */
  function TokyoRecord(rules: DateRules, daily: map<string, seq<Value>>, i: nat): Record
    requires i < |Column(daily, "time")|
  {
    Record(
      Str("Tokyo"),
      NormalizeDate(rules, Column(daily, "time")[i]),
      At(Column(daily, "temperature_2m_max"), i, Null),
      At(Column(daily, "temperature_2m_min"), i, Null),
      At(Column(daily, "precipitation_sum"), i, Num(0.0)),
      At(Column(daily, "windspeed_10m_max"), i, Null),
      At(Column(daily, "relative_humidity_2m"), i, Null))
  }

  /** Everything `normalize_tokyo_data` returns: one record per entry of `time`. */
  function TokyoRecords(rules: DateRules, daily: map<string, seq<Value>>): seq<Record>
  {
    seq(|Column(daily, "time")|, i requires 0 <= i < |Column(daily, "time")| => TokyoRecord(rules, daily, i))
  }

  method NormalizeTokyoData(rules: DateRules, daily: map<string, seq<Value>>) returns (normalized: seq<Record>)
    ensures normalized == TokyoRecords(rules, daily)
  {
    var dates := Column(daily, "time");
    var maxTemps := Column(daily, "temperature_2m_max");
    var minTemps := Column(daily, "temperature_2m_min");
    var precip := Column(daily, "precipitation_sum");
    var wind := Column(daily, "windspeed_10m_max");
    var humidity := Column(daily, "relative_humidity_2m");
    normalized := [];
    for i := 0 to |dates|
      invariant |normalized| == i
      invariant forall j :: 0 <= j < i ==> normalized[j] == TokyoRecord(rules, daily, j)
    {
      normalized := normalized + [Record(
        Str("Tokyo"),
        NormalizeDate(rules, dates[i]),
        if i < |maxTemps| then maxTemps[i] else Null,
        if i < |minTemps| then minTemps[i] else Null,
        if i < |precip| then precip[i] else Num(0.0),
        if i < |wind| then wind[i] else Null,
        if i < |humidity| then humidity[i] else Null)];
    }
  }

  /** Exactly one record per date, whatever the other arrays' lengths; each is Tokyo's, with the date normalised. */
  lemma TokyoOnePerDate(rules: DateRules, daily: map<string, seq<Value>>)
    ensures var r, dates := TokyoRecords(rules, daily), Column(daily, "time");
      |r| == |dates| &&
      forall i :: 0 <= i < |r| ==> r[i].city == Str("Tokyo") && r[i].date == NormalizeDate(rules, dates[i])
  {
  }

  /**
   * A field takes the array's `i`-th entry while that array reaches day `i`;
   * past its end, precipitation reads `0.0` and every other field `None`.
   */
  lemma TokyoShortArrays(rules: DateRules, daily: map<string, seq<Value>>, i: nat)
    requires i < |Column(daily, "time")|
    ensures var r := TokyoRecords(rules, daily)[i];
      (r.max == if i < |Column(daily, "temperature_2m_max")| then Column(daily, "temperature_2m_max")[i] else Null) &&
      (r.min == if i < |Column(daily, "temperature_2m_min")| then Column(daily, "temperature_2m_min")[i] else Null) &&
      (r.precip == if i < |Column(daily, "precipitation_sum")| then Column(daily, "precipitation_sum")[i] else Num(0.0)) &&
      (r.wind == if i < |Column(daily, "windspeed_10m_max")| then Column(daily, "windspeed_10m_max")[i] else Null) &&
      (r.humidity == if i < |Column(daily, "relative_humidity_2m")| then Column(daily, "relative_humidity_2m")[i] else Null)
  {
  }

  /** The first day of the Tokyo sample file becomes `Tokyo, 2024-08-18, 32.5, 22.5, 0.0, 15.5, 65`. */
  lemma TokyoSampleFirstRow(rules: DateRules)
    ensures var daily := map[
        "time" := [Str("2024-08-18"), Str("2024-08-19"), Str("2024-08-20")],
        "temperature_2m_max" := [Num(32.5), Num(31.8), Num(33.2)],
        "temperature_2m_min" := [Num(22.5), Num(21.9), Num(23.1)],
        "precipitation_sum" := [Num(0.0), Num(2.5), Num(0.0)],
        "windspeed_10m_max" := [Num(15.5), Num(18.2), Num(12.8)],
        "relative_humidity_2m" := [Num(65.0), Num(72.0), Num(68.0)]];
      var r := TokyoRecords(rules, daily);
      |r| == 3 &&
      r[0] == Record(Str("Tokyo"), Str("2024-08-18"), Num(32.5), Num(22.5), Num(0.0), Num(15.5), Num(65.0))
  {
    IsoUnchanged(rules, "2024-08-18");
  }

  // ---------------------------------------------------------------------
  // New York and London: a list of item objects
  // ---------------------------------------------------------------------

  /** A provider file of the list layout: its top-level scalars and its item list (`[]` when the key is absent). */
  datatype Feed = Feed(header: Item, items: seq<Item>)

  /** The record `normalize_newyork_data` appends for one forecast item. */
  function NewYorkRecord(rules: DateRules, city: Value, item: Item): Record
  {
    Record(
      city,
      NormalizeDate(rules, Lookup(item, "date", Null)),
      Lookup(item, "temp_max", Null),
      Lookup(item, "temp_min", Null),
      Lookup(item, "precip", Num(0.0)),
      Lookup(item, "wind", Null),
      Lookup(item, "humidity", Null))
  }

  function NewYorkCity(feed: Feed): Value
  {
    Lookup(feed.header, "location", Str("New York"))
  }

  function NewYorkRecords(rules: DateRules, feed: Feed): seq<Record>
  {
    seq(|feed.items|, i requires 0 <= i < |feed.items| => NewYorkRecord(rules, NewYorkCity(feed), feed.items[i]))
  }

  method NormalizeNewYorkData(rules: DateRules, feed: Feed) returns (normalized: seq<Record>)
    ensures normalized == NewYorkRecords(rules, feed)
  {
    var cityName := Lookup(feed.header, "location", Str("New York"));
    var forecast := feed.items;
    normalized := [];
    for i := 0 to |forecast|
      invariant |normalized| == i
      invariant forall j :: 0 <= j < i ==> normalized[j] == NewYorkRecord(rules, NewYorkCity(feed), forecast[j])
    {
      var item := forecast[i];
      normalized := normalized + [Record(
        cityName,
        NormalizeDate(rules, Lookup(item, "date", Null)),
        Lookup(item, "temp_max", Null),
        Lookup(item, "temp_min", Null),
        Lookup(item, "precip", Num(0.0)),
        Lookup(item, "wind", Null),
        Lookup(item, "humidity", Null))];
    }
  }

  /**
   * One record per item, in item order; the city is `location`, or
   * `'New York'` without one; precipitation defaults to `0.0` and every other
   * absent key to `None`.
   */
  lemma NewYorkPerItem(rules: DateRules, feed: Feed)
    ensures var r := NewYorkRecords(rules, feed);
      |r| == |feed.items| &&
      forall i :: 0 <= i < |r| ==>
        r[i].city == (if "location" in feed.header then feed.header["location"] else Str("New York")) &&
        r[i].date == NormalizeDate(rules, if "date" in feed.items[i] then feed.items[i]["date"] else Null) &&
        (("precip" !in feed.items[i]) ==> r[i].precip == Num(0.0)) &&
        (("temp_max" !in feed.items[i]) ==> r[i].max == Null) &&
        (("temp_min" !in feed.items[i]) ==> r[i].min == Null) &&
        (("wind" !in feed.items[i]) ==> r[i].wind == Null) &&
        (("humidity" !in feed.items[i]) ==> r[i].humidity == Null)
  {
  }

  /** New York's sample item `18/08/2024` comes out dated `2024-18-08`. */
  lemma NewYorkSampleDate(feed: Feed)
    requires |feed.items| > 0 && Lookup(feed.items[0], "date", Null) == Str("18/08/2024")
    ensures NewYorkRecords(WithSlashBranch, feed)[0].date == Str("2024-18-08")
  {
    NewYorkSlashExample();
  }

  /** `item['rainfall']` on an item without that key. */
  datatype KeyError = KeyError(key: string)

  /** The record `normalize_london_data` appends for an item that has a rainfall reading. */
  function LondonRecord(rules: DateRules, city: Value, item: Item): Record
    requires "rainfall" in item
  {
    Record(
      city,
      NormalizeDate(rules, Lookup(item, "timestamp", Null)),
      Lookup(item, "max_temperature", Null),
      Lookup(item, "min_temperature", Null),
      item["rainfall"],
      Lookup(item, "wind_speed", Null),
      Lookup(item, "humidity_percent", Null))
  }

  function LondonCity(feed: Feed): Value
  {
    Lookup(feed.header, "city_name", Str("London"))
  }

  predicate HasRainfall(item: Item)
  {
    "rainfall" in item
  }

  /** What `normalize_london_data` returns, or the error it raises. */
  function LondonRecords(rules: DateRules, feed: Feed): Result<seq<Record>, KeyError>
  {
    if forall i :: 0 <= i < |feed.items| ==> HasRainfall(feed.items[i]) then
      Success(seq(|feed.items|, i requires 0 <= i < |feed.items| && HasRainfall(feed.items[i]) =>
        LondonRecord(rules, LondonCity(feed), feed.items[i])))
    else Failure(KeyError("rainfall"))
  }

  method NormalizeLondonData(rules: DateRules, feed: Feed) returns (r: Result<seq<Record>, KeyError>)
    ensures r == LondonRecords(rules, feed)
  {
    var cityName := Lookup(feed.header, "city_name", Str("London"));
    var weatherData := feed.items;
    var normalized: seq<Record> := [];
    for i := 0 to |weatherData|
      invariant |normalized| == i
      invariant forall j :: 0 <= j < i ==> HasRainfall(weatherData[j])
      invariant forall j :: 0 <= j < i ==> normalized[j] == LondonRecord(rules, LondonCity(feed), weatherData[j])
    {
      var item := weatherData[i];
      if "rainfall" !in item {
        assert !HasRainfall(feed.items[i]);
        return Failure(KeyError("rainfall"));
      }
      normalized := normalized + [Record(
        cityName,
        NormalizeDate(rules, Lookup(item, "timestamp", Null)),
        Lookup(item, "max_temperature", Null),
        Lookup(item, "min_temperature", Null),
        item["rainfall"],
        Lookup(item, "wind_speed", Null),
        Lookup(item, "humidity_percent", Null))];
    }
    assert normalized == LondonRecords(rules, feed).value;
    r := Success(normalized);
  }

  /**
   * A single item without `rainfall`, wherever it sits, fails the whole call:
   * the records built for the items before it are not returned.
   */
  lemma LondonAllOrNothing(rules: DateRules, header: Item, before: seq<Item>, bad: Item, after: seq<Item>)
    requires forall i :: 0 <= i < |before| ==> HasRainfall(before[i])
    requires !HasRainfall(bad)
    ensures LondonRecords(rules, Feed(header, before + [bad] + after)) == Failure(KeyError("rainfall"))
  {
    var items := before + [bad] + after;
    assert items[|before|] == bad;
  }

  /**
   * When every item has a rainfall reading there is one record per item, in
   * order, with the city from `city_name` (`'London'` by default), precipitation
   * from `rainfall`, and the other columns from their renamed keys or `None`.
   */
  lemma LondonPerItem(rules: DateRules, feed: Feed)
    requires forall i :: 0 <= i < |feed.items| ==> HasRainfall(feed.items[i])
    ensures var r := LondonRecords(rules, feed);
      r.Success? && |r.value| == |feed.items| &&
      forall i :: 0 <= i < |feed.items| ==>
        r.value[i].city == (if "city_name" in feed.header then feed.header["city_name"] else Str("London")) &&
        r.value[i].date == NormalizeDate(rules, Lookup(feed.items[i], "timestamp", Null)) &&
        r.value[i].precip == feed.items[i]["rainfall"] &&
        r.value[i].max == Lookup(feed.items[i], "max_temperature", Null) &&
        r.value[i].min == Lookup(feed.items[i], "min_temperature", Null) &&
        r.value[i].wind == Lookup(feed.items[i], "wind_speed", Null) &&
        r.value[i].humidity == Lookup(feed.items[i], "humidity_percent", Null)
  {
  }

  // ---------------------------------------------------------------------
  // combine_normalized_data
  // ---------------------------------------------------------------------

  /** The lists joined end to end, in the order given. */
  function Concat(lists: seq<seq<Record>>): seq<Record>
  {
    if lists == [] then [] else Concat(lists[..|lists| - 1]) + lists[|lists| - 1]
  }

  function TotalLength(lists: seq<seq<Record>>): nat
  {
    if lists == [] then 0 else TotalLength(lists[..|lists| - 1]) + |lists[|lists| - 1]|
  }

  method CombineNormalizedData(lists: seq<seq<Record>>) returns (combined: seq<Record>)
    ensures combined == Concat(lists)
  {
    combined := [];
    for k := 0 to |lists|
      invariant combined == Concat(lists[..k])
    {
      assert lists[..k + 1][..k] == lists[..k];
      combined := combined + lists[k];
    }
    assert lists[..|lists|] == lists;
  }

  /** The combined list is as long as all the city lists together. */
  lemma {:induction false} CombineLength(lists: seq<seq<Record>>)
    ensures |Concat(lists)| == TotalLength(lists)
  {
    if lists != [] {
      CombineLength(lists[..|lists| - 1]);
    }
  }

  /**
   * Position `p` of city list `j` lands right after all records of the lists
   * before it: the inputs keep their order and nothing is sorted.
   */
  lemma {:induction false} CombinePlacement(lists: seq<seq<Record>>, j: nat, p: nat)
    requires j < |lists| && p < |lists[j]|
    ensures TotalLength(lists[..j]) + p < |Concat(lists)|
    ensures Concat(lists)[TotalLength(lists[..j]) + p] == lists[j][p]
  {
    var init := lists[..|lists| - 1];
    CombineLength(init);
    CombineLength(lists[..j]);
    if j == |lists| - 1 {
      assert lists[..j] == init;
    } else {
      assert init[..j] == lists[..j];
      CombinePlacement(init, j, p);
    }
  }
}
