/** `transform_data` of pipeline.py: turns one decoded ticker message into a row of
    the output table, skips it when a required key is absent, or raises.

    The values of the message are of an abstract type `V`. `json.loads`, `float()`
    and the conversion of the event time `E` are partial functions handed in by the
    caller; a failing call stands for the exception Python would raise. */
module Pipeline {
  import opened Wrappers
  import opened CivilTime
  import opened TimestampText

  /** The keys of a ticker message that must be present, in the order the code looks for them:
      symbol, last price, high, low, volume, event time in milliseconds. */
  const RequiredKeys: seq<string> := ["s", "p", "h", "l", "v", "E"]

  /** The keys whose values go through `float()` as prices and volume, in the order the row is built;
      the event time `E` is converted after them. */
  const PriceKeys: seq<string> := ["p", "h", "l", "v"]

  datatype FieldType = StringType | FloatType | TimestampType

  datatype FieldMode = Nullable

  datatype SchemaField = SchemaField(name: string, fieldType: FieldType, mode: FieldMode)

  /** The table schema handed to the BigQuery sink. */
  const Schema: seq<SchemaField> := [
    SchemaField("symbol", StringType, Nullable),
    SchemaField("price", FloatType, Nullable),
    SchemaField("high_price", FloatType, Nullable),
    SchemaField("low_price", FloatType, Nullable),
    SchemaField("volume", FloatType, Nullable),
    SchemaField("timestamp", TimestampType, Nullable)
  ]

  /** One value of an output row: the message value copied as it came, a number
      returned by `float()`, or the timestamp text. */
  datatype Cell<V, F> = Copied(value: V) | Number(number: F) | Text(text: string)

  /** An output row: a dictionary, as its (key, value) pairs in insertion order. */
  type Row<V, F> = seq<(string, Cell<V, F>)>

  /** The exceptions `transform_data` can let escape. */
  datatype TransformError =
    | MalformedJson                    // json.loads raised
    | MalformedNumber(key: string)     // float() raised on the value of `key`
    | TimestampOutOfRange(seconds: int) // fromtimestamp raised: the date is outside years 1..9999

  /** What one call of `transform_data` does: returns None, returns a row, or raises. */
  datatype Transformed<V, F> = Skipped(missingKey: string) | Emitted(row: Row<V, F>) | Raised(failure: TransformError)

  /** The library calls the normaliser makes. `toMillis` is `float()` applied to the
      value of `E`, read as a whole number of milliseconds. */
  datatype Parsers<-M, !V, F> = Parsers(
    loads: M -> Option<map<string, V>>,
    toFloat: V -> Option<F>,
    toMillis: V -> Option<int>)

  predicate CellFits<V, F>(cell: Cell<V, F>, fieldType: FieldType) {
    match fieldType
    case StringType => cell.Copied?
    case FloatType => cell.Number?
    case TimestampType => cell.Text? && IsTimestampLayout(cell.text)
  }

  /** The row has the schema's field names, in the schema's order. The STRING field holds the
      message's value as copied, whatever JSON value it is; the FLOAT fields hold `float()`
      results; the TIMESTAMP field holds text in the timestamp layout. */
  predicate ConformsToSchema<V, F>(row: Row<V, F>) {
    && |row| == |Schema|
    && forall i | 0 <= i < |row| :: row[i].0 == Schema[i].name && CellFits(row[i].1, Schema[i].fieldType)
  }

  predicate AllPresent<V>(data: map<string, V>) {
    "s" in data && "p" in data && "h" in data && "l" in data && "v" in data && "E" in data
  }

  lemma AllPresentMeansEveryRequiredKey<V>(data: map<string, V>)
    ensures AllPresent(data) <==> forall i | 0 <= i < |RequiredKeys| :: RequiredKeys[i] in data
  {
    assert "s" == RequiredKeys[0] && "p" == RequiredKeys[1] && "h" == RequiredKeys[2];
    assert "l" == RequiredKeys[3] && "v" == RequiredKeys[4] && "E" == RequiredKeys[5];
  }

  /** `float()` accepts the value of `key`. */
  predicate FloatConverts<M, V, F>(data: map<string, V>, key: string, parsers: Parsers<M, V, F>) {
    key in data && parsers.toFloat(data[key]).Some?
  }

  /** `float()` accepts the value of `E` as a whole number of milliseconds. */
  predicate MillisConverts<M, V, F>(data: map<string, V>, parsers: Parsers<M, V, F>) {
    "E" in data && parsers.toMillis(data["E"]).Some?
  }

  /** The first of `keys` absent from `data`, or None when all are present. */
  function FirstMissingKey<V>(data: map<string, V>, keys: seq<string>): (r: Option<string>)
    ensures r.None? <==> forall i | 0 <= i < |keys| :: keys[i] in data
    ensures r.Some? ==> exists i | 0 <= i < |keys| ::
      && keys[i] == r.value && keys[i] !in data
      && forall j | 0 <= j < i :: keys[j] in data
  {
    if keys == [] then None
    else if keys[0] !in data then Some(keys[0])
    else
      var r := FirstMissingKey(data, keys[1..]);
      assert forall i | 1 <= i < |keys| :: keys[i] == keys[1..][i - 1];
      r
  }

  /** `float(value)` for the value of `key`; raising names the key. */
  function ParseNumber<M, V, F>(value: V, key: string, parsers: Parsers<M, V, F>): (r: Result<F, TransformError>)
    ensures r.Failure? <==> parsers.toFloat(value).None?
    ensures r.Failure? ==> r.error == MalformedNumber(key)
  {
    match parsers.toFloat(value)
    case Some(f) => Success(f)
    case None => Failure(MalformedNumber(key))
  }

  /** `float(value) / 1000` for the event time, as whole milliseconds; raising names the key. */
  function ParseMillis<M, V, F>(value: V, key: string, parsers: Parsers<M, V, F>): (r: Result<int, TransformError>)
    ensures r.Failure? <==> parsers.toMillis(value).None?
    ensures r.Failure? ==> r.error == MalformedNumber(key)
  {
    match parsers.toMillis(value)
    case Some(ms) => Success(ms)
    case None => Failure(MalformedNumber(key))
  }

  /** `datetime.fromtimestamp(E / 1000, tz=timezone.utc).strftime('%Y-%m-%d %H:%M:%S')`
      for an event time of `millis` milliseconds: the second is `millis / 1000`
      rounded down, and the call raises outside years 1 through 9999. */
  function EventTimestamp(millis: int): (r: Result<string, TransformError>)
    ensures r.Success? <==> MinEpochSeconds <= millis / 1000 <= MaxEpochSeconds
    ensures r.Success? ==> IsTimestampLayout(r.value)
    ensures r.Failure? ==> r.error == TimestampOutOfRange(millis / 1000)
  {
    var seconds := millis / 1000;
    var dt := FromEpochSeconds(seconds);
    YearInRange(seconds);
    if MinYear <= dt.year <= MaxYear then Success(Format(dt))
    else Failure(TimestampOutOfRange(seconds))
  }

  /** The dictionary literal of `transform_data`, given its evaluated values. */
  function MakeRow<V, F>(symbol: V, price: F, high: F, low: F, volume: F, stamp: string): Row<V, F> {
    [("symbol", Copied(symbol)),
     ("price", Number(price)),
     ("high_price", Number(high)),
     ("low_price", Number(low)),
     ("volume", Number(volume)),
     ("timestamp", Text(stamp))]
  }

  /** The dictionary literal names the schema's fields, in the schema's order: `symbol` holds `s`
      as copied, the four numbers hold `float()` results, `timestamp` holds layout text. */
  lemma MakeRowConforms<V, F>(symbol: V, price: F, high: F, low: F, volume: F, stamp: string)
    requires IsTimestampLayout(stamp)
    ensures ConformsToSchema(MakeRow(symbol, price, high, low, volume, stamp))
  {
    var row := MakeRow(symbol, price, high, low, volume, stamp);
    assert forall i | 0 <= i < |row| :: row[i].0 == Schema[i].name && CellFits(row[i].1, Schema[i].fieldType);
  }

  /** The values of the dictionary literal, evaluated left to right from the values of
      `s`, `p`, `h`, `l`, `v` and `E`; the first call that raises ends it. */
  function RowOf<M, V, F>(s: V, p: V, h: V, l: V, v: V, e: V, parsers: Parsers<M, V, F>): (r: Result<Row<V, F>, TransformError>)
    ensures r.Success? ==> ConformsToSchema(r.value) && r.value[0].1 == Copied(s)
    ensures r.Failure? ==> r.error != MalformedJson
  {
    var price :- ParseNumber(p, "p", parsers);
    var high :- ParseNumber(h, "h", parsers);
    var low :- ParseNumber(l, "l", parsers);
    var volume :- ParseNumber(v, "v", parsers);
    var millis :- ParseMillis(e, "E", parsers);
    var stamp :- EventTimestamp(millis);
    MakeRowConforms(s, price, high, low, volume, stamp);
    Success(MakeRow(s, price, high, low, volume, stamp))
  }

  /** The dictionary literal over the message's values. */
  function BuildRow<M, V, F>(data: map<string, V>, parsers: Parsers<M, V, F>): Result<Row<V, F>, TransformError>
    requires AllPresent(data)
  {
    RowOf(data["s"], data["p"], data["h"], data["l"], data["v"], data["E"], parsers)
  }

  /** `transform_data` after `json.loads` has produced the dictionary `data`. */
  function TransformFields<M, V, F>(data: map<string, V>, parsers: Parsers<M, V, F>): (r: Transformed<V, F>)
    // None exactly when a required key is absent
    ensures r.Skipped? <==> !AllPresent(data)
    // a value float() rejects raises; it is not a skip
    ensures r.Raised? ==> AllPresent(data) && r.failure != MalformedJson
    // a row has the schema's shape, and its symbol is the message's `s` value, untouched
    ensures r.Emitted? ==> AllPresent(data) && ConformsToSchema(r.row) && r.row[0].1 == Copied(data["s"])
  {
    AllPresentMeansEveryRequiredKey(data);
    match FirstMissingKey(data, RequiredKeys)
    case Some(key) => Skipped(key)
    case None =>
      match BuildRow(data, parsers)
      case Success(row) => Emitted(row)
      case Failure(failure) => Raised(failure)
  }

  /** The call returns None exactly when one of `s`, `p`, `h`, `l`, `v`, `E` is absent,
      and the key it stops at is the first absent one in that order. */
  lemma MissingKeySkips<M, V, F>(data: map<string, V>, parsers: Parsers<M, V, F>)
    ensures TransformFields(data, parsers).Skipped? <==> exists i | 0 <= i < |RequiredKeys| :: RequiredKeys[i] !in data
    ensures var r := TransformFields(data, parsers);
      r.Skipped? ==> exists i | 0 <= i < |RequiredKeys| ::
        && RequiredKeys[i] == r.missingKey && RequiredKeys[i] !in data
        && forall j | 0 <= j < i :: RequiredKeys[j] in data
  {
    AllPresentMeansEveryRequiredKey(data);
  }

  /** `transform_data(message)`: decode, then normalise. */
  function TransformData<M, V, F>(message: M, parsers: Parsers<M, V, F>): (r: Transformed<V, F>)
    ensures parsers.loads(message).None? <==> r == Raised(MalformedJson)
  {
    match parsers.loads(message)
    case None => Raised(MalformedJson)
    case Some(data) => TransformFields(data, parsers)
  }

  /** Every value of the dictionary literal converts. */
  predicate AllConvert<M, V, F>(data: map<string, V>, parsers: Parsers<M, V, F>) {
    && FloatConverts(data, "p", parsers) && FloatConverts(data, "h", parsers)
    && FloatConverts(data, "l", parsers) && FloatConverts(data, "v", parsers)
    && MillisConverts(data, parsers)
  }

  /** `BuildRow`, one conversion at a time. */
  lemma BuildRowSteps<M, V, F>(data: map<string, V>, parsers: Parsers<M, V, F>)
    requires AllPresent(data)
    ensures !FloatConverts(data, "p", parsers) ==> BuildRow(data, parsers) == Failure(MalformedNumber("p"))
    ensures FloatConverts(data, "p", parsers) && !FloatConverts(data, "h", parsers)
            ==> BuildRow(data, parsers) == Failure(MalformedNumber("h"))
    ensures FloatConverts(data, "p", parsers) && FloatConverts(data, "h", parsers) && !FloatConverts(data, "l", parsers)
            ==> BuildRow(data, parsers) == Failure(MalformedNumber("l"))
    ensures FloatConverts(data, "p", parsers) && FloatConverts(data, "h", parsers) && FloatConverts(data, "l", parsers)
            && !FloatConverts(data, "v", parsers)
            ==> BuildRow(data, parsers) == Failure(MalformedNumber("v"))
    ensures FloatConverts(data, "p", parsers) && FloatConverts(data, "h", parsers) && FloatConverts(data, "l", parsers)
            && FloatConverts(data, "v", parsers) && !MillisConverts(data, parsers)
            ==> BuildRow(data, parsers) == Failure(MalformedNumber("E"))
    ensures AllConvert(data, parsers) ==>
            var stamp := EventTimestamp(parsers.toMillis(data["E"]).value);
            BuildRow(data, parsers)
            == if stamp.Failure? then Failure(stamp.error)
               else Success(MakeRow(data["s"], parsers.toFloat(data["p"]).value, parsers.toFloat(data["h"]).value,
                                    parsers.toFloat(data["l"]).value, parsers.toFloat(data["v"]).value, stamp.value))
  {
  }

  /** A value `float()` rejects makes the call raise, naming the first such key in
      evaluation order (`p`, `h`, `l`, `v`, then `E`); this happens only when every
      required key is present. */
  lemma MalformedNumberRaises<M, V, F>(data: map<string, V>, parsers: Parsers<M, V, F>)
    ensures var r := TransformFields(data, parsers);
      r.Raised? && r.failure.MalformedNumber?
      <==> AllPresent(data) && !AllConvert(data, parsers)
    ensures var r := TransformFields(data, parsers);
      r.Raised? && r.failure.MalformedNumber? ==>
        || (exists i | 0 <= i < |PriceKeys| ::
              && PriceKeys[i] == r.failure.key && !FloatConverts(data, PriceKeys[i], parsers)
              && forall j | 0 <= j < i :: FloatConverts(data, PriceKeys[j], parsers))
        || (&& r.failure.key == "E" && !MillisConverts(data, parsers)
            && forall j | 0 <= j < |PriceKeys| :: FloatConverts(data, PriceKeys[j], parsers))
  {
    if AllPresent(data) {
      BuildRowSteps(data, parsers);
      var r := TransformFields(data, parsers);
      assert r.Raised? <==> BuildRow(data, parsers).Failure?;
      assert PriceKeys[0] == "p" && PriceKeys[1] == "h" && PriceKeys[2] == "l" && PriceKeys[3] == "v";
      if !FloatConverts(data, "p", parsers) {
        assert PriceKeys[0] == r.failure.key;
      } else if !FloatConverts(data, "h", parsers) {
        assert PriceKeys[1] == r.failure.key;
      } else if !FloatConverts(data, "l", parsers) {
        assert PriceKeys[2] == r.failure.key;
      } else if !FloatConverts(data, "v", parsers) {
        assert PriceKeys[3] == r.failure.key;
      }
    }
  }

  /** The timestamp text reads back as a valid date and time in years 1..9999 whose
      POSIX seconds since the Epoch are `millis / 1000`, the event time rounded down to the second. */
  lemma EventTimestampRoundTrip(millis: int)
    requires MinEpochSeconds <= millis / 1000 <= MaxEpochSeconds
    ensures EventTimestamp(millis).Success? && Parse(EventTimestamp(millis).value).Some?
    ensures var dt := Parse(EventTimestamp(millis).value).value;
      && Renderable(dt)
      && PosixSecondsSinceEpoch(ToBrokenDown(dt)) == millis / 1000
  {
    var dt := FromEpochSeconds(millis / 1000);
    YearInRange(millis / 1000);
    ParseFormat(dt);
  }

  /** The timestamp keeps whole seconds only: two event times give the same text
      exactly when they fall in the same second. */
  lemma EventTimestampSecondGranularity(a: int, b: int)
    requires MinEpochSeconds <= a / 1000 <= MaxEpochSeconds
    ensures EventTimestamp(a) == EventTimestamp(b) <==> a / 1000 == b / 1000
  {
    if EventTimestamp(a) == EventTimestamp(b) {
      EventTimestampRoundTrip(a);
      EventTimestampRoundTrip(b);
    }
  }

  lemma {:induction false} FirstMissingKeyAgrees<V>(data: map<string, V>, other: map<string, V>, keys: seq<string>)
    requires forall i | 0 <= i < |keys| :: keys[i] in data <==> keys[i] in other
    ensures FirstMissingKey(data, keys) == FirstMissingKey(other, keys)
    decreases |keys|
  {
    if keys != [] && keys[0] in data {
      assert forall i | 0 <= i < |keys| - 1 :: keys[1..][i] == keys[i + 1];
      FirstMissingKeyAgrees(data, other, keys[1..]);
    }
  }

  /** Two dictionaries that agree on the required keys are normalised alike:
      no other key affects the outcome. */
  lemma OtherKeysIgnored<M, V, F>(data: map<string, V>, other: map<string, V>, parsers: Parsers<M, V, F>)
    requires forall i | 0 <= i < |RequiredKeys| :: RequiredKeys[i] in data <==> RequiredKeys[i] in other
    requires forall i | 0 <= i < |RequiredKeys| && RequiredKeys[i] in data :: data[RequiredKeys[i]] == other[RequiredKeys[i]]
    ensures TransformFields(data, parsers) == TransformFields(other, parsers)
  {
    FirstMissingKeyAgrees(data, other, RequiredKeys);
    if AllPresent(data) {
      AllPresentMeansEveryRequiredKey(data);
      assert "s" == RequiredKeys[0] && "p" == RequiredKeys[1] && "h" == RequiredKeys[2];
      assert "l" == RequiredKeys[3] && "v" == RequiredKeys[4] && "E" == RequiredKeys[5];
      assert data["s"] == other["s"] && data["p"] == other["p"] && data["h"] == other["h"];
      assert data["l"] == other["l"] && data["v"] == other["v"] && data["E"] == other["E"];
    }
  }

  /** A row comes out exactly when every key is present, every value converts and
      the date falls in years 1..9999. */
  lemma EmittedWhenAllConvert<M, V, F>(data: map<string, V>, parsers: Parsers<M, V, F>)
    ensures TransformFields(data, parsers).Emitted? <==>
      && AllPresent(data)
      && AllConvert(data, parsers)
      && MinEpochSeconds <= parsers.toMillis(data["E"]).value / 1000 <= MaxEpochSeconds
  {
    if AllPresent(data) {
      AllPresentMeansEveryRequiredKey(data);
      BuildRowSteps(data, parsers);
      var built := BuildRow(data, parsers);
      assert TransformFields(data, parsers).Emitted? <==> built.Success?;
    }
  }

  /** When every key is present, every value converts and the date is in range, the row
      carries, field by field, the values of the required keys: `s` as it came, the results
      of `float()` on `p`, `h`, `l`, `v`, and the text of `E`'s second. */
  lemma EmittedRowContents<M, V, F>(data: map<string, V>, parsers: Parsers<M, V, F>)
    requires AllPresent(data) && AllConvert(data, parsers)
    requires MinEpochSeconds <= parsers.toMillis(data["E"]).value / 1000 <= MaxEpochSeconds
    ensures TransformFields(data, parsers).Emitted?
    ensures EventTimestamp(parsers.toMillis(data["E"]).value).Success?
    ensures TransformFields(data, parsers).row
         == MakeRow(data["s"], parsers.toFloat(data["p"]).value, parsers.toFloat(data["h"]).value,
                    parsers.toFloat(data["l"]).value, parsers.toFloat(data["v"]).value,
                    EventTimestamp(parsers.toMillis(data["E"]).value).value)
  {
    EmittedWhenAllConvert(data, parsers);
    AllPresentMeansEveryRequiredKey(data);
    BuildRowSteps(data, parsers);
    assert TransformFields(data, parsers).row == BuildRow(data, parsers).value;
  }
}
