# Crypto ticker ingestion: a Dafny model

This project models the two pieces of a small crypto-ticker streaming system that hold logic.

- **`transform_data`** (pipeline.py) turns one JSON ticker message from the exchange into a row of the
  analytical table. It skips a message that lacks one of the keys `s`, `p`, `h`, `l`, `v`, `E`, and it
  raises when a value does not convert. Otherwise it renders the event time `E` (Unix milliseconds) as
  `YYYY-MM-DD HH:MM:SS` in UTC.
- **`binance_ws` and `publish_message`** (publish.py) are the ingestion loop. The loop connects to the
  exchange's websocket stream, sends the subscription request, and hands every message received to
  `publish_message`, which publishes it to a Pub/Sub topic and swallows any publishing error. A timeout
  costs one of five attempts and a fixed 5-second wait. Any other exception ends the loop.

Layout:

- `wrappers.dfy` (`Wrappers`): `Option` and `Result`.
- `civil_time.dfy` (`CivilTime`): the proleptic Gregorian calendar. It converts POSIX seconds since the
  Epoch to a UTC date and time, the way `datetime.fromtimestamp(…, tz=timezone.utc)` does. The
  seconds-since-the-Epoch formula of section 4.16 of POSIX.1-2017 (Base Definitions) is the reference
  definition it is proved against.
- `timestamp_text.dfy` (`TimestampText`): the 19-character text `strftime('%Y-%m-%d %H:%M:%S')`
  produces, and a parser for it.
- `pipeline.dfy` (`Pipeline`): `transform_data`. `json.loads` and `float()` are parameters. A value of
  the message is of an abstract type, and an exception is a `Raised` outcome.
- `publish.dfy` (`Publish`): `binance_ws` as a pure function. Its input is the sessions the outside
  world offers, one per connection attempt. Each session says whether connecting, subscribing or
  receiving failed, and with which kind of exception, plus the messages received and the broker's reply
  to each. Its output is the sequence of effects the program performs (connect, subscribe, receive,
  publish, sleep) and how the run ended.

What the retry loop does:

- the attempt counter is never reset after a successful connection;
- the wait is a fixed 5 seconds, and it is also taken after the last timeout;
- running out of attempts ends `binance_ws` normally, without raising;
- any exception other than a timeout, including a dropped connection, stops the loop for good.

## Model

| member | source | states |
|---|---|---|
| CivilTime.FromEpochSeconds | pipeline.py:38 | The UTC date and time for a count of seconds is a valid calendar date and time whose POSIX seconds since the Epoch are exactly that count. |
| CivilTime.FromEpochSecondsOfValid | pipeline.py:38 | Every valid date and time is the result for its own POSIX seconds, so the conversion reaches every date and time. |
| CivilTime.EpochSecondsInjective | pipeline.py:38 | Two valid dates and times have the same POSIX seconds only when they are equal. |
| CivilTime.YearInRange | pipeline.py:38 | The year of the converted date lies in 1..9999, which is where `fromtimestamp` succeeds, exactly when the seconds lie between MinEpochSeconds and MaxEpochSeconds. |
| CivilTime.TruncatingFormulaAgreesFromEpoch | pipeline.py:38 | From 1970 on, the POSIX formula with C's truncating division agrees with the floor-division form used for all years. |
| CivilTime.CivilFromDays | pipeline.py:38 | A day number and a time of day yield a valid date and time with that day number and that time of day. |
| TimestampText.Format | pipeline.py:38 | `%Y-%m-%d %H:%M:%S` of a date in years 1..9999 is 19 characters: digits, with `-`, space and `:` at the separator positions. |
| TimestampText.Parse | pipeline.py:38 | Reading fields back succeeds exactly on text in that layout. |
| TimestampText.ParseFormat | pipeline.py:38 | Parsing the rendered text gives back the date and time rendered. |
| TimestampText.FormatParse | pipeline.py:38 | Text in the layout whose fields are a renderable date is the rendering of that date. |
| TimestampText.FormatInjective | pipeline.py:38 | Two renderable dates render to the same text exactly when they are equal. |
| Pipeline.AllPresentMeansEveryRequiredKey | pipeline.py:25-27 | The six-key presence condition holds exactly when every key of `required_keys` is in the message. |
| Pipeline.FirstMissingKey | pipeline.py:25-29 | The key loop stops at a key exactly when one is absent, and it stops at the first absent key in list order. |
| Pipeline.ParseNumber | pipeline.py:33-36 | `float()` of a price or volume value fails exactly when the conversion rejects the value, and it names that key. |
| Pipeline.ParseMillis | pipeline.py:38 | `float()` of the event time fails exactly when the conversion rejects the value, and it names `E`. |
| Pipeline.EventTimestamp | pipeline.py:38 | The text is produced exactly when the second `E / 1000` (rounded down) is in the datetime range; it is in the timestamp layout; otherwise the call raises an out-of-range error. |
| Pipeline.EventTimestampRoundTrip | pipeline.py:38 | For an event time whose second is in range, the timestamp text parses back to a date in years 1..9999 whose POSIX seconds are the event time rounded down to the second. |
| Pipeline.EventTimestampSecondGranularity | pipeline.py:38 | Two event times give the same timestamp exactly when they fall in the same second. |
| Pipeline.MakeRowConforms | pipeline.py:11-39 | The literal's field names and their order are SCHEMA's; `symbol` holds `s` as copied, `price`, `high_price`, `low_price` and `volume` hold `float()` results, and `timestamp` holds text in the timestamp layout. |
| Pipeline.RowOf | pipeline.py:31-39 | Evaluating the literal either yields a row that conforms to SCHEMA and carries `s` unchanged, or raises an error that is not a decoding error. |
| Pipeline.TransformFields | pipeline.py:24-41 | The call returns None exactly when a required key is absent. A raise happens only with every key present. A returned row conforms to SCHEMA and carries `s` unchanged. |
| Pipeline.MissingKeySkips | pipeline.py:25-29 | Skipping happens exactly when some required key is absent, and the reported key is the first absent one in the order `s, p, h, l, v, E`. |
| Pipeline.TransformData | pipeline.py:21-22 | The call raises a decoding error exactly when `json.loads` rejects the message. |
| Pipeline.BuildRowSteps | pipeline.py:31-38 | Conversions run left to right, `p`, `h`, `l`, `v` then `E`; the first one that fails decides the error; when all succeed the row is the literal over their results, unless the date is out of range. |
| Pipeline.MalformedNumberRaises | pipeline.py:31-38 | A conversion error is raised exactly when every key is present and some value does not convert, and it names the first such key in evaluation order. |
| Pipeline.OtherKeysIgnored | pipeline.py:25-39 | Two messages that agree on the six required keys are normalised alike; no other key affects the outcome. |
| Pipeline.EmittedWhenAllConvert | pipeline.py:25-41 | A row is returned exactly when all six keys are present, all five conversions succeed and the date lies in years 1..9999. |
| Pipeline.EmittedRowContents | pipeline.py:31-39 | When every key is present, every value converts and the date is in range, a row is returned, and it holds, field by field: `s` as it came, `float()` of `p`, `h`, `l` and `v`, and the text of `E`'s second. |
| Publish.PublishMessage | publish.py:14-19 | Each call publishes the data to TOPIC_PATH, and reports an error, without raising, exactly when the broker rejects it. |
| Publish.DeliverMessages | publish.py:44-47 | The receive loop receives, and publishes, each message of the connection once, in receipt order. |
| Publish.SessionControl | publish.py:39-41 | One attempt connects once, numbered with its attempt, and does not wait. |
| Publish.SessionMessages | publish.py:39-47 | One attempt receives, and publishes, exactly the messages delivered on its connection, in order. |
| Publish.LeadingTimeoutsMeaning | publish.py:49-51 | The count of leading timed-out sessions covers exactly the sessions before the first one that did not time out. |
| Publish.RunFromAttempts | publish.py:36-54 | From attempt `a` on, the loop connects once per attempt it makes, with the attempt numbers read off the sessions: `a`, then the next one only after a timeout, until the budget or the sessions run out. |
| Publish.ConnectsFromRange | publish.py:36-51 | Those attempt numbers are `a, a+1, …`: one per timeout that follows `a`, plus one, capped by the attempts left and the sessions observed. |
| Publish.RangeElements | publish.py:36 | `range` from `lo` to `hi` holds `hi - lo` numbers counting up from `lo`. |
| Publish.RunFromEnding | publish.py:36-54 | From attempt `a` on, after the timeouts that follow `a`: the budget running out gives `Exhausted`; the sessions running out or an open connection give `Running`; otherwise that session's error is not a timeout and the run stops with its message. |
| Publish.RunFromSleeps | publish.py:49-51 | From attempt `a` on, the loop waits 5 seconds once per timeout, and at no other time. |
| Publish.RunFromMessages | publish.py:44-47 | From attempt `a` on, the data received, and the data published, are the messages of the attempts made, in order. |
| Publish.BinanceWsAttempts | publish.py:35-39 | A run makes at most five connection attempts, numbered 0, 1, … in order. |
| Publish.BinanceWsEnding | publish.py:35-54 | The run ends without error after five timeouts in a row. Any other exception at the first non-timeout attempt stops it, carries that exception's message and uses attempts up to and including that one. Otherwise the run is still going: receiving on an open connection, or about to reconnect when the observed sessions end. |
| Publish.BinanceWsEndsAsExpected | publish.py:35-54 | The run's ending is the one read off the sessions: the timeouts count, then the next session decides. |
| Publish.BinanceWsBackoff | publish.py:49-51 | The waits are 5 seconds each, one per leading timeout and at most five, the last attempt included. |
| Publish.BinanceWsPublishesEachMessageOnce | publish.py:44-47 | The data received and the data published are the same sequence: the messages of the attempts made, in order, each once. |
| Publish.RetryBudgetIsPerRun | publish.py:35-36 | Only which attempts time out, fail otherwise or stay open decides the number of attempts, the waits and the ending; messages received do not reset the counter. |
| Publish.DeliverIgnoresReplies | publish.py:14-19 | Whatever the broker replies, the receive loop performs the same receives and publishes. |
| Publish.SessionIgnoresReplies | publish.py:14-19 | Whatever the broker replies, one attempt performs the same actions. |
| Publish.RunFromIgnoresReplies | publish.py:14-54 | From attempt `a` on, broker replies change neither the actions nor the ending. |
| Publish.PublishFailureSwallowed | publish.py:14-54 | A failed publish never alters the run: the same actions in the same order, and the same ending. |
| Publish.DeliverFollowsProtocol | publish.py:44-47 | The receive loop alternates receive and publish and returns to the subscribed state. |
| Publish.SessionFollowsProtocol | publish.py:39-47 | One attempt is a connect, then a subscribe unless the connect failed, then receive/publish pairs. |
| Publish.RunFromFollowsProtocol | publish.py:36-54 | From attempt `a` on, every action is allowed by the protocol automaton, and no receive is left unpublished. |
| Publish.BinanceWsFollowsProtocol | publish.py:36-54 | A run is accepted by the automaton: connect with the next attempt number, subscribe, receive then publish each message, wait 5 seconds only after a failed attempt, and never leave a received message unpublished. |
| Publish.ProtocolBoundsAttempts | publish.py:35-36 | Any action sequence the automaton accepts connects at most as often as the attempts it has left, so at most five times from the start. |

## Left out

- The Apache Beam pipeline (pipeline.py:43 on): reading from the Pub/Sub subscription, windowing, the trigger, and the BigQuery write. It is framework wiring with no logic of its own beyond calling `transform_data`.
- The Pub/Sub, websocket and BigQuery clients, `asyncio`, and `time.sleep`. These are I/O. A session is a parameter that stands for what the network does, a broker reply stands for the publish future, and a sleep is recorded as an effect.
- The `print` calls. Only their content matters, and it is kept where it is data: the skipped key, the publish report, and the message of the error that stopped the loop.
- Pipeline.TransformData: `json.loads` is a parameter that returns a dictionary or fails. A message that decodes to a JSON value other than an object (a list or a number) is not modelled; in Python, `key not in data` on it would raise or behave differently.
- Pipeline.ParseNumber: `float()` is a parameter whose result type is abstract. Its acceptance rules and IEEE-754 rounding are not modelled.
- Pipeline.ParseMillis: the event time is taken as a whole number of milliseconds, and the second is `E` divided by 1000, rounded down. A fractional `E` and the floating-point rounding of `float(E) / 1000` near a second boundary or at the ends of the datetime range are not modelled.
- Pipeline.MakeRowConforms: the JSON type of `s` is not checked against SCHEMA's STRING, as in the source, which copies `data['s']` whatever value it holds.
- Pipeline.EventTimestamp: leap seconds are not counted, as in POSIX time. The year is rendered with four zero-padded digits; some C libraries print years below 1000 without padding.
- Publish.BinanceWs: the websocket stream is unbounded, so a run is observed over finitely many sessions, and the `Running` ending marks where the observation stops. Exceptions outside `Exception`, such as task cancellation and `KeyboardInterrupt`, are not modelled.
- Publish.PublishMessage: the ways a publish can fail (a `bytes` message without `.encode`, the client raising, the future raising) are one `Rejected` reply; all of them are caught the same way.
- The script entry point (publish.py:56-58) only runs the loop.
