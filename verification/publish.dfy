/** The ingestion side of publish.py: `binance_ws` connects to the ticker stream,
    sends the subscription request, and hands every message it receives to
    `publish_message`, retrying the connection up to five times after a timeout.

    The network is not modelled. What the outside world does during one
    connection attempt is a `Session`; a run of `binance_ws` is a pure function of
    the sessions the world offers, in order, and what the program does is a
    sequence of `Effect`s plus how the run ended. */
module Publish {
  import opened Wrappers

  const StreamUrl: string := "wss://stream.binance.com:9443/ws"

  const TopicPath: string := "projects/crypto-solutions-438021/topics/crypto-stream"

  /** `json.dumps(params)`: the same subscription request on every connection. */
  const SubscriptionRequest: string :=
    "{\"method\": \"SUBSCRIBE\", \"params\": [\"btcusdt@ticker\", \"ethusdt@ticker\", \"bnbusdt@ticker\"], \"id\": 1}"

  /** `retries`: the loop makes at most this many connection attempts per run. */
  const MaxAttempts: nat := 5

  /** The fixed wait after a timeout, in seconds. */
  const RetryDelaySeconds: nat := 5

  /** An exception escaping an attempt: `asyncio.TimeoutError`, or any other. */
  datatype ErrorKind = Timeout | OtherError(message: string)

  /** What the Pub/Sub publisher does with one message: the future resolves to a
      message id, or something on the way (encoding, publish, result) raises. */
  datatype BrokerReply = Accepted(messageId: string) | Rejected(reason: string)

  /** One message received on the websocket, with the broker's reply to publishing it. */
  datatype Delivery = Delivery(data: string, reply: BrokerReply)

  /** What the world does during one connection attempt. */
  datatype Session =
    | ConnectFailed(error: ErrorKind)                         // websockets.connect raised
    | SubscribeFailed(error: ErrorKind)                       // websocket.send raised
    | Dropped(deliveries: seq<Delivery>, error: ErrorKind)    // these messages, then recv raised
    | Open(deliveries: seq<Delivery>)                         // these messages, and the observation ends

  /** The line `publish_message` prints: the message id, or the swallowed error. */
  datatype PublishReport = Published(messageId: string) | PublishError(reason: string)

  /** What the program does, in order. */
  datatype Effect =
    | Connect(url: string, attempt: nat)
    | Subscribe(request: string)
    | Receive(data: string)
    | PublishTo(topic: string, data: string, report: PublishReport)
    | Sleep(seconds: nat)

  /** How a run ends. `binance_ws` returns normally in the first two cases. */
  datatype Ending =
    | Exhausted              // every attempt timed out and the `for` loop ran out
    | Stopped(error: string) // another exception: `break`, no further attempt
    | Running                // the observed sessions end while the run is still going

  datatype RunResult = RunResult(effects: seq<Effect>, ending: Ending)

  /** `publish_message(data)`: publishes to the topic and reports the outcome;
      a failure is caught and reported, never raised. */
  function PublishMessage(data: string, reply: BrokerReply): (e: Effect)
    ensures e.PublishTo? && e.topic == TopicPath && e.data == data
    ensures e.report.PublishError? <==> reply.Rejected?
  {
    match reply
    case Accepted(id) => PublishTo(TopicPath, data, Published(id))
    case Rejected(reason) => PublishTo(TopicPath, data, PublishError(reason))
  }

  /** The receive loop: each message is received, then published, before the next receive. */
  function Deliver(ds: seq<Delivery>): seq<Effect> {
    if ds == [] then []
    else [Receive(ds[0].data), PublishMessage(ds[0].data, ds[0].reply)] + Deliver(ds[1..])
  }

  function SessionEffects(attempt: nat, s: Session): seq<Effect> {
    match s
    case ConnectFailed(_) => [Connect(StreamUrl, attempt)]
    case SubscribeFailed(_) => [Connect(StreamUrl, attempt), Subscribe(SubscriptionRequest)]
    case Dropped(ds, _) => [Connect(StreamUrl, attempt), Subscribe(SubscriptionRequest)] + Deliver(ds)
    case Open(ds) => [Connect(StreamUrl, attempt), Subscribe(SubscriptionRequest)] + Deliver(ds)
  }

  /** The attempt ended with `asyncio.TimeoutError`. */
  predicate TimedOut(s: Session) {
    !s.Open? && s.error == Timeout
  }

  /** Effects selected from a sequence, each mapped to a value. */
  function Filter<X>(es: seq<Effect>, pick: Effect -> Option<X>): seq<X> {
    if es == [] then []
    else (match pick(es[0]) case Some(x) => [x] case None => []) + Filter(es[1..], pick)
  }

  function ConnectAttempt(e: Effect): Option<nat> {
    if e.Connect? then Some(e.attempt) else None
  }

  function ReceivedData(e: Effect): Option<string> {
    if e.Receive? then Some(e.data) else None
  }

  function PublishedData(e: Effect): Option<string> {
    if e.PublishTo? then Some(e.data) else None
  }

  function SleepSeconds(e: Effect): Option<nat> {
    if e.Sleep? then Some(e.seconds) else None
  }

  lemma {:induction false} FilterAppend<X>(a: seq<Effect>, b: seq<Effect>, pick: Effect -> Option<X>)
    ensures Filter(a + b, pick) == Filter(a, pick) + Filter(b, pick)
    decreases |a|
  {
    if a != [] {
      assert (a + b)[0] == a[0] && (a + b)[1..] == a[1..] + b;
      FilterAppend(a[1..], b, pick);
      var head := match pick(a[0]) case Some(x) => [x] case None => [];
      assert Filter(a + b, pick) == head + Filter(a[1..] + b, pick);
      assert Filter(a, pick) == head + Filter(a[1..], pick);
      assert head + (Filter(a[1..], pick) + Filter(b, pick)) == (head + Filter(a[1..], pick)) + Filter(b, pick);
    } else {
      assert a + b == b;
    }
  }

  /** `for attempt in range(retries)`, from attempt `attempt` on. */
  function RunFrom(sessions: seq<Session>, attempt: nat): RunResult
    requires attempt <= MaxAttempts
    decreases MaxAttempts - attempt
  {
    if attempt == MaxAttempts then RunResult([], Exhausted)
    else if attempt >= |sessions| then RunResult([], Running)
    else
      var s := sessions[attempt];
      var effects := SessionEffects(attempt, s);
      if s.Open? then RunResult(effects, Running)
      else match s.error
        case OtherError(message) => RunResult(effects, Stopped(message))
        case Timeout =>
          var rest := RunFrom(sessions, attempt + 1);
          RunResult(effects + [Sleep(RetryDelaySeconds)] + rest.effects, rest.ending)
  }

  /** `binance_ws()`. */
  function BinanceWs(sessions: seq<Session>): RunResult {
    RunFrom(sessions, 0)
  }

  /* ---------- Effects of one session ---------- */

  lemma FilterSingle<X>(e: Effect, pick: Effect -> Option<X>)
    ensures Filter([e], pick) == match pick(e) case Some(x) => [x] case None => []
  {
    assert [e][1..] == [];
  }

  lemma FilterPair<X>(x: Effect, y: Effect, rest: seq<Effect>, pick: Effect -> Option<X>)
    ensures Filter([x, y] + rest, pick) == Filter([x], pick) + Filter([y], pick) + Filter(rest, pick)
  {
    assert [x, y] + rest == [x] + ([y] + rest);
    FilterAppend([x], [y] + rest, pick);
    FilterAppend([y], rest, pick);
  }

  /** The receive loop connects and waits never. */
  lemma {:induction false} DeliverControl(ds: seq<Delivery>)
    ensures Filter(Deliver(ds), ConnectAttempt) == []
    ensures Filter(Deliver(ds), SleepSeconds) == []
    decreases |ds|
  {
    if ds != [] {
      var x, y := Receive(ds[0].data), PublishMessage(ds[0].data, ds[0].reply);
      DeliverControl(ds[1..]);
      FilterPair(x, y, Deliver(ds[1..]), ConnectAttempt);
      FilterPair(x, y, Deliver(ds[1..]), SleepSeconds);
    }
  }

  /** The receive loop receives, and publishes, each message once, in order. */
  lemma {:induction false} DeliverMessages(ds: seq<Delivery>, published: bool)
    ensures Filter(Deliver(ds), MessageData(published)) == DataOf(ds)
    decreases |ds|
  {
    if ds != [] {
      var x, y := Receive(ds[0].data), PublishMessage(ds[0].data, ds[0].reply);
      DeliverMessages(ds[1..], published);
      FilterPair(x, y, Deliver(ds[1..]), MessageData(published));
      FilterSingle(x, MessageData(published));
      FilterSingle(y, MessageData(published));
    }
  }

  /** The data of the messages, in receipt order. */
  function DataOf(ds: seq<Delivery>): (r: seq<string>)
    ensures |r| == |ds|
  {
    if ds == [] then [] else [ds[0].data] + DataOf(ds[1..])
  }

  function DeliveriesOf(s: Session): seq<Delivery> {
    if s.Dropped? || s.Open? then s.deliveries else []
  }

  /** One connection attempt connects once, with its attempt number, and does not wait. */
  lemma SessionControl(attempt: nat, s: Session)
    ensures Filter(SessionEffects(attempt, s), ConnectAttempt) == [attempt]
    ensures Filter(SessionEffects(attempt, s), SleepSeconds) == []
  {
    var x, y := Connect(StreamUrl, attempt), Subscribe(SubscriptionRequest);
    var rest := Deliver(DeliveriesOf(s));
    DeliverControl(DeliveriesOf(s));
    FilterSingle(x, ConnectAttempt);
    FilterSingle(x, SleepSeconds);
    if !s.ConnectFailed? {
      assert SessionEffects(attempt, s) == [x, y] + rest;
      FilterPair(x, y, rest, ConnectAttempt);
      FilterPair(x, y, rest, SleepSeconds);
    }
  }

  /** One connection attempt receives, and publishes, the messages of its session, in order. */
  lemma SessionMessages(attempt: nat, s: Session, published: bool)
    ensures Filter(SessionEffects(attempt, s), MessageData(published)) == DataOf(DeliveriesOf(s))
  {
    var x, y := Connect(StreamUrl, attempt), Subscribe(SubscriptionRequest);
    var rest := Deliver(DeliveriesOf(s));
    DeliverMessages(DeliveriesOf(s), published);
    FilterSingle(x, MessageData(published));
    if !s.ConnectFailed? {
      assert SessionEffects(attempt, s) == [x, y] + rest;
      FilterPair(x, y, rest, MessageData(published));
    }
  }

  /* ---------- What a run does, stated from the sessions alone ---------- */

  /** How many sessions, from the first, end in a timeout. */
  function LeadingTimeouts(s: seq<Session>): (n: nat)
    ensures n <= |s|
  {
    if s == [] || !TimedOut(s[0]) then 0 else LeadingTimeouts(s[1..]) + 1
  }

  /** `LeadingTimeouts` counts exactly the timed-out sessions before the first other one. */
  lemma {:induction false} LeadingTimeoutsMeaning(s: seq<Session>)
    ensures forall i | 0 <= i < LeadingTimeouts(s) :: TimedOut(s[i])
    ensures LeadingTimeouts(s) < |s| ==> !TimedOut(s[LeadingTimeouts(s)])
    decreases |s|
  {
    if s != [] && TimedOut(s[0]) {
      LeadingTimeoutsMeaning(s[1..]);
      assert forall i | 1 <= i < |s| :: s[i] == s[1..][i - 1];
    }
  }

  function Min(a: int, b: int): int {
    if a <= b then a else b
  }

  /** Connection attempts made from attempt `a` on: one per timed-out session, plus the
      one that did not time out, within the budget and the sessions observed. */
  function AttemptsFrom(s: seq<Session>, a: nat): nat
    requires a <= MaxAttempts && a <= |s|
  {
    Min(MaxAttempts - a, Min(|s| - a, LeadingTimeouts(s[a..]) + 1))
  }

  /** The attempts of a whole run. */
  function AttemptsMade(s: seq<Session>): nat {
    Min(MaxAttempts, Min(|s|, LeadingTimeouts(s) + 1))
  }

  /** The numbers `lo`, `lo + 1`, ..., `hi - 1`. */
  function Range(lo: nat, hi: nat): seq<nat>
    decreases hi - lo
  {
    if lo >= hi then [] else [lo] + Range(lo + 1, hi)
  }

  /** `Range(lo, hi)` holds `hi - lo` numbers, counting up from `lo`. */
  lemma {:induction false} RangeElements(lo: nat, hi: nat)
    ensures |Range(lo, hi)| == if lo <= hi then hi - lo else 0
    ensures forall i | 0 <= i < |Range(lo, hi)| :: Range(lo, hi)[i] == lo + i
    decreases hi - lo
  {
    if lo < hi {
      RangeElements(lo + 1, hi);
    }
  }

  /** The data of every message received in the sessions, in order. */
  function MessagesOf(s: seq<Session>): seq<string> {
    if s == [] then [] else DataOf(DeliveriesOf(s[0])) + MessagesOf(s[1..])
  }

  lemma SuffixShift(s: seq<Session>, a: nat)
    requires a < |s|
    ensures s[a..][0] == s[a] && s[a..][1..] == s[a + 1..]
  {
  }

  /** One step of the loop, seen through a filter. */
  lemma RunFromStep<X>(s: seq<Session>, a: nat, pick: Effect -> Option<X>)
    requires a < MaxAttempts && a < |s|
    ensures TimedOut(s[a]) ==>
      Filter(RunFrom(s, a).effects, pick)
        == Filter(SessionEffects(a, s[a]), pick) + Filter([Sleep(RetryDelaySeconds)], pick)
           + Filter(RunFrom(s, a + 1).effects, pick)
    ensures !TimedOut(s[a]) ==> RunFrom(s, a).effects == SessionEffects(a, s[a])
  {
    if TimedOut(s[a]) {
      var effects := SessionEffects(a, s[a]);
      var rest := RunFrom(s, a + 1).effects;
      assert RunFrom(s, a).effects == effects + [Sleep(RetryDelaySeconds)] + rest;
      FilterAppend(effects, [Sleep(RetryDelaySeconds)], pick);
      FilterAppend(effects + [Sleep(RetryDelaySeconds)], rest, pick);
    }
  }

  lemma ConnectStep(s: seq<Session>, a: nat)
    requires a < MaxAttempts && a < |s|
    ensures Filter(RunFrom(s, a).effects, ConnectAttempt)
         == [a] + if TimedOut(s[a]) then Filter(RunFrom(s, a + 1).effects, ConnectAttempt) else []
  {
    SessionControl(a, s[a]);
    RunFromStep(s, a, ConnectAttempt);
    if TimedOut(s[a]) {
      FilterSingle(Sleep(RetryDelaySeconds), ConnectAttempt);
      AppendEmpty([a], Filter(RunFrom(s, a + 1).effects, ConnectAttempt));
    } else {
      assert [a] + [] == [a];
    }
  }

  lemma SleepStep(s: seq<Session>, a: nat)
    requires a < MaxAttempts && a < |s|
    ensures TimedOut(s[a]) ==>
      Filter(RunFrom(s, a).effects, SleepSeconds) == [RetryDelaySeconds] + Filter(RunFrom(s, a + 1).effects, SleepSeconds)
    ensures !TimedOut(s[a]) ==> Filter(RunFrom(s, a).effects, SleepSeconds) == []
  {
    var here := SessionEffects(a, s[a]);
    SessionControl(a, s[a]);
    RunFromStep(s, a, SleepSeconds);
    if TimedOut(s[a]) {
      var rest := Filter(RunFrom(s, a + 1).effects, SleepSeconds);
      FilterSingle(Sleep(RetryDelaySeconds), SleepSeconds);
      assert Filter(RunFrom(s, a).effects, SleepSeconds) == [] + [RetryDelaySeconds] + rest;
      assert [] + [RetryDelaySeconds] + rest == [RetryDelaySeconds] + rest;
    } else {
      assert Filter(RunFrom(s, a).effects, SleepSeconds) == Filter(here, SleepSeconds);
    }
  }

  lemma MessageStep(s: seq<Session>, a: nat, published: bool)
    requires a < MaxAttempts && a < |s|
    ensures Filter(RunFrom(s, a).effects, MessageData(published))
         == DataOf(DeliveriesOf(s[a]))
            + if TimedOut(s[a]) then Filter(RunFrom(s, a + 1).effects, MessageData(published)) else []
  {
    var pick := MessageData(published);
    SessionMessages(a, s[a], published);
    RunFromStep(s, a, pick);
    if TimedOut(s[a]) {
      FilterSingle(Sleep(RetryDelaySeconds), pick);
      AppendEmpty(DataOf(DeliveriesOf(s[a])), Filter(RunFrom(s, a + 1).effects, pick));
    } else {
      assert DataOf(DeliveriesOf(s[a])) + [] == DataOf(DeliveriesOf(s[a]));
    }
  }

  lemma RangeCons(lo: nat, hi: nat)
    requires lo < hi
    ensures Range(lo, hi) == [lo] + Range(lo + 1, hi)
  {
  }

  lemma AttemptsStep(s: seq<Session>, a: nat)
    requires a < MaxAttempts && a < |s|
    ensures AttemptsFrom(s, a) == if TimedOut(s[a]) then 1 + AttemptsFrom(s, a + 1) else 1
  {
    SuffixShift(s, a);
  }

  /** The attempt numbers the loop connects with from attempt `a` on, read off the sessions. */
  function ConnectsFrom(s: seq<Session>, a: nat): seq<nat>
    requires a <= MaxAttempts && a <= |s|
    decreases MaxAttempts - a
  {
    if a == MaxAttempts || a == |s| then []
    else [a] + if TimedOut(s[a]) then ConnectsFrom(s, a + 1) else []
  }

  lemma {:induction false} ConnectsFromRange(s: seq<Session>, a: nat)
    requires a <= MaxAttempts && a <= |s|
    ensures ConnectsFrom(s, a) == Range(a, a + AttemptsFrom(s, a))
    decreases MaxAttempts - a
  {
    if a < MaxAttempts && a < |s| {
      AttemptsStep(s, a);
      if TimedOut(s[a]) {
        ConnectsFromRange(s, a + 1);
        RangeCons(a, a + 1 + AttemptsFrom(s, a + 1));
      } else {
        RangeCons(a, a + 1);
      }
    }
  }

  lemma {:induction false} RunFromAttempts(s: seq<Session>, a: nat)
    requires a <= MaxAttempts && a <= |s|
    ensures Filter(RunFrom(s, a).effects, ConnectAttempt) == ConnectsFrom(s, a)
    decreases MaxAttempts - a
  {
    if a < MaxAttempts && a < |s| {
      ConnectStep(s, a);
      if TimedOut(s[a]) {
        RunFromAttempts(s, a + 1);
      }
    }
  }

  lemma {:induction false} RunFromEnding(s: seq<Session>, a: nat)
    requires a <= MaxAttempts && a <= |s|
    ensures var n := LeadingTimeouts(s[a..]);
      a + n >= MaxAttempts ==> RunFrom(s, a).ending == Exhausted
    ensures var n := LeadingTimeouts(s[a..]);
      a + n < MaxAttempts && (a + n == |s| || s[a + n].Open?) ==> RunFrom(s, a).ending == Running
    ensures var n := LeadingTimeouts(s[a..]);
      a + n < MaxAttempts && a + n < |s| && !s[a + n].Open? ==>
        s[a + n].error.OtherError? && RunFrom(s, a).ending == Stopped(s[a + n].error.message)
    decreases MaxAttempts - a
  {
    if a < MaxAttempts && a < |s| {
      SuffixShift(s, a);
      if TimedOut(s[a]) {
        assert LeadingTimeouts(s[a..]) == LeadingTimeouts(s[a + 1..]) + 1;
        RunFromEnding(s, a + 1);
      } else {
        assert LeadingTimeouts(s[a..]) == 0;
      }
    }
  }

  /** `n` waits of the fixed retry delay. */
  function Waits(n: nat): (r: seq<nat>)
    ensures |r| == n && forall i | 0 <= i < n :: r[i] == RetryDelaySeconds
  {
    if n == 0 then [] else [RetryDelaySeconds] + Waits(n - 1)
  }

  /** Timeouts the loop sees from attempt `a` on. */
  function TimeoutsFrom(s: seq<Session>, a: nat): nat
    requires a <= MaxAttempts && a <= |s|
  {
    Min(MaxAttempts - a, LeadingTimeouts(s[a..]))
  }

  lemma TimeoutsStep(s: seq<Session>, a: nat)
    requires a < MaxAttempts && a < |s|
    ensures TimeoutsFrom(s, a) == if TimedOut(s[a]) then 1 + TimeoutsFrom(s, a + 1) else 0
  {
    SuffixShift(s, a);
  }

  lemma {:induction false} RunFromSleeps(s: seq<Session>, a: nat)
    requires a <= MaxAttempts && a <= |s|
    ensures Filter(RunFrom(s, a).effects, SleepSeconds) == Waits(TimeoutsFrom(s, a))
    decreases MaxAttempts - a
  {
    if a < MaxAttempts && a < |s| {
      SleepStep(s, a);
      TimeoutsStep(s, a);
      if TimedOut(s[a]) {
        RunFromSleeps(s, a + 1);
      }
    } else {
      assert s[a..] == [] || a == MaxAttempts;
    }
  }

  /** The messages of the sessions used from attempt `a` on. */
  function UsedMessages(s: seq<Session>, a: nat): seq<string>
    requires a <= MaxAttempts && a <= |s|
  {
    MessagesOf(s[a..a + AttemptsFrom(s, a)])
  }

  /** The sessions used from attempt `a` on: this one, then those used from the next. */
  lemma UsedSessionsStep(s: seq<Session>, a: nat)
    requires a < MaxAttempts && a < |s|
    ensures UsedMessages(s, a)
         == DataOf(DeliveriesOf(s[a])) + if TimedOut(s[a]) then UsedMessages(s, a + 1) else []
  {
    SuffixShift(s, a);
    var k := AttemptsFrom(s, a);
    var used := s[a..a + k];
    assert used[0] == s[a];
    assert MessagesOf(used) == DataOf(DeliveriesOf(s[a])) + MessagesOf(used[1..]);
    if TimedOut(s[a]) {
      assert k == 1 + AttemptsFrom(s, a + 1);
      assert used[1..] == s[a + 1..a + 1 + AttemptsFrom(s, a + 1)];
    } else {
      assert k == 1;
      assert used[1..] == [];
    }
  }

  lemma AppendEmpty<X>(a: seq<X>, b: seq<X>)
    ensures a + [] + b == a + b
  {
  }

  /** The data of a received message (`published` false) or of a published one. */
  function MessageData(published: bool): Effect -> Option<string> {
    if published then PublishedData else ReceivedData
  }

  lemma {:induction false} RunFromMessages(s: seq<Session>, a: nat, published: bool)
    requires a <= MaxAttempts && a <= |s|
    ensures Filter(RunFrom(s, a).effects, MessageData(published)) == UsedMessages(s, a)
    decreases MaxAttempts - a
  {
    if a < MaxAttempts && a < |s| {
      MessageStep(s, a, published);
      UsedSessionsStep(s, a);
      if TimedOut(s[a]) {
        RunFromMessages(s, a + 1, published);
      }
    } else {
      assert s[a..a + AttemptsFrom(s, a)] == [];
    }
  }

  /** At most five connection attempts per run, numbered 0, 1, 2, ... in order: one for
      every leading timed-out session and one more for the first session that did
      not time out. Messages received on a connection do not give back any attempt. */
  lemma BinanceWsAttempts(s: seq<Session>)
    ensures AttemptsMade(s) <= MaxAttempts
    ensures Filter(BinanceWs(s).effects, ConnectAttempt) == Range(0, AttemptsMade(s))
  {
    assert s[0..] == s;
    RunFromAttempts(s, 0);
    ConnectsFromRange(s, 0);
  }

  /** How a run ends: five timeouts in a row exhaust the loop without raising; another
      exception in one of the first five attempts stops the run after that attempt;
      otherwise the run is still going when the observation ends. */
  lemma BinanceWsEnding(s: seq<Session>)
    ensures BinanceWs(s).ending == Exhausted <==> LeadingTimeouts(s) >= MaxAttempts
    ensures BinanceWs(s).ending.Stopped? <==>
      var n := LeadingTimeouts(s);
      n < MaxAttempts && n < |s| && !s[n].Open? && s[n].error.OtherError?
    ensures BinanceWs(s).ending.Stopped? ==>
      BinanceWs(s).ending.error == s[LeadingTimeouts(s)].error.message
      && AttemptsMade(s) == LeadingTimeouts(s) + 1
    ensures BinanceWs(s).ending == Running <==>
      var n := LeadingTimeouts(s);
      n < MaxAttempts && (n == |s| || s[n].Open?)
  {
    BinanceWsEndsAsExpected(s);
    ExpectedEndingCases(s);
  }

  lemma BinanceWsEndsAsExpected(s: seq<Session>)
    ensures BinanceWs(s).ending == ExpectedEnding(s)
  {
    assert s[0..] == s;
    RunFromEnding(s, 0);
  }

  /** How the loop ends, read off the sessions: after the timed-out ones, the budget
      or the sessions may run out, or the next session decides. */
  function ExpectedEnding(s: seq<Session>): Ending {
    var n := LeadingTimeouts(s);
    LeadingTimeoutsMeaning(s);
    if n >= MaxAttempts then Exhausted
    else if n == |s| || s[n].Open? then Running
    else Stopped(s[n].error.message)
  }

  lemma ExpectedEndingCases(s: seq<Session>)
    ensures ExpectedEnding(s) == Exhausted <==> LeadingTimeouts(s) >= MaxAttempts
    ensures ExpectedEnding(s).Stopped? <==>
      var n := LeadingTimeouts(s);
      n < MaxAttempts && n < |s| && !s[n].Open? && s[n].error.OtherError?
    ensures ExpectedEnding(s).Stopped? ==>
      ExpectedEnding(s).error == s[LeadingTimeouts(s)].error.message
      && AttemptsMade(s) == LeadingTimeouts(s) + 1
    ensures ExpectedEnding(s) == Running <==>
      var n := LeadingTimeouts(s);
      n < MaxAttempts && (n == |s| || s[n].Open?)
  {
    var n := LeadingTimeouts(s);
    if n < MaxAttempts && n < |s| {
      LeadingTimeoutsMeaning(s);
      assert !TimedOut(s[n]);
    }
  }

  /** Every timeout is followed by one fixed five-second wait, the last one included. */
  lemma BinanceWsBackoff(s: seq<Session>)
    ensures Filter(BinanceWs(s).effects, SleepSeconds) == Waits(Min(MaxAttempts, LeadingTimeouts(s)))
  {
    assert s[0..] == s;
    RunFromSleeps(s, 0);
  }

  /** Every message received is handed to `publish_message` exactly once: the data
      received and the data published are the same sequence, the messages of the
      sessions the run used, in receipt order. */
  lemma BinanceWsPublishesEachMessageOnce(s: seq<Session>)
    ensures Filter(BinanceWs(s).effects, ReceivedData) == MessagesOf(s[..AttemptsMade(s)])
    ensures Filter(BinanceWs(s).effects, PublishedData) == MessagesOf(s[..AttemptsMade(s)])
  {
    assert s[0..] == s;
    assert s[0..0 + AttemptsFrom(s, 0)] == s[..AttemptsMade(s)];
    RunFromMessages(s, 0, false);
    RunFromMessages(s, 0, true);
  }

  /* ---------- What does not influence a run ---------- */

  /** Two sessions that end the same way, whatever they delivered before. */
  predicate SameOutcome(x: Session, y: Session) {
    x.Open? == y.Open? && (!x.Open? ==> x.error == y.error)
  }

  predicate SameOutcomes(s: seq<Session>, t: seq<Session>) {
    |s| == |t| && forall i | 0 <= i < |s| :: SameOutcome(s[i], t[i])
  }

  lemma {:induction false} LeadingTimeoutsAgree(s: seq<Session>, t: seq<Session>)
    requires SameOutcomes(s, t)
    ensures LeadingTimeouts(s) == LeadingTimeouts(t)
    decreases |s|
  {
    if s != [] {
      assert SameOutcome(s[0], t[0]);
      if TimedOut(s[0]) {
        assert forall i | 0 <= i < |s| - 1 :: s[1..][i] == s[i + 1] && t[1..][i] == t[i + 1];
        LeadingTimeoutsAgree(s[1..], t[1..]);
      }
    }
  }

  /** The retry counter is never reset: how many attempts a run makes, how long it
      waits and how it ends depend only on how each attempt ended, not on how many
      messages arrived before a timeout. */
  lemma RetryBudgetIsPerRun(s: seq<Session>, t: seq<Session>)
    requires SameOutcomes(s, t)
    ensures AttemptsMade(s) == AttemptsMade(t)
    ensures Filter(BinanceWs(s).effects, SleepSeconds) == Filter(BinanceWs(t).effects, SleepSeconds)
    ensures BinanceWs(s).ending == BinanceWs(t).ending
  {
    LeadingTimeoutsAgree(s, t);
    assert s[0..] == s && t[0..] == t;
    RunFromEnding(s, 0);
    RunFromEnding(t, 0);
    RunFromSleeps(s, 0);
    RunFromSleeps(t, 0);
    var n := LeadingTimeouts(s);
    if n < MaxAttempts && n < |s| {
      assert SameOutcome(s[n], t[n]);
    }
  }

  /** Two effects alike except, for a publish, in what it reported. */
  predicate SameAction(e: Effect, f: Effect) {
    if e.PublishTo? then f.PublishTo? && f.topic == e.topic && f.data == e.data else f == e
  }

  predicate SameActions(es: seq<Effect>, fs: seq<Effect>) {
    |es| == |fs| && forall i | 0 <= i < |es| :: SameAction(es[i], fs[i])
  }

  lemma SameActionsAppend(a: seq<Effect>, b: seq<Effect>, c: seq<Effect>, d: seq<Effect>)
    requires SameActions(a, c) && SameActions(b, d)
    ensures SameActions(a + b, c + d)
  {
    forall i | 0 <= i < |a + b|
      ensures SameAction((a + b)[i], (c + d)[i])
    {
      if i < |a| {
        assert (a + b)[i] == a[i] && (c + d)[i] == c[i];
      } else {
        assert (a + b)[i] == b[i - |a|] && (c + d)[i] == d[i - |a|];
      }
    }
  }

  lemma {:induction false} DeliverIgnoresReplies(ds: seq<Delivery>, es: seq<Delivery>)
    requires DataOf(ds) == DataOf(es)
    ensures SameActions(Deliver(ds), Deliver(es))
    decreases |ds|
  {
    if ds != [] {
      assert ds[0].data == DataOf(ds)[0] == DataOf(es)[0] == es[0].data;
      assert DataOf(ds[1..]) == DataOf(ds)[1..] && DataOf(es[1..]) == DataOf(es)[1..];
      DeliverIgnoresReplies(ds[1..], es[1..]);
      var x := [Receive(ds[0].data), PublishMessage(ds[0].data, ds[0].reply)];
      var y := [Receive(es[0].data), PublishMessage(es[0].data, es[0].reply)];
      assert SameActions(x, y);
      SameActionsAppend(x, Deliver(ds[1..]), y, Deliver(es[1..]));
    }
  }

  /** Two sessions alike except in the broker's replies. */
  predicate SameButReplies(x: Session, y: Session) {
    SameOutcome(x, y) && x.ConnectFailed? == y.ConnectFailed? && x.SubscribeFailed? == y.SubscribeFailed?
    && DataOf(DeliveriesOf(x)) == DataOf(DeliveriesOf(y))
  }

  predicate SameButRepliesAll(s: seq<Session>, t: seq<Session>) {
    |s| == |t| && forall i | 0 <= i < |s| :: SameButReplies(s[i], t[i])
  }

  lemma SessionIgnoresReplies(attempt: nat, x: Session, y: Session)
    requires SameButReplies(x, y)
    ensures SameActions(SessionEffects(attempt, x), SessionEffects(attempt, y))
  {
    DeliverIgnoresReplies(DeliveriesOf(x), DeliveriesOf(y));
    var head := [Connect(StreamUrl, attempt), Subscribe(SubscriptionRequest)];
    if !x.ConnectFailed? {
      assert SameActions(head, head);
      SameActionsAppend(head, Deliver(DeliveriesOf(x)), head, Deliver(DeliveriesOf(y)));
      if x.SubscribeFailed? {
        assert SessionEffects(attempt, x) == head == SessionEffects(attempt, y);
      }
    }
  }

  lemma {:induction false} RunFromIgnoresReplies(s: seq<Session>, t: seq<Session>, a: nat)
    requires SameButRepliesAll(s, t) && a <= MaxAttempts
    ensures SameActions(RunFrom(s, a).effects, RunFrom(t, a).effects)
    ensures RunFrom(s, a).ending == RunFrom(t, a).ending
    decreases MaxAttempts - a
  {
    if a < MaxAttempts && a < |s| {
      assert SameButReplies(s[a], t[a]);
      SessionIgnoresReplies(a, s[a], t[a]);
      if TimedOut(s[a]) {
        RunFromIgnoresReplies(s, t, a + 1);
        var wait := [Sleep(RetryDelaySeconds)];
        assert SameActions(wait, wait);
        SameActionsAppend(SessionEffects(a, s[a]), wait, SessionEffects(a, t[a]), wait);
        SameActionsAppend(SessionEffects(a, s[a]) + wait, RunFrom(s, a + 1).effects,
                          SessionEffects(a, t[a]) + wait, RunFrom(t, a + 1).effects);
      }
    } else {
      assert SameActions([], []);
    }
  }

  /** A failed publish is swallowed: whatever the broker replies, the run does the same
      things in the same order and ends the same way; only the printed reports differ. */
  lemma PublishFailureSwallowed(s: seq<Session>, t: seq<Session>)
    requires SameButRepliesAll(s, t)
    ensures SameActions(BinanceWs(s).effects, BinanceWs(t).effects)
    ensures BinanceWs(s).ending == BinanceWs(t).ending
  {
    RunFromIgnoresReplies(s, t, 0);
  }

  /* ---------- The order of the program's actions, as an automaton ---------- */

  /** Where the program is within its connection protocol. */
  datatype Phase =
    | Idle(next: nat)                         // about to make attempt `next`
    | Connecting(attempt: nat)                // `websockets.connect` called
    | Subscribed(attempt: nat)                // subscription sent, waiting for a message
    | Forwarding(attempt: nat, data: string)  // a message received and not yet published

  /** The actions the protocol allows next: connect with the next attempt number while
      attempts remain; subscribe right after connecting; publish the message just
      received, to the topic, before receiving another; wait the retry delay only
      after an attempt has failed, and then move on to the next attempt number. */
  function Step(p: Phase, e: Effect): Option<Phase> {
    match p
    case Idle(n) =>
      if e == Connect(StreamUrl, n) && n < MaxAttempts then Some(Connecting(n)) else None
    case Connecting(k) =>
      if e == Subscribe(SubscriptionRequest) then Some(Subscribed(k))
      else if e == Sleep(RetryDelaySeconds) then Some(Idle(k + 1))
      else None
    case Subscribed(k) =>
      if e.Receive? then Some(Forwarding(k, e.data))
      else if e == Sleep(RetryDelaySeconds) then Some(Idle(k + 1))
      else None
    case Forwarding(k, d) =>
      if e.PublishTo? && e.topic == TopicPath && e.data == d then Some(Subscribed(k)) else None
  }

  /** The phase reached after the effects, if the protocol allows them all. */
  function Replay(p: Phase, es: seq<Effect>): Option<Phase>
    decreases |es|
  {
    if es == [] then Some(p)
    else match Step(p, es[0])
      case None => None
      case Some(q) => Replay(q, es[1..])
  }

  lemma {:induction false} ReplayAppend(p: Phase, a: seq<Effect>, b: seq<Effect>)
    requires Replay(p, a).Some?
    ensures Replay(p, a + b) == Replay(Replay(p, a).value, b)
    decreases |a|
  {
    if a == [] {
      assert a + b == b;
    } else {
      assert (a + b)[0] == a[0] && (a + b)[1..] == a[1..] + b;
      ReplayAppend(Step(p, a[0]).value, a[1..], b);
    }
  }

  lemma {:induction false} DeliverFollowsProtocol(k: nat, ds: seq<Delivery>)
    ensures Replay(Subscribed(k), Deliver(ds)) == Some(Subscribed(k))
    decreases |ds|
  {
    if ds != [] {
      var pair := [Receive(ds[0].data), PublishMessage(ds[0].data, ds[0].reply)];
      assert Replay(Subscribed(k), pair) == Some(Subscribed(k)) by {
        assert Step(Subscribed(k), pair[0]) == Some(Forwarding(k, ds[0].data));
        assert Step(Forwarding(k, ds[0].data), pair[1]) == Some(Subscribed(k));
        assert pair[1..] == [pair[1]] && pair[1..][1..] == [];
        assert Replay(Forwarding(k, ds[0].data), pair[1..]) == Replay(Subscribed(k), []);
      }
      ReplayAppend(Subscribed(k), pair, Deliver(ds[1..]));
      DeliverFollowsProtocol(k, ds[1..]);
    }
  }

  /** One connection attempt: it ends connected-but-failed, or subscribed. */
  lemma SessionFollowsProtocol(a: nat, s: Session)
    requires a < MaxAttempts
    ensures Replay(Idle(a), SessionEffects(a, s))
         == Some(if s.ConnectFailed? then Connecting(a) else Subscribed(a))
  {
    var head := [Connect(StreamUrl, a), Subscribe(SubscriptionRequest)];
    assert Replay(Idle(a), head) == Some(Subscribed(a)) by {
      assert Step(Idle(a), head[0]) == Some(Connecting(a));
      assert Step(Connecting(a), head[1]) == Some(Subscribed(a));
      assert head[1..] == [head[1]] && head[1..][1..] == [];
      assert Replay(Connecting(a), head[1..]) == Replay(Subscribed(a), []);
    }
    if !s.ConnectFailed? {
      ReplayAppend(Idle(a), head, Deliver(DeliveriesOf(s)));
      DeliverFollowsProtocol(a, DeliveriesOf(s));
      if s.SubscribeFailed? {
        assert SessionEffects(a, s) == head;
      }
    }
  }

  lemma {:induction false} RunFromFollowsProtocol(s: seq<Session>, a: nat)
    requires a <= MaxAttempts
    ensures Replay(Idle(a), RunFrom(s, a).effects).Some?
    ensures !Replay(Idle(a), RunFrom(s, a).effects).value.Forwarding?
    decreases MaxAttempts - a
  {
    if a < MaxAttempts && a < |s| {
      var effects := SessionEffects(a, s[a]);
      SessionFollowsProtocol(a, s[a]);
      if TimedOut(s[a]) {
        var wait := [Sleep(RetryDelaySeconds)];
        var after := Replay(Idle(a), effects).value;
        assert Replay(after, wait) == Some(Idle(a + 1));
        ReplayAppend(Idle(a), effects, wait);
        RunFromFollowsProtocol(s, a + 1);
        ReplayAppend(Idle(a), effects + wait, RunFrom(s, a + 1).effects);
        assert RunFrom(s, a).effects == effects + wait + RunFrom(s, a + 1).effects;
      }
    }
  }

  /** Every run follows the protocol from attempt 0, and never stops between
      receiving a message and publishing it. */
  lemma BinanceWsFollowsProtocol(s: seq<Session>)
    ensures Replay(Idle(0), BinanceWs(s).effects).Some?
    ensures !Replay(Idle(0), BinanceWs(s).effects).value.Forwarding?
  {
    RunFromFollowsProtocol(s, 0);
  }

  /** Attempts the protocol still allows from a phase. */
  function AttemptsLeft(p: Phase): int {
    match p
    case Idle(n) => MaxAttempts - n
    case Connecting(k) => MaxAttempts - k - 1
    case Subscribed(k) => MaxAttempts - k - 1
    case Forwarding(k, _) => MaxAttempts - k - 1
  }

  /** The protocol alone bounds the connection attempts: no sequence of actions it
      allows makes more than five connections from attempt 0. */
  lemma {:induction false} ProtocolBoundsAttempts(p: Phase, es: seq<Effect>)
    requires Replay(p, es).Some? && AttemptsLeft(p) >= 0
    ensures |Filter(es, ConnectAttempt)| <= AttemptsLeft(p)
    decreases |es|
  {
    if es != [] {
      var q := Step(p, es[0]).value;
      ProtocolBoundsAttempts(q, es[1..]);
      assert Filter(es, ConnectAttempt)
          == (if es[0].Connect? then [es[0].attempt] else []) + Filter(es[1..], ConnectAttempt);
    }
  }
}
