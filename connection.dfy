/** The worker's queue consumer: for each delivery it parses the body, runs
    the processing callback, and on failure either requeues the unchanged
    body with `x-retries` one higher or, once `x-retries` has reached
    `MAX_RETRIES`, dead-letters it; the delivery is acknowledged in every
    case. Broker state is a main queue, a dead-letter queue and an
    acknowledgement count. */
module Connection {

  import opened Wrappers
  import opened Strings
  import opened Wire
  import Publish

  const DefaultMaxRetries := 3

  /** `parseInt(process.env.MAX_RETRIES) || 3`: `NaN` and `0` both fall back
      to 3. */
  function MaxRetriesSetting(env: Option<string>): (r: int)
    ensures r != 0
  {
    var parsed := if env.Some? then ParseInt(env.value) else None;
    if parsed.Some? && parsed.value != 0 then parsed.value else DefaultMaxRetries
  }

  /** A positive decimal setting is taken as written. */
  lemma MaxRetriesFromDecimal(n: nat)
    requires n > 0
    ensures MaxRetriesSetting(Some(NatToString(n))) == n
  {
    ParseIntPrinted(n, "");
    assert NatToString(n) + "" == NatToString(n);
  }

  /** A missing, unparsable or zero setting gives 3. */
  lemma MaxRetriesFallback()
    ensures MaxRetriesSetting(None) == 3
    ensures MaxRetriesSetting(Some("")) == 3
    ensures MaxRetriesSetting(Some("0")) == 3
    ensures MaxRetriesSetting(Some("abc")) == 3
  {
    assert "0"[0..] == "0";
    assert LeadingDigits("0"[1..]) == "";
    assert LeadingDigits("0") == "0";
    assert DigitsValue("0") == DigitsValue("0"[..0]) * 10 + DigitValue('0');
  }

  /** The consumer reads `x-retries` as a number; other header values are
      outside the model. */
  predicate RetriesReadable(p: Properties) {
    "x-retries" in p.headers ==> p.headers["x-retries"].Num?
  }

  predicate AllReadable(q: seq<Message>) {
    forall i :: 0 <= i < |q| ==> RetriesReadable(q[i].props)
  }

  /** The retry count the handler reads: the `x-retries` header, or 0 when
      it is absent (a header of 0 is falsy and also gives 0). */
  function RetriesOf(p: Properties): (r: int)
    requires RetriesReadable(p)
    ensures "x-retries" !in p.headers ==> r == 0
    ensures "x-retries" in p.headers ==> r == p.headers["x-retries"].n
  {
    if "x-retries" in p.headers then p.headers["x-retries"].n else 0
  }

  /** Options of the requeued copy: only `x-retries` and `persistent`. */
  function RequeueProperties(retries: int): Properties {
    Properties(true, None, None, None, map["x-retries" := Num(retries)])
  }

  /** Options of the dead-lettered copy. */
  function DeadLetterProperties(retries: int, error: string, failedAt: string): Properties {
    Properties(true, None, None, None,
      map["x-retries" := Num(retries), "error-message" := Str(error), "failed-at" := Str(failedAt)])
  }

  /** The count the handler writes is the count the next delivery reads, and
      a job fresh from the producer reads 0. */
  lemma RetriesReadBack(retries: int, error: string, failedAt: string, input: Publish.PublishInput, now: int)
    ensures RetriesReadable(RequeueProperties(retries)) && RetriesOf(RequeueProperties(retries)) == retries
    ensures RetriesReadable(DeadLetterProperties(retries, error, failedAt))
    ensures RetriesOf(DeadLetterProperties(retries, error, failedAt)) == retries
    ensures RetriesReadable(Publish.BuildProperties(input, now)) && RetriesOf(Publish.BuildProperties(input, now)) == 0
  {
  }

  /** The outcome of the handler's `try` block: `JSON.parse`, then the
      callback; the error is the message of whichever threw. */
  function TryOutcome(body: Body, callback: Result<(), string>): Result<(), string> {
    match body
    case Malformed(_, parseError) => Err(parseError)
    case Json(_) => callback
  }

  datatype BrokerState = BrokerState(queue: seq<Message>, dlq: seq<Message>, acks: nat)

  /** One run of the consume handler on the delivery at the head of the main
      queue. */
  function Deliver(s: BrokerState, maxRetries: int, callback: Result<(), string>, failedAt: string): (r: BrokerState)
    requires |s.queue| > 0 && RetriesReadable(s.queue[0].props)
    ensures r.acks == s.acks + 1
    ensures s.queue[1..] <= r.queue && s.dlq <= r.dlq
    ensures |r.queue| + |r.dlq| == |s.queue| + |s.dlq| - (if TryOutcome(s.queue[0].body, callback).Ok? then 1 else 0)
    ensures forall i :: |s.queue| - 1 <= i < |r.queue| ==> r.queue[i].body == s.queue[0].body
    ensures forall i :: |s.dlq| <= i < |r.dlq| ==> r.dlq[i].body == s.queue[0].body
    ensures AllReadable(s.queue) ==> AllReadable(r.queue)
  {
    var m := s.queue[0];
    var retries := RetriesOf(m.props);
    match TryOutcome(m.body, callback)
    case Ok(_) => BrokerState(s.queue[1..], s.dlq, s.acks + 1)
    case Err(error) =>
      if retries < maxRetries then
        BrokerState(s.queue[1..] + [Message(m.body, RequeueProperties(retries + 1))], s.dlq, s.acks + 1)
      else
        BrokerState(s.queue[1..], s.dlq + [Message(m.body, DeadLetterProperties(retries, error, failedAt))], s.acks + 1)
  }

  /** On success nothing is published and the delivery is acknowledged. */
  lemma DeliverSuccess(s: BrokerState, maxRetries: int, callback: Result<(), string>, failedAt: string)
    requires |s.queue| > 0 && RetriesReadable(s.queue[0].props)
    requires TryOutcome(s.queue[0].body, callback).Ok?
    ensures Deliver(s, maxRetries, callback, failedAt) == BrokerState(s.queue[1..], s.dlq, s.acks + 1)
  {
  }

  /** A failure below the limit puts one copy of the unchanged body at the
      back of the same queue, carrying nothing but `x-retries = retries + 1`. */
  lemma DeliverRequeue(s: BrokerState, maxRetries: int, callback: Result<(), string>, failedAt: string)
    requires |s.queue| > 0 && RetriesReadable(s.queue[0].props)
    requires TryOutcome(s.queue[0].body, callback).Err? && RetriesOf(s.queue[0].props) < maxRetries
    ensures var r := Deliver(s, maxRetries, callback, failedAt);
      && r.dlq == s.dlq
      && r.queue == s.queue[1..] + [Message(s.queue[0].body, RequeueProperties(RetriesOf(s.queue[0].props) + 1))]
      && r.queue[|r.queue| - 1].props.headers.Keys == {"x-retries"}
      && r.queue[|r.queue| - 1].props.persistent
  {
  }

  /** A failure at or above the limit dead-letters the body with the retry
      count, the error message and the failure time, and does not requeue. */
  lemma DeliverDeadLetter(s: BrokerState, maxRetries: int, callback: Result<(), string>, failedAt: string)
    requires |s.queue| > 0 && RetriesReadable(s.queue[0].props)
    requires TryOutcome(s.queue[0].body, callback).Err? && RetriesOf(s.queue[0].props) >= maxRetries
    ensures var r := Deliver(s, maxRetries, callback, failedAt);
      var m := s.queue[0];
      && r.queue == s.queue[1..]
      && r.dlq == s.dlq + [Message(m.body, DeadLetterProperties(RetriesOf(m.props), TryOutcome(m.body, callback).error, failedAt))]
  {
  }

  /** A body that does not parse takes the failure path whatever the
      callback would have done, with the parse error as its message. */
  lemma MalformedIsFailure(raw: string, parseError: string, callback: Result<(), string>)
    ensures TryOutcome(Malformed(raw, parseError), callback) == Err(parseError)
  {
  }

  /** The broker side of the consumer: the main queue (ready messages, the
      one being handled at its head), the dead-letter queue bound to the
      `"dlq"` routing key, and the number of acknowledgements sent. */
  class Channel {
    const maxRetries: int
    var queue: seq<Message>
    var dlq: seq<Message>
    var acks: nat

    function State(): BrokerState
      reads this
    {
      BrokerState(queue, dlq, acks)
    }

    /** The consumer after start-up: `MAX_RETRIES` read once from the
        environment, both queues asserted, nothing acknowledged yet. */
    constructor (maxRetriesEnv: Option<string>, pending: seq<Message>)
      ensures maxRetries == MaxRetriesSetting(maxRetriesEnv)
      ensures State() == BrokerState(pending, [], 0)
    {
      maxRetries := MaxRetriesSetting(maxRetriesEnv);
      queue := pending;
      dlq := [];
      acks := 0;
    }

    /** The `channel.consume` callback for the delivery at the head of the
        queue; `callback` is what the processing function does with the
        parsed envelope and `failedAt` the clock reading for `failed-at`. */
    method HandleDelivery(callback: Result<(), string>, failedAt: string)
      requires |queue| > 0 && RetriesReadable(queue[0].props)
      modifies this
      ensures State() == Deliver(old(State()), maxRetries, callback, failedAt)
    {
      var message := queue[0];
      var retries := RetriesOf(message.props);
      var outcome := TryOutcome(message.body, callback);
      if outcome.Err? {
        if retries < maxRetries {
          // back onto the main queue, persistent, with the retry count one higher
          queue := queue + [Message(message.body, RequeueProperties(retries + 1))];
        } else {
          // to the dead-letter queue through the exchange's "dlq" routing key
          dlq := dlq + [Message(message.body, DeadLetterProperties(retries, outcome.error, failedAt))];
        }
      }
      // finally: the delivery is acknowledged on every path
      queue := queue[1..];
      acks := acks + 1;
    }
  }

  // -----------------------------------------------------------------------
  // Lifecycle of a job whose processing always fails

  /** The message a failing delivery records: the parse error, or the
      callback's error. */
  function FailureMessage(body: Body, error: string): string {
    TryOutcome(body, Err(error)).error
  }

  /** `n` consecutive deliveries, each failing with `error`, stopping early
      when the main queue runs dry. */
  function FailingRuns(s: BrokerState, maxRetries: int, n: nat, error: string, failedAt: string): BrokerState
    requires AllReadable(s.queue)
    decreases n
  {
    if n == 0 || |s.queue| == 0 then s
    else FailingRuns(Deliver(s, maxRetries, Err(error), failedAt), maxRetries, n - 1, error, failedAt)
  }

  /** While below the limit, the `k`-th failing delivery leaves exactly one
      live copy, whose `x-retries` has grown by `k`. */
  lemma {:induction false} RetryLadder(m: Message, acks: nat, maxRetries: int, k: nat, error: string, failedAt: string)
    requires RetriesReadable(m.props)
    requires 1 <= k && RetriesOf(m.props) + k <= maxRetries
    ensures FailingRuns(BrokerState([m], [], acks), maxRetries, k, error, failedAt)
         == BrokerState([Message(m.body, RequeueProperties(RetriesOf(m.props) + k))], [], acks + k)
    decreases k
  {
    var s := BrokerState([m], [], acks);
    var next := Message(m.body, RequeueProperties(RetriesOf(m.props) + 1));
    assert Deliver(s, maxRetries, Err(error), failedAt) == BrokerState([next], [], acks + 1);
    if k > 1 {
      RetryLadder(next, acks + 1, maxRetries, k - 1, error, failedAt);
    }
  }

  /** Once the limit is reached, one more failing delivery dead-letters the
      job with `x-retries = maxRetries`: after `maxRetries - r + 1`
      deliveries, starting from `x-retries = r`, the main queue is empty and
      the dead-letter queue holds the one copy; nothing happens after that. */
  lemma {:induction false} EscalatesToDeadLetter(m: Message, acks: nat, maxRetries: int, extra: nat, error: string, failedAt: string)
    requires RetriesReadable(m.props)
    requires RetriesOf(m.props) <= maxRetries
    ensures FailingRuns(BrokerState([m], [], acks), maxRetries, maxRetries - RetriesOf(m.props) + 1 + extra, error, failedAt)
         == BrokerState([], [Message(m.body, DeadLetterProperties(maxRetries, FailureMessage(m.body, error), failedAt))], acks + maxRetries - RetriesOf(m.props) + 1)
    decreases maxRetries - RetriesOf(m.props)
  {
    var s := BrokerState([m], [], acks);
    var n := maxRetries - RetriesOf(m.props) + 1 + extra;
    if RetriesOf(m.props) == maxRetries {
      var after := Deliver(s, maxRetries, Err(error), failedAt);
      assert after == BrokerState([], [Message(m.body, DeadLetterProperties(maxRetries, FailureMessage(m.body, error), failedAt))], acks + 1);
      assert FailingRuns(after, maxRetries, n - 1, error, failedAt) == after;
    } else {
      var next := Message(m.body, RequeueProperties(RetriesOf(m.props) + 1));
      assert Deliver(s, maxRetries, Err(error), failedAt) == BrokerState([next], [], acks + 1);
      EscalatesToDeadLetter(next, acks + 1, maxRetries, extra, error, failedAt);
    }
  }

  /** A freshly published job that always fails is handled `maxRetries + 1`
      times (one acknowledgement each), requeued in between with `x-retries`
      1, 2, ..., `maxRetries`, and then dead-lettered exactly once with
      `x-retries = maxRetries`. The producer sets no `x-retries`, so the first
      delivery reads 0. */
  lemma PublishedJobLifecycle(input: Publish.PublishInput, now: int, maxRetries: nat, error: string, failedAt: string)
    ensures var m := Publish.Outgoing(input, now);
      && RetriesReadable(m.props) && RetriesOf(m.props) == 0
      && (forall k :: 1 <= k <= maxRetries ==>
            FailingRuns(BrokerState([m], [], 0), maxRetries, k, error, failedAt)
              == BrokerState([Message(m.body, RequeueProperties(k))], [], k))
      && FailingRuns(BrokerState([m], [], 0), maxRetries, maxRetries + 1, error, failedAt)
           == BrokerState([], [Message(m.body, DeadLetterProperties(maxRetries, error, failedAt))], maxRetries + 1)
  {
    var m := Publish.Outgoing(input, now);
    assert RetriesOf(m.props) == 0;
    forall k | 1 <= k <= maxRetries
      ensures FailingRuns(BrokerState([m], [], 0), maxRetries, k, error, failedAt)
              == BrokerState([Message(m.body, RequeueProperties(k))], [], k)
    {
      RetryLadder(m, 0, maxRetries, k, error, failedAt);
    }
    EscalatesToDeadLetter(m, 0, maxRetries, 0, error, failedAt);
  }
}
