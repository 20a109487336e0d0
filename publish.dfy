/** The producer: builds the job envelope and its AMQP options and publishes
    them on the translation exchange, closing the connection afterwards. */
module Publish {

  import opened Wrappers
  import opened Wire

  const Exchange := "translationExchange"
  const RoutingKey := "translationQueue"
  const DefaultMaxRetries := 3
  const ErrorPrefix := "Error publishing translation request: "
  const BufferFullMessage := "Failed to publish translation to queue"

  /** What the controller hands to the producer. Fields the envelope does not
      carry, such as `wordCount`, are part of it too. */
  datatype PublishInput = PublishInput(
    requestId: string,
    text: string,
    sourceLang: string,
    targetLang: string,
    wordCount: nat,
    maxRetries: Option<int>)

  /** The `message` object literal. */
  function BuildEnvelope(input: PublishInput, now: int): (e: Envelope)
    ensures e.eventType == "translation_request" && e.version == "1.0" && e.producer == "translation-api"
    ensures e.data == Some(JobData(Some(input.text), input.sourceLang, input.targetLang))
    ensures e.correlationId == input.requestId && e.retryCount == 0 && e.timestamp == now
    ensures input.maxRetries.Some? && input.maxRetries.value != 0 ==> e.maxRetries == input.maxRetries.value
    ensures e.maxRetries == DefaultMaxRetries <==> input.maxRetries.None? || input.maxRetries.value in {0, DefaultMaxRetries}
  {
    Envelope(
      eventType := "translation_request",
      version := "1.0",
      producer := "translation-api",
      timestamp := now,
      correlationId := input.requestId,
      retryCount := 0,
      maxRetries := if input.maxRetries.Some? && input.maxRetries.value != 0 then input.maxRetries.value else DefaultMaxRetries,
      data := Some(JobData(Some(input.text), input.sourceLang, input.targetLang)))
  }

  /** The `messageOptions` object literal: persistent, priority 5, and the
      three introspection headers; no `x-retries` header. */
  function BuildProperties(input: PublishInput, now: int): (p: Properties)
    ensures p.persistent && p.priority == Some(5) && p.messageId == Some(input.requestId) && p.timestamp == Some(now)
    ensures p.headers.Keys == {"source-lang", "target-lang", "request-id"}
    ensures p.headers["source-lang"] == Str(input.sourceLang) && p.headers["target-lang"] == Str(input.targetLang)
    ensures p.headers["request-id"] == Str(input.requestId)
    ensures "x-retries" !in p.headers
  {
    Properties(
      persistent := true,
      priority := Some(5),
      messageId := Some(input.requestId),
      timestamp := Some(now),
      headers := map[
        "source-lang" := Str(input.sourceLang),
        "target-lang" := Str(input.targetLang),
        "request-id" := Str(input.requestId)])
  }

  /** An awaited broker call either completes or throws with a message. */
  datatype Step = Done | Threw(message: string)

  /** `channel.publish` returns true, returns false (write buffer full), or
      throws. */
  datatype Write = Accepted | BufferFull | WriteThrew(message: string)

  /** The outcomes of the broker calls of one publish, in program order. */
  datatype BrokerScript = BrokerScript(
    connect: Step,
    createChannel: Step,
    assertExchange: Step,
    publish: Write,
    closeChannel: Step,
    closeConnection: Step)

  datatype Publication = Publication(exchange: string, routingKey: string, message: Message)

  /** The `{success: true, requestId}` value. */
  datatype PublishAck = PublishAck(success: bool, requestId: string)

  /** The message that reaches the exchange: the envelope, serialised and
      parsed back, with its options. */
  function Outgoing(input: PublishInput, now: int): Message {
    Message(Json(BuildEnvelope(input, now)), BuildProperties(input, now))
  }

  /** The message of the first error raised inside the `try` block, if any. */
  function FirstError(script: BrokerScript): Option<string> {
    if script.connect.Threw? then Some(script.connect.message)
    else if script.createChannel.Threw? then Some(script.createChannel.message)
    else if script.assertExchange.Threw? then Some(script.assertExchange.message)
    else if script.publish.WriteThrew? then Some(script.publish.message)
    else if script.publish.BufferFull? then Some(BufferFullMessage)
    else if script.closeChannel.Threw? then Some(script.closeChannel.message)
    else None
  }

  /** One call of the producer. `sent` lists what was handed to
      `channel.publish`; `connected` and `closed` say whether a connection was
      obtained and whether `connection.close` was called. */
  method PublishTranslation(input: PublishInput, now: int, script: BrokerScript)
    returns (r: Result<PublishAck, string>, sent: seq<Publication>, connected: bool, closed: bool)
    ensures connected <==> script.connect.Done?
    ensures closed <==> connected
    ensures sent == [] || sent == [Publication(Exchange, RoutingKey, Outgoing(input, now))]
    ensures |sent| == 1 <==> script.connect.Done? && script.createChannel.Done? && script.assertExchange.Done? && !script.publish.WriteThrew?
    ensures r.Ok? <==> FirstError(script).None? && script.closeConnection.Done?
    ensures r.Ok? ==> r.value == PublishAck(true, input.requestId) && |sent| == 1
    ensures connected && script.closeConnection.Threw? ==> r == Err(script.closeConnection.message)
    ensures FirstError(script).Some? && !(connected && script.closeConnection.Threw?) ==> r == Err(ErrorPrefix + FirstError(script).value)
  {
    sent := [];
    connected := false;
    closed := false;
    var caught: Option<string> := None;
    // try
    if script.connect.Threw? {
      caught := Some(script.connect.message);
    } else {
      connected := true;
      if script.createChannel.Threw? {
        caught := Some(script.createChannel.message);
      } else if script.assertExchange.Threw? {
        caught := Some(script.assertExchange.message);
      } else {
        var message := BuildEnvelope(input, now);
        var options := BuildProperties(input, now);
        if script.publish.WriteThrew? {
          caught := Some(script.publish.message);
        } else {
          sent := sent + [Publication(Exchange, RoutingKey, Message(Json(message), options))];
          if script.publish.BufferFull? {
            caught := Some(BufferFullMessage);
          } else if script.closeChannel.Threw? {
            caught := Some(script.closeChannel.message);
          }
        }
      }
    }
    // catch: rethrow with the prefix
    if caught.Some? {
      r := Err(ErrorPrefix + caught.value);
    } else {
      r := Ok(PublishAck(true, input.requestId));
    }
    // finally: an error thrown by close replaces the outcome
    if connected {
      closed := true;
      if script.closeConnection.Threw? {
        r := Err(script.closeConnection.message);
      }
    }
  }
}
