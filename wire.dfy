/** The data that crosses process boundaries: the job envelope the API
    publishes, the broker message that carries it, and the body of the
    status-update call the worker makes back to the API. */
module Wire {

  import opened Wrappers

  /** Lifecycle of a translation record. */
  datatype Status = QUEUED | PROCESSING | COMPLETED | FAILED | CANCELLED

  /** The status as it is spelled in JSON and in query strings. */
  function StatusName(s: Status): string {
    match s
    case QUEUED => "QUEUED"
    case PROCESSING => "PROCESSING"
    case COMPLETED => "COMPLETED"
    case FAILED => "FAILED"
    case CANCELLED => "CANCELLED"
  }

  /** The `data` object of an envelope. `text` is `None` when the JSON value
      is not a string. */
  datatype JobData = JobData(text: Option<string>, sourceLang: string, targetLang: string)

  /** The JSON object the producer serialises. `data` is `None` when the
      field is absent. Timestamps are milliseconds since the epoch. */
  datatype Envelope = Envelope(
    eventType: string,
    version: string,
    producer: string,
    timestamp: int,
    correlationId: string,
    retryCount: int,
    maxRetries: int,
    data: Option<JobData>)

  /** A message body: text that `JSON.parse` either turns into an envelope or
      rejects with a parse error. */
  datatype Body = Json(envelope: Envelope) | Malformed(raw: string, parseError: string)

  datatype HeaderValue = Num(n: int) | Str(s: string)

  /** AMQP message properties, as far as the pipeline sets or reads them. */
  datatype Properties = Properties(
    persistent: bool,
    priority: Option<int>,
    messageId: Option<string>,
    timestamp: Option<int>,
    headers: map<string, HeaderValue>)

  datatype Message = Message(body: Body, props: Properties)

  /** JSON body of `PUT /translation/:requestId/status`; an absent field is
      `None`. */
  datatype StatusBody = StatusBody(
    status: Status,
    translatedText: Option<string>,
    errorMessage: Option<string>,
    errorCode: Option<string>)

  /** JavaScript truthiness of an optional string field. */
  predicate Truthy(s: Option<string>) {
    s.Some? && s.value != ""
  }
}
