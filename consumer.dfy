/** The worker's processing callback: it reads the job out of the envelope,
    reports PROCESSING to the API, translates, and reports COMPLETED, or
    FAILED with the error's message, before rethrowing so that the broker
    handler retries. Every HTTP call goes through `updateTranslationStatusAPI`,
    whose outcomes are supplied as an oracle, one per call. */
module Consumer {

  import opened Wrappers
  import opened Strings
  import opened Wire
  import TranslationService
  import Publish

  const DefaultApiBaseUrl := "http://localhost:4040/api"
  const FailureCode := "TRANSLATION_ERROR"

  /** A thrown JavaScript error: its `name` and its `message`. */
  datatype JsError = JsError(name: string, message: string)

  /** `API_BASE_URL`, or the local default when it is unset or empty. */
  function ApiBaseUrl(env: Option<string>): (url: string)
    ensures Truthy(env) ==> url == env.value
    ensures !Truthy(env) ==> url == DefaultApiBaseUrl
  {
    if Truthy(env) then env.value else DefaultApiBaseUrl
  }

  // -----------------------------------------------------------------------
  // updateTranslationStatusAPI

  /** One HTTP request the worker sends. */
  datatype StatusRequest = StatusRequest(
    httpMethod: string,
    url: string,
    headers: map<string, string>,
    body: StatusBody)

  function StatusUrl(baseUrl: string, requestId: string): string {
    baseUrl + "/translation/" + requestId + "/status"
  }

  /** The request for one status update: a `PUT` to the record's status
      route, authenticated by the request id itself as `x-api-key`. */
  function StatusRequestFor(baseUrl: string, requestId: string, body: StatusBody): (q: StatusRequest)
    ensures q.httpMethod == "PUT" && q.url == StatusUrl(baseUrl, requestId) && q.body == body
    ensures q.headers.Keys == {"x-api-key", "Content-Type"}
    ensures q.headers["x-api-key"] == requestId && q.headers["Content-Type"] == "application/json"
  {
    StatusRequest("PUT", StatusUrl(baseUrl, requestId),
      map["x-api-key" := requestId, "Content-Type" := "application/json"], body)
  }

  /** What `JSON.parse` makes of a rejected answer's body: no JSON at all,
      the literal `null`, or a value whose `message` property, as the
      template literal prints it, is `message` (`None` when it is absent). */
  datatype ErrorBody = NotJson | JsonNull | JsonValue(message: Option<string>)

  /** What `fetch` does with one request: the server answers with a status,
      a body text and what that text parses to; or `fetch` itself throws. */
  datatype FetchOutcome =
    | Responded(status: nat, text: string, parsed: ErrorBody)
    | FetchThrew(error: JsError)

  predicate IsOk(status: nat) {
    200 <= status <= 299
  }

  const ApiErrorPrefix := "API Error: "

  /** The part after ` - `: the parsed `message` when it is truthy, the raw
      body otherwise (a body that is not JSON stands for itself). */
  function ErrorDetail(text: string, parsed: ErrorBody): string {
    if parsed.JsonValue? && Truthy(parsed.message) then parsed.message.value else text
  }

  /** The message of the error thrown for a non-2xx answer. */
  function ApiErrorMessage(status: nat, text: string, parsed: ErrorBody): string {
    ApiErrorPrefix + NatToString(status) + " - " + ErrorDetail(text, parsed)
  }

  /** Reading `message` of a `null` error body throws before the API error
      is built. */
  const NullBodyError := JsError("TypeError", "Cannot read properties" + " of null (reading 'message')")

  function NetworkErrorMessage(url: string): string {
    "Network error: Cannot connect to " + url + ". Is the API server running?"
  }

  /** The outcome of `updateTranslationStatusAPI` for a call to `url`: a 2xx
      answer succeeds; any other answer throws an `Error` naming the status;
      a `TypeError` mentioning `fetch` becomes a network error naming the
      URL; any other thrown error passes through unchanged. A rejected answer
      whose body is JSON `null` throws the property-read `TypeError`, which
      does not mention `fetch` and so passes through too. */
  function ReportOutcome(url: string, f: FetchOutcome): (r: Result<(), JsError>)
    ensures r.Ok? <==> f.Responded? && IsOk(f.status)
    ensures f.FetchThrew? && !(f.error.name == "TypeError" && Contains(f.error.message, "fetch")) ==> r == Err(f.error)
    ensures f.Responded? && !IsOk(f.status) ==> (r == Err(NullBodyError) <==> f.parsed.JsonNull?)
  {
    match f
    case Responded(status, text, parsed) =>
      if IsOk(status) then Ok(())
      else if parsed.JsonNull? then
        assert !Contains(NullBodyError.message, "fetch") by {
          LacksConcat("Cannot read properties", " of null (reading 'message')", 'h');
          LacksRefutes(NullBodyError.message, "fetch", 4);
        }
        Err(NullBodyError)
      else Err(JsError("Error", ApiErrorMessage(status, text, parsed)))
    case FetchThrew(e) =>
      if e.name == "TypeError" && Contains(e.message, "fetch") then Err(JsError("Error", NetworkErrorMessage(url)))
      else Err(e)
  }

  /** The status code of a rejected answer can be read back from the error
      message: it follows the fixed prefix and `parseInt` recovers it. A
      `null` body is the exception: it throws the property-read error. */
  lemma ApiErrorNamesStatus(url: string, status: nat, text: string, parsed: ErrorBody)
    requires !IsOk(status)
    ensures var r := ReportOutcome(url, Responded(status, text, parsed));
      var detail := ErrorDetail(text, parsed);
      && r.Err?
      && (parsed.JsonNull? ==> r.error == NullBodyError)
      && (!parsed.JsonNull? ==>
            && r.error.name == "Error"
            && |r.error.message| > |ApiErrorPrefix| + |" - " + detail|
            && r.error.message[..|ApiErrorPrefix|] == ApiErrorPrefix
            && ParseInt(r.error.message[|ApiErrorPrefix|..]) == Some(status)
            && r.error.message[|r.error.message| - |" - " + detail|..] == " - " + detail)
  {
    ApiErrorMessageParts(status, ErrorDetail(text, parsed));
  }

  /** The three parts of an API error message can be read back from it. */
  lemma ApiErrorMessageParts(status: nat, detail: string)
    ensures var m, tail := ApiErrorPrefix + NatToString(status) + " - " + detail, " - " + detail;
      && |m| > |ApiErrorPrefix| + |tail|
      && m[..|ApiErrorPrefix|] == ApiErrorPrefix
      && ParseInt(m[|ApiErrorPrefix|..]) == Some(status)
      && m[|m| - |tail|..] == tail
  {
    var m := ApiErrorPrefix + NatToString(status) + " - " + detail;
    var tail := " - " + detail;
    var digits := NatToString(status);
    assert m == ApiErrorPrefix + (digits + tail);
    assert m[|ApiErrorPrefix|..] == digits + tail;
    assert m == (ApiErrorPrefix + digits) + tail;
    assert m[|m| - |tail|..] == tail;
    ParseIntPrinted(status, tail);
  }

  /** A failed connection is reported with the URL it tried. */
  lemma FetchFailureNamesUrl(url: string, e: JsError)
    requires e.name == "TypeError" && Contains(e.message, "fetch")
    ensures var r := ReportOutcome(url, FetchThrew(e));
      && r == Err(JsError("Error", NetworkErrorMessage(url)))
      && Contains(r.error.message, url)
      && !OccursAt(r.error.message, ApiErrorPrefix, 0)
  {
    OccursBetween("Network error: Cannot connect to ", url, ". Is the API server running?");
    var m := NetworkErrorMessage(url);
    var lead := "Network error: Cannot connect to ";
    assert m == lead + (url + ". Is the API server running?");
    assert lead[0] == 'N';
    assert m[0..|ApiErrorPrefix|][0] == m[0] == 'N' != ApiErrorPrefix[0];
  }

  // -----------------------------------------------------------------------
  // processTranslation

  /** The fields the callback destructures out of the envelope. */
  datatype Job = Job(requestId: string, text: string, sourceLang: string, targetLang: string)

  const DataMissing := JsError("TypeError", "Cannot destructure property 'text' of 'data' as it is undefined.")
  const TextNotString := JsError("TypeError", "text.substring is not a function")

  /** Destructuring `data` and logging `text.substring(...)`, which happen
      before the `try`: they throw when `data` is missing or `text` is not a
      string. */
  function ReadJob(message: Envelope): (r: Result<Job, JsError>)
    ensures r.Ok? <==> message.data.Some? && message.data.value.text.Some?
    ensures r.Ok? ==> r.value.requestId == message.correlationId
    ensures message.data.None? ==> r == Err(DataMissing)
  {
    match message.data
    case None => Err(DataMissing)
    case Some(data) =>
      match data.text
      case None => Err(TextNotString)
      case Some(text) => Ok(Job(message.correlationId, text, data.sourceLang, data.targetLang))
  }

  /** Every job the API publishes can be read back by the worker, with the
      request id it was published under. */
  lemma PublishedJobIsReadable(input: Publish.PublishInput, now: int)
    ensures ReadJob(Publish.BuildEnvelope(input, now))
         == Ok(Job(input.requestId, input.text, input.sourceLang, input.targetLang))
  {
  }

  function ProcessingBody(): StatusBody {
    StatusBody(PROCESSING, None, None, None)
  }

  function CompletedBody(translatedText: string): StatusBody {
    StatusBody(COMPLETED, Some(translatedText), None, None)
  }

  function FailedBody(error: JsError): StatusBody {
    StatusBody(FAILED, None, Some(error.message), Some(FailureCode))
  }

  /** `processTranslation(translationMessage)`. The `k`-th status call
      answers with `api[k]`; the translation library answers with `lib`, as
      in `TranslationService.TranslateTextRobust`. Returns the outcome
      (an error is what the callback rethrows), the status requests sent and
      the library calls made. `env` is the `API_BASE_URL` setting. The answer
      to the FAILED report is ignored. */
  method ProcessTranslation(message: Envelope, env: Option<string>, api: seq<FetchOutcome>,
                            available: bool, lib: seq<TranslationService.LibOutcome>)
    returns (r: Result<(), JsError>, requests: seq<StatusRequest>, calls: seq<TranslationService.LibRequest>)
    requires |api| >= 3 && |lib| >= TranslationService.RobustAttempts
    ensures ReadJob(message).Err? ==> r == Err(ReadJob(message).error) && requests == [] && calls == []
    ensures ReadJob(message).Ok? ==>
      var job := ReadJob(message).value;
      var baseUrl := ApiBaseUrl(env);
      var url := StatusUrl(baseUrl, job.requestId);
      var translated := TranslationService.Robust(available, lib);
      && 2 <= |requests| <= 3
      && requests[0] == StatusRequestFor(baseUrl, job.requestId, ProcessingBody())
      && (forall q :: q in requests ==> q.url == url && "x-api-key" in q.headers && q.headers["x-api-key"] == job.requestId)
      && (forall i :: 0 <= i < |calls| ==> calls[i] == TranslationService.LibRequest(job.text, job.sourceLang, job.targetLang))
      && (ReportOutcome(url, api[0]).Ok? ==>
            calls == TranslationService.RobustCalls(TranslationService.LibRequest(job.text, job.sourceLang, job.targetLang), available, lib))
      && (r.Ok? <==> ReportOutcome(url, api[0]).Ok? && translated.Ok? && ReportOutcome(url, api[1]).Ok?)
      && (r.Ok? ==> |requests| == 2)
      && (r.Err? ==> requests[|requests| - 1] == StatusRequestFor(baseUrl, job.requestId, FailedBody(r.error)))
      && (ReportOutcome(url, api[0]).Err? ==> r == ReportOutcome(url, api[0]) && |requests| == 2 && calls == [])
      && (ReportOutcome(url, api[0]).Ok? && translated.Err? ==>
            r == Err(JsError("Error", translated.error)) && |requests| == 2)
      && (ReportOutcome(url, api[0]).Ok? && translated.Ok? ==>
            requests[1] == StatusRequestFor(baseUrl, job.requestId, CompletedBody(translated.value)))
      && (ReportOutcome(url, api[0]).Ok? && translated.Ok? && ReportOutcome(url, api[1]).Err? ==>
            r == ReportOutcome(url, api[1]) && |requests| == 3)
  {
    var job := ReadJob(message);
    if job.Err? {
      return Err(job.error), [], [];
    }
    var baseUrl := ApiBaseUrl(env);
    var id := job.value.requestId;
    var url := StatusUrl(baseUrl, id);
    calls := [];
    requests := [StatusRequestFor(baseUrl, id, ProcessingBody())];
    var failure: Option<JsError> := None;
    var reported := ReportOutcome(url, api[|requests| - 1]);
    if reported.Err? {
      failure := Some(reported.error);
    } else {
      var translated, delays;
      translated, calls, delays := TranslationService.TranslateTextRobust(
        job.value.text, job.value.sourceLang, job.value.targetLang, available, lib);
      if translated.Err? {
        failure := Some(JsError("Error", translated.error));
      } else {
        requests := requests + [StatusRequestFor(baseUrl, id, CompletedBody(translated.value))];
        reported := ReportOutcome(url, api[|requests| - 1]);
        if reported.Err? {
          failure := Some(reported.error);
        }
      }
    }
    if failure.Some? {
      requests := requests + [StatusRequestFor(baseUrl, id, FailedBody(failure.value))];
      r := Err(failure.value);
    } else {
      r := Ok(());
    }
  }
}
