/** The API's translation handlers over the record store: creating a record
    and publishing its job, looking a record up, listing records a page at a
    time, and applying the worker's status reports. The database is a map
    from request id to record; the clock and the id generator are
    parameters. */
module TranslationController {

  import opened Wrappers
  import opened Strings
  import opened Wire
  import Publish
  import Consumer

  /** One row of the translations table. */
  datatype Translation = Translation(
    requestId: string,
    text: string,
    sourceLang: string,
    targetLang: string,
    status: Status,
    translatedText: Option<string>,
    errorMessage: Option<string>,
    errorCode: Option<string>,
    retryCount: nat,
    queuedAt: int,
    createdAt: int,
    updatedAt: int)

  /** Every record is stored under its own request id. */
  predicate KeyedById(records: map<string, Translation>) {
    forall id :: id in records ==> records[id].requestId == id
  }

  // -----------------------------------------------------------------------
  // createTranslation

  const QueueErrorMessage := "Failed to publish translation to queue"
  const QueueErrorCode := "QUEUE_ERROR"
  const QueuedReplyMessage := "Translation request has been queued for processing"
  const QueueFailureReply := "Failed to create translation request due to queue error"
  const CreateFailureReply := "Failed to create translation request"

  /** The answer of `createTranslation`: 202 with the new id, or 500. */
  datatype CreateReply =
    | Queued(requestId: string, status: Status, message: string, createdAt: int)
    | CreateFailed(message: string)

  function CreateCode(reply: CreateReply): nat {
    if reply.Queued? then 202 else 500
  }

  /** The record `prisma.translation.create` stores: languages lower-cased,
      status QUEUED, no result yet, no failed report yet. */
  function NewRecord(requestId: string, text: string, sourceLang: string, targetLang: string, now: int): (t: Translation)
    ensures t.requestId == requestId && t.text == text && t.status == QUEUED
    ensures t.sourceLang == Lower(sourceLang) && t.targetLang == Lower(targetLang)
    ensures t.translatedText.None? && t.errorMessage.None? && t.errorCode.None? && t.retryCount == 0
  {
    Translation(requestId, text, Lower(sourceLang), Lower(targetLang), QUEUED, None, None, None, 0, now, now, now)
  }

  /** What the handler hands to the producer. `wordCount` is the number of
      pieces of the text split on single spaces: one more than its number of
      spaces. */
  function PublishInputFor(t: Translation): (input: Publish.PublishInput)
    ensures input.requestId == t.requestId && input.text == t.text
    ensures input.sourceLang == t.sourceLang && input.targetLang == t.targetLang
    ensures input.wordCount == Occurrences(t.text, ' ') + 1 && input.maxRetries.None?
  {
    Publish.PublishInput(t.requestId, t.text, t.sourceLang, t.targetLang, |Split(t.text, ' ')|, None)
  }

  /** The record after a failed publish. */
  function QueueFailed(t: Translation, now: int): Translation {
    t.(status := FAILED, errorMessage := Some(QueueErrorMessage), errorCode := Some(QueueErrorCode), updatedAt := now)
  }

  // -----------------------------------------------------------------------
  // getTranslationStatus

  /** The 200 body: the fixed fields, and the three optional ones only when
      they are truthy. */
  datatype StatusView = StatusView(
    requestId: string,
    status: Status,
    originalText: string,
    sourceLang: string,
    targetLang: string,
    createdAt: int,
    updatedAt: int,
    queuedAt: int,
    retryCount: nat,
    translatedText: Option<string>,
    errorMessage: Option<string>,
    errorCode: Option<string>)

  datatype StatusReply = Found(view: StatusView) | NotFound(error: string, message: string)

  function StatusCode(reply: StatusReply): nat {
    if reply.Found? then 200 else 404
  }

  /** `Some(v)` when `v` is truthy, absent otherwise. */
  function IfTruthy(s: Option<string>): (r: Option<string>)
    ensures r.Some? <==> Truthy(s)
    ensures r.Some? ==> r == s
  {
    if Truthy(s) then s else None
  }

  function GetTranslationStatus(records: map<string, Translation>, requestId: string): (reply: StatusReply)
    ensures StatusCode(reply) == 404 <==> requestId !in records
    ensures reply.NotFound? ==> reply.message == "No translation found with requestId: " + requestId
    ensures reply.Found? ==>
      var t := records[requestId];
      var v := reply.view;
      && v.requestId == t.requestId && v.status == t.status && v.originalText == t.text
      && v.sourceLang == t.sourceLang && v.targetLang == t.targetLang && v.retryCount == t.retryCount
      && v.createdAt == t.createdAt && v.updatedAt == t.updatedAt && v.queuedAt == t.queuedAt
      && (v.translatedText.Some? <==> Truthy(t.translatedText))
      && (v.errorMessage.Some? <==> Truthy(t.errorMessage))
      && (v.errorCode.Some? <==> Truthy(t.errorCode))
      && (v.translatedText.Some? ==> v.translatedText == t.translatedText)
      && (v.errorMessage.Some? ==> v.errorMessage == t.errorMessage)
      && (v.errorCode.Some? ==> v.errorCode == t.errorCode)
  {
    if requestId !in records then
      NotFound("Translation not found", "No translation found with requestId: " + requestId)
    else
      var t := records[requestId];
      Found(StatusView(t.requestId, t.status, t.text, t.sourceLang, t.targetLang,
        t.createdAt, t.updatedAt, t.queuedAt, t.retryCount,
        IfTruthy(t.translatedText), IfTruthy(t.errorMessage), IfTruthy(t.errorCode)))
  }

  // -----------------------------------------------------------------------
  // updateTranslationStatus

  const CompletedNeedsText := "translatedText is required when status is COMPLETED"
  const FailedNeedsMessage := "errorMessage is required when status is FAILED"
  const UpdateFailureReply := "Failed to update translation status"

  datatype UpdateReply =
    | StatusUpdated(requestId: string, status: Status, message: string, updatedAt: int)
    | Unauthorized
    | ValidationFailed(message: string)
    | UpdateFailed(message: string)

  function UpdateCode(reply: UpdateReply): nat {
    match reply
    case StatusUpdated(_, _, _, _) => 200
    case Unauthorized => 401
    case ValidationFailed(_) => 400
    case UpdateFailed(_) => 500
  }

  datatype UpdateResult = UpdateResult(reply: UpdateReply, records: map<string, Translation>)

  /** The body carries the field its status requires. */
  predicate CarriesRequiredField(body: StatusBody) {
    && (body.status == COMPLETED ==> Truthy(body.translatedText))
    && (body.status == FAILED ==> Truthy(body.errorMessage))
  }

  /** The record after an accepted report: new status and time; COMPLETED
      stores the text; FAILED stores the message, stores the code only when
      one was sent, and counts one more failure. */
  function Applied(t: Translation, body: StatusBody, now: int): Translation {
    var t1 := t.(status := body.status, updatedAt := now);
    if body.status == COMPLETED then t1.(translatedText := body.translatedText)
    else if body.status == FAILED then
      t1.(errorMessage := body.errorMessage,
          errorCode := if body.errorCode.Some? then body.errorCode else t.errorCode,
          retryCount := t.retryCount + 1)
    else t1
  }

  /** `updateTranslationStatus`: the report is authorised by any existing
      record whose id equals `x-api-key`, validated against its status, and
      applied to the record named in the path. No transition between
      statuses is refused. */
  function Update(records: map<string, Translation>, pathId: string, apiKey: string, body: StatusBody, now: int): (u: UpdateResult)
    ensures UpdateCode(u.reply) == 401 <==> apiKey !in records
    ensures UpdateCode(u.reply) == 400 <==> apiKey in records && !CarriesRequiredField(body)
    ensures UpdateCode(u.reply) == 200 <==> apiKey in records && CarriesRequiredField(body) && pathId in records
    ensures !u.reply.StatusUpdated? ==> u.records == records
    ensures u.reply.StatusUpdated? ==> u.records.Keys == records.Keys
    ensures u.reply.StatusUpdated? ==>
      var t := records[pathId];
      var n := u.records[pathId];
      && (forall id :: id in records && id != pathId ==> u.records[id] == records[id])
      && n.status == body.status && n.updatedAt == now
      && n.requestId == t.requestId && n.text == t.text && n.sourceLang == t.sourceLang
      && n.targetLang == t.targetLang && n.createdAt == t.createdAt && n.queuedAt == t.queuedAt
      && n.retryCount == t.retryCount + (if body.status == FAILED then 1 else 0)
      && n.translatedText == (if body.status == COMPLETED then body.translatedText else t.translatedText)
      && n.errorMessage == (if body.status == FAILED then body.errorMessage else t.errorMessage)
      && n.errorCode == (if body.status == FAILED && body.errorCode.Some? then body.errorCode else t.errorCode)
    ensures KeyedById(records) ==> KeyedById(u.records)
    ensures KeyedById(records) && u.reply.StatusUpdated? ==> u.reply.requestId == pathId
  {
    if apiKey !in records then UpdateResult(Unauthorized, records)
    else if body.status == COMPLETED && !Truthy(body.translatedText) then
      UpdateResult(ValidationFailed(CompletedNeedsText), records)
    else if body.status == FAILED && !Truthy(body.errorMessage) then
      UpdateResult(ValidationFailed(FailedNeedsMessage), records)
    else if pathId !in records then UpdateResult(UpdateFailed(UpdateFailureReply), records)
    else
      var n := Applied(records[pathId], body, now);
      UpdateResult(StatusUpdated(n.requestId, n.status, "Translation status updated to " + StatusName(body.status), now),
        records[pathId := n])
  }

  /** Any status may follow any other: a completed or failed record can be
      put back to QUEUED or PROCESSING by an authorised report. */
  lemma NoTransitionCheck(records: map<string, Translation>, id: string, to: Status, now: int)
    requires id in records && to != COMPLETED && to != FAILED
    ensures var u := Update(records, id, id, StatusBody(to, None, None, None), now);
      u.reply.StatusUpdated? && u.records[id].status == to
  {
  }

  /** The key authorises, the path selects: a report authorised by one record
      changes another and leaves the authorising record as it was. */
  lemma PathSelectsRecord(records: map<string, Translation>, pathId: string, apiKey: string, body: StatusBody, now: int)
    requires apiKey in records && pathId in records && apiKey != pathId && CarriesRequiredField(body)
    ensures var u := Update(records, pathId, apiKey, body, now);
      u.reply.StatusUpdated? && u.records[apiKey] == records[apiKey] && u.records[pathId].status == body.status
  {
  }

  /** Applying a sequence of reports to one record. */
  function UpdateAll(records: map<string, Translation>, id: string, bodies: seq<StatusBody>, now: int): map<string, Translation>
    decreases |bodies|
  {
    if |bodies| == 0 then records
    else UpdateAll(Update(records, id, id, bodies[0], now).records, id, bodies[1..], now)
  }

  /** The number of FAILED reports in a sequence. */
  function FailedReports(bodies: seq<StatusBody>): nat {
    if |bodies| == 0 then 0
    else (if bodies[0].status == FAILED then 1 else 0) + FailedReports(bodies[1..])
  }

  /** The stored `retryCount` counts FAILED reports: after any sequence of
      well-formed reports for an existing record it has grown by exactly the
      number of FAILED ones among them. */
  lemma {:induction false} RetryCountCountsFailedReports(records: map<string, Translation>, id: string, bodies: seq<StatusBody>, now: int)
    requires id in records
    requires forall i :: 0 <= i < |bodies| ==> CarriesRequiredField(bodies[i])
    ensures id in UpdateAll(records, id, bodies, now)
    ensures UpdateAll(records, id, bodies, now)[id].retryCount == records[id].retryCount + FailedReports(bodies)
    decreases |bodies|
  {
    if |bodies| > 0 {
      var next := Update(records, id, id, bodies[0], now).records;
      assert CarriesRequiredField(bodies[0]);
      RetryCountCountsFailedReports(next, id, bodies[1..], now);
    }
  }

  /** A report the API accepted is what a later lookup shows: a completed
      record shows its text and a failed one its error message. */
  lemma UpdateThenStatus(records: map<string, Translation>, id: string, body: StatusBody, now: int)
    requires id in records && CarriesRequiredField(body)
    ensures var v := GetTranslationStatus(Update(records, id, id, body, now).records, id);
      && v.Found? && v.view.status == body.status
      && (body.status == COMPLETED ==> v.view.translatedText == body.translatedText)
      && (body.status == FAILED ==> v.view.errorMessage == body.errorMessage)
  {
  }

  /** Every report the worker sends for a stored record is accepted: it is
      authorised by its own id, and COMPLETED and FAILED reports carry their
      required field whenever the text or the error message is non-empty. */
  lemma WorkerReportAccepted(records: map<string, Translation>, baseUrl: string, id: string, body: StatusBody, now: int)
    requires id in records
    requires body == Consumer.ProcessingBody()
          || (exists text: string {:trigger Consumer.CompletedBody(text)} :: text != "" && body == Consumer.CompletedBody(text))
          || (exists e: Consumer.JsError {:trigger Consumer.FailedBody(e)} :: e.message != "" && body == Consumer.FailedBody(e))
    ensures var q := Consumer.StatusRequestFor(baseUrl, id, body);
      Update(records, id, q.headers["x-api-key"], q.body, now).reply.StatusUpdated?
  {
  }

  // -----------------------------------------------------------------------
  // The store

  class TranslationStore {
    var records: map<string, Translation>

    ghost predicate Valid()
      reads this
    {
      KeyedById(records)
    }

    constructor()
      ensures records == map[] && Valid()
    {
      records := map[];
    }

    /** `createTranslation` with the generated id `requestId`, the clock
        reading `now` and the broker's behaviour `script`. Returns the reply
        and what was handed to the exchange. */
    method CreateTranslation(requestId: string, text: string, sourceLang: string, targetLang: string,
                             now: int, script: Publish.BrokerScript)
      returns (reply: CreateReply, sent: seq<Publish.Publication>)
      requires Valid()
      modifies this
      ensures Valid()
      ensures requestId in old(records) ==> reply == CreateFailed(CreateFailureReply) && records == old(records) && sent == []
      ensures requestId !in old(records) ==>
        var t := NewRecord(requestId, text, sourceLang, targetLang, now);
        var job := Publish.Publication(Publish.Exchange, Publish.RoutingKey, Publish.Outgoing(PublishInputFor(t), now));
        && (sent == [] || sent == [job])
        && (sent == [job] <==> script.connect.Done? && script.createChannel.Done? && script.assertExchange.Done? && !script.publish.WriteThrew?)
        && (reply.Queued? ==> sent == [job])
        && (reply.Queued? ==> reply == Queued(requestId, QUEUED, QueuedReplyMessage, now) && records == old(records)[requestId := t])
        && (reply.CreateFailed? ==> reply.message == QueueFailureReply && records == old(records)[requestId := QueueFailed(t, now)])
        && (CreateCode(reply) == 202 <==> Publish.FirstError(script).None? && script.closeConnection.Done?)
    {
      if requestId in records {
        // the unique constraint on requestId rejects the insert
        return CreateFailed(CreateFailureReply), [];
      }
      var translation := NewRecord(requestId, text, sourceLang, targetLang, now);
      records := records[requestId := translation];
      var published, connected, closed;
      published, sent, connected, closed := Publish.PublishTranslation(PublishInputFor(translation), now, script);
      if published.Err? {
        records := records[requestId := QueueFailed(translation, now)];
        return CreateFailed(QueueFailureReply), sent;
      }
      reply := Queued(translation.requestId, translation.status, QueuedReplyMessage, translation.createdAt);
    }

    /** `updateTranslationStatus` for `PUT /translation/:pathId/status` with
        header `x-api-key: apiKey`. */
    method UpdateTranslationStatus(pathId: string, apiKey: string, body: StatusBody, now: int)
      returns (reply: UpdateReply)
      requires Valid()
      modifies this
      ensures Valid()
      ensures UpdateResult(reply, records) == Update(old(records), pathId, apiKey, body, now)
      ensures reply.StatusUpdated? ==> reply.requestId == pathId
    {
      if apiKey !in records {
        return Unauthorized;
      }
      // updateData, field by field; an absent field leaves the column as it is
      var status := body.status;
      var translatedText: Option<string> := None;
      var errorMessage: Option<string> := None;
      var errorCode: Option<string> := None;
      var increment := 0;
      if status == COMPLETED {
        if !Truthy(body.translatedText) {
          return ValidationFailed(CompletedNeedsText);
        }
        translatedText := body.translatedText;
      }
      if status == FAILED {
        if !Truthy(body.errorMessage) {
          return ValidationFailed(FailedNeedsMessage);
        }
        errorMessage := body.errorMessage;
        errorCode := body.errorCode;
        increment := 1;
      }
      if pathId !in records {
        // the update of a missing row throws
        return UpdateFailed(UpdateFailureReply);
      }
      var t := records[pathId];
      var n := t.(status := status, updatedAt := now,
                  translatedText := if translatedText.Some? then translatedText else t.translatedText,
                  errorMessage := if errorMessage.Some? then errorMessage else t.errorMessage,
                  errorCode := if errorCode.Some? then errorCode else t.errorCode,
                  retryCount := t.retryCount + increment);
      assert n == Applied(t, body, now) && n.requestId == pathId;
      records := records[pathId := n];
      reply := StatusUpdated(n.requestId, n.status, "Translation status updated to " + StatusName(status), now);
    }
  }

  // -----------------------------------------------------------------------
  // getAllTranslations

  const DefaultPage := 1
  const DefaultLimit := 10

  /** The query string: the three filters, applied only when given, and the
      page and limit, already read as numbers. */
  datatype ListQuery = ListQuery(
    status: Option<Status>,
    sourceLang: Option<string>,
    targetLang: Option<string>,
    page: Option<nat>,
    limit: Option<nat>)

  /** The selected columns of a listed record. */
  datatype Summary = Summary(
    requestId: string,
    status: Status,
    sourceLang: string,
    targetLang: string,
    createdAt: int,
    updatedAt: int,
    retryCount: nat)

  function SummaryOf(t: Translation): Summary {
    Summary(t.requestId, t.status, t.sourceLang, t.targetLang, t.createdAt, t.updatedAt, t.retryCount)
  }

  datatype Listing = Listing(items: seq<Summary>, totalPages: nat)

  /** The rows in `orderBy: { createdAt: 'desc' }` order. */
  predicate NewestFirst(rows: seq<Translation>) {
    forall i, j :: 0 <= i < j < |rows| ==> rows[i].createdAt >= rows[j].createdAt
  }

  predicate Matches(t: Translation, q: ListQuery) {
    && (q.status.None? || t.status == q.status.value)
    && (!Truthy(q.sourceLang) || t.sourceLang == q.sourceLang.value)
    && (!Truthy(q.targetLang) || t.targetLang == q.targetLang.value)
  }

  /** The `where` clause: the matching rows, in their order. */
  function Filter(rows: seq<Translation>, q: ListQuery): (r: seq<Translation>)
    ensures |r| <= |rows|
    ensures forall t :: t in r <==> t in rows && Matches(t, q)
    ensures NewestFirst(rows) ==> NewestFirst(r)
    decreases |rows|
  {
    if |rows| == 0 then []
    else
      var rest := Filter(rows[1..], q);
      if Matches(rows[0], q) then
        assert NewestFirst(rows) ==> forall t :: t in rest ==> t.createdAt <= rows[0].createdAt by {
          if NewestFirst(rows) {
            forall t | t in rest
              ensures t.createdAt <= rows[0].createdAt
            {
              var k :| 0 <= k < |rows[1..]| && rows[1..][k] == t;
              assert rows[k + 1] == t;
            }
          }
        }
        [rows[0]] + rest
      else rest
  }

  /** One row is kept exactly when it matches. */
  lemma FilterSingle(t: Translation, q: ListQuery)
    ensures Filter([t], q) == if Matches(t, q) then [t] else []
  {
    assert [t][1..] == [];
  }

  /** Filtering a concatenation filters each part and keeps them in order;
      with `FilterSingle` this fixes the result, its length and its order. */
  lemma {:induction false} FilterConcat(a: seq<Translation>, b: seq<Translation>, q: ListQuery)
    ensures Filter(a + b, q) == Filter(a, q) + Filter(b, q)
    decreases |a|
  {
    if |a| == 0 {
      assert a + b == b;
    } else {
      assert (a + b)[0] == a[0];
      assert (a + b)[1..] == a[1..] + b;
      FilterConcat(a[1..], b, q);
    }
  }

  /** Every kept row is a stored row that matches. */
  lemma FilterIndex(rows: seq<Translation>, q: ListQuery, k: nat)
    requires k < |Filter(rows, q)|
    ensures Filter(rows, q)[k] in rows && Matches(Filter(rows, q)[k], q)
  {
    assert Filter(rows, q)[k] in Filter(rows, q);
  }

  /** Without filters every row is listed. */
  lemma {:induction false} NoFilterKeepsAll(rows: seq<Translation>, page: Option<nat>, limit: Option<nat>)
    ensures Filter(rows, ListQuery(None, None, None, page, limit)) == rows
    decreases |rows|
  {
    if |rows| > 0 {
      NoFilterKeepsAll(rows[1..], page, limit);
      assert [rows[0]] + rows[1..] == rows;
    }
  }

  function Skip(page: nat, limit: nat): nat
    requires page >= 1
  {
    (page - 1) * limit
  }

  /** `Math.ceil(total / limit)`: the fewest pages of `limit` rows that hold
      `total` rows. */
  function TotalPages(total: nat, limit: nat): (n: nat)
    requires limit >= 1
    ensures n * limit >= total
    ensures n > 0 ==> (n - 1) * limit < total
  {
    var n := (total + limit - 1) / limit;
    assert n * limit <= total + limit - 1;
    assert n * limit > total - 1;
    n
  }

  /** `skip`/`take` on the ordered rows. */
  function PageOf<T>(rows: seq<T>, page: nat, limit: nat): (r: seq<T>)
    requires page >= 1
    ensures |r| <= limit
    ensures Skip(page, limit) < |rows| ==> |r| == if |rows| - Skip(page, limit) < limit then |rows| - Skip(page, limit) else limit
    ensures forall i :: 0 <= i < |r| ==> Skip(page, limit) + i < |rows| && r[i] == rows[Skip(page, limit) + i]
  {
    var skip := Skip(page, limit);
    if skip >= |rows| then []
    else if skip + limit <= |rows| then rows[skip..skip + limit]
    else rows[skip..]
  }

  lemma {:induction false} MulMonotone(a: nat, b: nat, c: nat)
    requires a <= b
    ensures a * c <= b * c
    decreases b - a
  {
    if a < b {
      MulMonotone(a, b - 1, c);
      assert (b - 1) * c + c == b * c;
    }
  }

  /** Each page starts `limit` rows after the previous one. */
  lemma SkipStep(page: nat, limit: nat)
    requires page >= 1
    ensures Skip(page + 1, limit) == Skip(page, limit) + limit
  {
    assert page * limit == (page - 1) * limit + limit;
  }

  /** A page past the last one is empty. */
  lemma PageBeyondLastIsEmpty<T>(rows: seq<T>, page: nat, limit: nat)
    requires limit >= 1 && page > TotalPages(|rows|, limit)
    ensures PageOf(rows, page, limit) == []
  {
    var n := TotalPages(|rows|, limit);
    MulMonotone(n, page - 1, limit);
  }

  /** The first `n` pages, one after the other. */
  function FirstPages<T>(rows: seq<T>, limit: nat, n: nat): seq<T>
    requires limit >= 1
  {
    if n == 0 then [] else FirstPages(rows, limit, n - 1) + PageOf(rows, n, limit)
  }

  /** The first `n` pages are the rows before the start of page `n + 1`. */
  lemma {:induction false} FirstPagesArePrefix<T>(rows: seq<T>, limit: nat, n: nat)
    requires limit >= 1
    ensures var end := Skip(n + 1, limit);
      FirstPages(rows, limit, n) == rows[..if end <= |rows| then end else |rows|]
  {
    if n > 0 {
      FirstPagesArePrefix(rows, limit, n - 1);
      SkipStep(n, limit);
      var start, end := Skip(n, limit), Skip(n + 1, limit);
      if end <= |rows| {
        assert rows[..start] + rows[start..end] == rows[..end];
      } else if start < |rows| {
        assert rows[..start] + rows[start..] == rows;
      }
    }
  }

  /** The pages from 1 to `totalPages` list every matching row once, in
      order. */
  lemma PagesCoverAll<T>(rows: seq<T>, limit: nat)
    requires limit >= 1
    ensures FirstPages(rows, limit, TotalPages(|rows|, limit)) == rows
  {
    var n := TotalPages(|rows|, limit);
    FirstPagesArePrefix(rows, limit, n);
    assert Skip(n + 1, limit) == n * limit;
    assert rows[..|rows|] == rows;
  }

  function PageNumber(q: ListQuery): nat {
    if q.page.Some? then q.page.value else DefaultPage
  }

  function PageSize(q: ListQuery): nat {
    if q.limit.Some? then q.limit.value else DefaultLimit
  }

  /** `getAllTranslations`: the rows are the table in `createdAt`
      descending order; `page` and `limit` default to 1 and 10. The items are
      the selected columns of the page's matching rows. */
  function GetAllTranslations(rows: seq<Translation>, q: ListQuery): (l: Listing)
    requires q.page.None? || q.page.value >= 1
    requires q.limit.None? || q.limit.value >= 1
    ensures |l.items| <= PageSize(q)
    ensures var total, skip := |Filter(rows, q)|, Skip(PageNumber(q), PageSize(q));
      |l.items| == if skip >= total then 0 else if total - skip < PageSize(q) then total - skip else PageSize(q)
    ensures l.totalPages == TotalPages(|Filter(rows, q)|, PageSize(q))
    ensures forall i :: 0 <= i < |l.items| ==>
      var k := Skip(PageNumber(q), PageSize(q)) + i;
      k < |Filter(rows, q)| && l.items[i] == SummaryOf(Filter(rows, q)[k])
  {
    var matching := Filter(rows, q);
    var items := PageOf(matching, PageNumber(q), PageSize(q));
    Listing(seq(|items|, i requires 0 <= i < |items| => SummaryOf(items[i])), TotalPages(|matching|, PageSize(q)))
  }

  /** `s` is the summary of a stored row that matches the filters. */
  predicate SummarisesMatch(rows: seq<Translation>, q: ListQuery, s: Summary) {
    exists t :: t in rows && Matches(t, q) && s == SummaryOf(t)
  }

  /** Every listed record is a stored record that matches the filters. */
  lemma ListedRecordsMatch(rows: seq<Translation>, q: ListQuery)
    requires q.page.None? || q.page.value >= 1
    requires q.limit.None? || q.limit.value >= 1
    ensures var items := GetAllTranslations(rows, q).items;
      forall i :: 0 <= i < |items| ==> SummarisesMatch(rows, q, items[i])
  {
    var l := GetAllTranslations(rows, q);
    var skip := Skip(PageNumber(q), PageSize(q));
    assert forall i :: 0 <= i < |l.items| ==>
      skip + i < |Filter(rows, q)| && l.items[i] == SummaryOf(Filter(rows, q)[skip + i]);
    WindowMatches(rows, q, Filter(rows, q), skip, l.items);
  }

  /** A window of the filtered rows summarises stored rows that match. */
  lemma WindowMatches(rows: seq<Translation>, q: ListQuery, matching: seq<Translation>, skip: nat, items: seq<Summary>)
    requires matching == Filter(rows, q)
    requires forall i {:trigger items[i]} :: 0 <= i < |items| ==>
      skip + i < |matching| && items[i] == SummaryOf(matching[skip + i])
    ensures forall i :: 0 <= i < |items| ==> SummarisesMatch(rows, q, items[i])
  {
    forall i | 0 <= i < |items|
      ensures SummarisesMatch(rows, q, items[i])
    {
      var summary := items[i];
      var t := matching[skip + i];
      FilterIndex(rows, q, skip + i);
      assert t in rows && Matches(t, q) && items[i] == SummaryOf(t);
    }
  }

  /** A window of rows in newest-first order is in newest-first order. */
  lemma WindowNewestFirst(rows: seq<Translation>, skip: nat, items: seq<Summary>)
    requires NewestFirst(rows)
    requires forall i {:trigger items[i]} :: 0 <= i < |items| ==> skip + i < |rows| && items[i] == SummaryOf(rows[skip + i])
    ensures forall i, j :: 0 <= i < j < |items| ==> items[i].createdAt >= items[j].createdAt
  {
    forall i, j | 0 <= i < j < |items|
      ensures items[i].createdAt >= items[j].createdAt
    {
      assert items[i].createdAt == rows[skip + i].createdAt;
      assert items[j].createdAt == rows[skip + j].createdAt;
    }
  }

  /** A page lists its records newest first. */
  lemma ListedNewestFirst(rows: seq<Translation>, q: ListQuery)
    requires q.page.None? || q.page.value >= 1
    requires q.limit.None? || q.limit.value >= 1
    requires NewestFirst(rows)
    ensures var items := GetAllTranslations(rows, q).items;
      forall i, j :: 0 <= i < j < |items| ==> items[i].createdAt >= items[j].createdAt
  {
    var l := GetAllTranslations(rows, q);
    var matching := Filter(rows, q);
    var skip := Skip(PageNumber(q), PageSize(q));
    assert NewestFirst(matching);
    assert forall i :: 0 <= i < |l.items| ==>
      skip + i < |matching| && l.items[i] == SummaryOf(matching[skip + i]);
    WindowNewestFirst(matching, skip, l.items);
  }
}
