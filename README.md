# Translation pipeline: a Dafny model

This project models the translation pipeline of `translationApiMicroService`. It has two halves.

The API side covers:
- creating a translation record and publishing its job to the `translationExchange` exchange;
- looking a record up;
- listing records a page at a time;
- applying the worker's status reports.

The worker side covers:
- consuming jobs from `translationQueue`, with requeue on failure and a dead-letter queue once `x-retries` reaches `MAX_RETRIES`;
- reporting PROCESSING, COMPLETED or FAILED to the API;
- translating through a library call wrapped in classification, retry and exponential backoff.

Outside effects are inputs to the model:
- The record store is a `map` from request id to record.
- The clock and the id generator are parameters.
- Broker calls, `fetch` and the translation library are oracles: a record of step outcomes, a sequence of HTTP outcomes and a sequence of library outcomes.

Modules, one per source file plus shared vocabulary:

| module | file | models |
|---|---|---|
| `Wrappers` | `wrappers.dfy` | `Option` and `Result` |
| `Strings` | `strings.dfy` | substring search, ASCII lower-casing, `split`, decimal printing and `parseInt` |
| `Wire` | `wire.dfy` | the job envelope, AMQP message properties and the status-report body shared by producer, broker, worker and API |
| `Publish` | `publish.dfy` | `translations-api/src/services/publish.js` |
| `Connection` | `connection.dfy` | `translations-worker/src/services/connection.js`: the `Channel` class holds the main queue, the dead-letter queue and the acknowledgement count; `HandleDelivery` is the consume callback |
| `TranslationService` | `translation_service.dfy` | `translations-worker/src/services/translationService.js` |
| `Consumer` | `consumer.dfy` | `translations-worker/src/consumer.js` |
| `TranslationController` | `translation_controller.dfy` | `translations-api/src/controllers/translationController.js`: the `TranslationStore` class holds the record map |

The imperative parts are methods proved against specification functions:
- `Channel.HandleDelivery` against `Deliver`;
- `TranslateTextWithRetry` against `Retry`;
- `TranslationStore.UpdateTranslationStatus` against `Update`.

Lemmas about those functions state what the source promises across calls:
- the retry ladder and the dead-letter lifecycle;
- which errors stop the retry loop;
- `retryCount` counting FAILED reports;
- pages covering the listing.

## Model

| member | source | states |
|---|---|---|
| Publish.BuildEnvelope | translations-api/src/services/publish.js:15-28 | The envelope carries the fixed event type, version and producer, `correlationId` = request id, `retryCount` 0 and `timestamp` the clock reading. `data` holds text and both languages unchanged. `maxRetries` is the input's value when it is present and non-zero, otherwise 3. |
| Publish.BuildProperties | translations-api/src/services/publish.js:30-40 | The options are persistent, priority 5, `messageId` = request id and `timestamp` the clock reading. The headers are exactly `source-lang`, `target-lang` and `request-id`, with no `x-retries`. `source-lang` and `target-lang` carry the input's codes unchanged and `request-id` its id. |
| Publish.PublishTranslation | translations-api/src/services/publish.js:7-70 | The connection is closed exactly when it was opened. At most the one outgoing message is handed to the exchange, and it is handed over exactly when every earlier step completed and the write did not throw. The call succeeds with `{success: true, requestId}` exactly when no step failed, the write was accepted and closing succeeded. A `false` write or any other failure is rethrown with the `Error publishing translation request: ` prefix. An error from closing the connection replaces the outcome. |
| Connection.MaxRetriesSetting | translations-worker/src/services/connection.js:6 | The retry limit is never 0: `parseInt(...) \|\| 3` replaces both NaN and 0. |
| Connection.MaxRetriesFromDecimal | translations-worker/src/services/connection.js:6 | A positive decimal setting is taken as written. |
| Connection.MaxRetriesFallback | translations-worker/src/services/connection.js:6 | A missing, empty, `"0"` or non-numeric setting gives 3. |
| Connection.Deliver | translations-worker/src/services/connection.js:37-85 | One delivery adds exactly one acknowledgement. It consumes the head and republishes it at most once: nothing on success, one copy of the unchanged body otherwise, to the main queue or the dead-letter queue. Nothing already queued changes, and readable `x-retries` headers stay readable. |
| Connection.DeliverSuccess | translations-worker/src/services/connection.js:41-85 | On success the delivery is only acknowledged. |
| Connection.DeliverRequeue | translations-worker/src/services/connection.js:55-66 | A failure below the limit appends the unchanged body to the main queue. It is persistent, and its only header is `x-retries` = retries + 1. The dead-letter queue is untouched. |
| Connection.DeliverDeadLetter | translations-worker/src/services/connection.js:67-82 | A failure at or above the limit publishes the body to the dead-letter queue with `x-retries`, `error-message` and `failed-at`, and does not requeue it. |
| Connection.MalformedIsFailure | translations-worker/src/services/connection.js:45 | A body that fails to parse takes the failure path with the parse error, whatever the callback would do. |
| Connection.RetriesOf | translations-worker/src/services/connection.js:39 | The retry count is the `x-retries` header, or 0 when the header is absent. |
| Connection.RetriesReadBack | translations-worker/src/services/connection.js:39-82 | The count written into a requeued or dead-lettered copy is the count the next delivery reads. A job from the producer reads 0. |
| Connection.Channel.constructor | translations-worker/src/services/connection.js:4-31 | The consumer starts with `MAX_RETRIES` read from the environment, the pending deliveries on the main queue, an empty dead-letter queue and no acknowledgements. |
| Connection.Channel.HandleDelivery | translations-worker/src/services/connection.js:37-85 | The consume callback changes the broker state exactly as `Deliver` says. |
| Connection.RetryLadder | translations-worker/src/services/connection.js:55-66 | Below the limit, the k-th consecutive failure leaves exactly one live copy, with `x-retries` grown by k and k acknowledgements. |
| Connection.EscalatesToDeadLetter | translations-worker/src/services/connection.js:55-82 | Starting from `x-retries` = r, a job that always fails is dead-lettered after `maxRetries - r + 1` deliveries with `x-retries` = `maxRetries`. The main queue is then empty and nothing further happens. |
| Connection.PublishedJobLifecycle | translations-worker/src/services/connection.js:39-85 | A freshly published job carries no `x-retries`, so the first delivery reads 0. If it always fails, it is requeued with `x-retries` 1 … `MAX_RETRIES`, handled `MAX_RETRIES + 1` times and dead-lettered exactly once. |
| TranslationService.RegionalCodeShape | translations-worker/src/services/translationService.js:49-78 | Every table key is a five-character `ll-rr` code. Every value is lower-case and hyphen-free except `zh-tw`. |
| TranslationService.NormalizeLanguageCode | translations-worker/src/services/translationService.js:48-82 | The result is lower-case and hyphen-free unless it is `zh-tw`. A code outside the table gives its lower-cased text before the first hyphen. |
| TranslationService.NotRegional | translations-worker/src/services/translationService.js:49-78 | A code without a hyphen is not a table key. |
| TranslationService.NormalizeIdempotent | translations-worker/src/services/translationService.js:48-82 | Normalising twice equals normalising once. |
| TranslationService.NormalizesByTable | translations-worker/src/services/translationService.js:80-81 | A code whose lower-cased form is a key normalises to the table's value. |
| TranslationService.NormalizesByLanguagePart | translations-worker/src/services/translationService.js:80-81 | A code whose lower-cased form is not a key normalises to the part before the first hyphen. |
| TranslationService.NormalizePtBr | translations-worker/src/services/translationService.js:51 | `pt-BR` normalises to `pt`. |
| TranslationService.NormalizeEnUs | translations-worker/src/services/translationService.js:55 | `en-US` normalises to `en`. |
| TranslationService.NormalizeZhCn | translations-worker/src/services/translationService.js:75 | `zh-CN` normalises to `zh`. |
| TranslationService.NormalizeZhTw | translations-worker/src/services/translationService.js:76 | `zh-TW` normalises to `zh-tw`. |
| TranslationService.NormalizeZhHk | translations-worker/src/services/translationService.js:77 | `zh-HK` normalises to `zh-tw`. |
| TranslationService.NormalizeUnknownRegion | translations-worker/src/services/translationService.js:81 | An unknown regional code keeps its lower-cased language part. |
| TranslationService.TranslateText | translations-worker/src/services/translationService.js:3-46 | An attempt succeeds exactly when the library is available and returns non-empty text, which is returned unchanged. A missing library always ends in the initialisation-failed message. |
| TranslationService.ClassificationOrder | translations-worker/src/services/translationService.js:34-37 | Messages are checked before codes. The initialisation-failed message is produced exactly when the error's message mentions `not available` or `not a function`, whatever its code. The invalid-request message is produced exactly when neither is mentioned and the code is `BAD_REQUEST`. |
| TranslationService.InitAndBadRequestAreFinal | translations-worker/src/services/translationService.js:102-106 | The initialisation-failed and invalid-request messages stop the retry loop. |
| TranslationService.RateLimitIsRetryable | translations-worker/src/services/translationService.js:38-39 | The rate-limit message does not stop the retry loop. |
| TranslationService.NetworkIsRetryable | translations-worker/src/services/translationService.js:40-41 | The network message does not stop the retry loop. |
| TranslationService.FallbackKeepsRetryability | translations-worker/src/services/translationService.js:44 | Wrapping a message in `Translation failed: ` neither adds nor removes a stopping marker. |
| TranslationService.ClassifiedRetryability | translations-worker/src/services/translationService.js:34-44 | For every library error, this states whether its classified message stops the loop. Initialisation and bad-request failures always stop it. Rate-limit and network failures never do. Any other error stops it exactly when its own message carries a marker. |
| TranslationService.EmptyResultIsOther | translations-worker/src/services/translationService.js:22-24 | An empty or missing result falls through to the generic branch of the classification. |
| TranslationService.EmptyResultMessageIsRetryable | translations-worker/src/services/translationService.js:22-24 | The empty-result message carries no stopping marker. |
| TranslationService.EmptyResultIsRetryable | translations-worker/src/services/translationService.js:22-44 | An empty result is the error `Translation failed: Invalid translation response`, which the loop retries. |
| TranslationService.BackoffDoubles | translations-worker/src/services/translationService.js:90-94 | The waits are 2000 ms and then 4000 ms, and each doubles the previous one. |
| TranslationService.RetryFrom | translations-worker/src/services/translationService.js:87-116 | The loop makes between the starting attempt and `maxRetries` attempts. |
| TranslationService.RetryStopsAtFirstDecisive | translations-worker/src/services/translationService.js:96-106 | The loop stops at the first attempt that does not fail retryably. It returns that attempt's text or rethrows its error unchanged, after exactly that many attempts. |
| TranslationService.RetryExhausts | translations-worker/src/services/translationService.js:110-116 | When every attempt fails retryably, the loop makes `maxRetries` attempts and throws `Translation failed after N attempts. Last error: ` with the last attempt's message. |
| TranslationService.RetrySuccessIsFirstSuccess | translations-worker/src/services/translationService.js:87-96 | A success is the text of the attempt that produced it, and every earlier attempt failed retryably. |
| TranslationService.LibraryCalls | translations-worker/src/services/translationService.js:7-20 | The library is called only when it is available, once per attempt. |
| TranslationService.TranslateTextWithRetry | translations-worker/src/services/translationService.js:84-117 | The loop's outcome and attempt count are those of `Retry`. There is a wait of 2^(k-1)·1000 ms before each attempt k > 1 and none before the first. The library gets the same text and codes on each attempt. |
| TranslationService.Robust | translations-worker/src/services/translationService.js:120-130 | A success is a non-empty text returned by one of the two attempts. A missing library is reported as `Translation failed. Last error: ` plus the initialisation message. |
| TranslationService.RobustCalls | translations-worker/src/services/translationService.js:87-96 | Without the library there are no calls. Otherwise there is one call per attempt, all with the same request: two exactly when the first attempt fails retryably, one otherwise. |
| TranslationService.TranslateTextRobust | translations-worker/src/services/translationService.js:120-130 | The outcome is `Robust`, and the library calls are `RobustCalls`. There is one wait, of 2000 ms, exactly when the first attempt fails retryably, and none otherwise. |
| TranslationService.RobustDecidedAt | translations-worker/src/services/translationService.js:120-130 | The first of the two attempts that does not fail retryably decides: its text is returned, or its message is rethrown under `Translation failed. Last error: `. |
| TranslationService.RobustExhausted | translations-worker/src/services/translationService.js:120-130 | Two retryable failures end in `Translation failed. Last error: ` wrapping `Translation failed after 2 attempts. Last error: ` and the second attempt's message. |
| Consumer.ApiBaseUrl | translations-worker/src/consumer.js:14 | The configured base URL when set and non-empty, otherwise `http://localhost:4040/api`. |
| Consumer.StatusRequestFor | translations-worker/src/consumer.js:18-39 | Each report is a PUT to `<base>/translation/<id>/status`. Its headers are exactly `x-api-key` = id and `Content-Type: application/json`, and its body is the report. |
| Consumer.ReportOutcome | translations-worker/src/consumer.js:34-66 | A report succeeds exactly on a 2xx answer. A thrown error other than a fetch `TypeError` passes through unchanged. A rejected answer throws the property-read `TypeError` exactly when its body is JSON `null`. |
| Consumer.ApiErrorNamesStatus | translations-worker/src/consumer.js:43-55 | A rejected answer whose body is not JSON `null` raises `API Error: ` followed by the status, which `parseInt` recovers from the message. The message ends with ` - ` and the parsed `message` when it is truthy, the raw body otherwise. A `null` body throws the property-read `TypeError` instead. |
| Consumer.FetchFailureNamesUrl | translations-worker/src/consumer.js:61-64 | A fetch `TypeError` becomes exactly the `Error` `Network error: Cannot connect to <url>. Is the API server running?`. It names the URL and does not start with `API Error: `, so it cannot be mistaken for a rejected answer. |
| Consumer.ReadJob | translations-worker/src/consumer.js:69-77 | The job can be read exactly when `data` is present and `text` is a string. Its request id is the envelope's `correlationId`. A missing `data` throws the destructuring `TypeError`. |
| Consumer.PublishedJobIsReadable | translations-worker/src/consumer.js:70-71 | Every envelope the producer builds reads back as the job it was built from. |
| Consumer.ProcessTranslation | translations-worker/src/consumer.js:14-110 | An unreadable job makes no report and no library call. Otherwise PROCESSING is reported first, to `ApiBaseUrl` of the `API_BASE_URL` setting, and every report goes to the job's URL under its own id. The job succeeds exactly when PROCESSING is accepted, the translation succeeds and COMPLETED, carrying the translated text, is accepted. Every failure sends one FAILED report carrying the error's message and `TRANSLATION_ERROR`, then rethrows that error. A rejected PROCESSING report means no translation. A success makes exactly two reports. A failed translation rethrows its message as an `Error`. A rejected COMPLETED report is rethrown after the FAILED report, three reports in all. Once PROCESSING is accepted, the library calls are `RobustCalls` of the job's text and codes. |
| TranslationController.NewRecord | translations-api/src/controllers/translationController.js:56-65 | A new record keeps its id and text, lower-cases both languages, is QUEUED, and has no result, no error and `retryCount` 0. |
| TranslationController.PublishInputFor | translations-api/src/controllers/translationController.js:72-78 | The producer gets the record's id, text and languages, and `wordCount` = number of spaces + 1, the piece count of `split(' ')`. |
| TranslationController.IfTruthy | translations-api/src/controllers/translationController.js:197-208 | An optional field appears exactly when its value is truthy, and then unchanged. |
| TranslationController.GetTranslationStatus | translations-api/src/controllers/translationController.js:172-208 | The answer is 404 exactly when the id is unknown, with a message naming it. A known id shows the record's id, status, languages, `retryCount` and its `createdAt`, `updatedAt` and `queuedAt`. `translatedText`, `errorMessage` and `errorCode` appear exactly when truthy. |
| TranslationController.Update | translations-api/src/controllers/translationController.js:384-447 | The answer is 401 exactly when no record has the key's id. It is 400 exactly when the key is known and the status's required field is missing. It is 200 exactly when key, field and path record all exist. Anything other than 200 leaves the store unchanged. A 200 changes only the path's record: status and `updatedAt`; COMPLETED stores the text; FAILED stores the message, stores the code when one is sent and adds 1 to `retryCount`. Records stay keyed by their id, and a 200 names the path's id. |
| TranslationController.NoTransitionCheck | translations-api/src/controllers/translationController.js:397-429 | Any status can overwrite any other, including a finished one. |
| TranslationController.PathSelectsRecord | translations-api/src/controllers/translationController.js:388-429 | The key authorises and the path selects: one record's id can change another record, and the authorising record stays as it was. |
| TranslationController.RetryCountCountsFailedReports | translations-api/src/controllers/translationController.js:413-423 | After any sequence of well-formed reports, `retryCount` has grown by exactly the number of FAILED reports. |
| TranslationController.UpdateThenStatus | translations-api/src/controllers/translationController.js:426-429 | An accepted report is what a later lookup shows: its status, and its text or error message. |
| TranslationController.WorkerReportAccepted | translations-api/src/controllers/translationController.js:388-423 | Every report the worker builds for a stored record is accepted, provided the text or error message is non-empty. |
| TranslationController.TranslationStore.constructor | translations-api/src/controllers/translationController.js:5 | The store starts empty. |
| TranslationController.TranslationStore.CreateTranslation | translations-api/src/controllers/translationController.js:8-115 | An id already in use gives 500 and leaves the store unchanged. Otherwise the new record is stored. Its job is handed to the exchange exactly when connecting, opening the channel and asserting the exchange succeed and the write does not throw. A 202 reply implies the job was handed over. The reply code is 202, with the id, QUEUED and the creation time, exactly when publishing succeeded. On failure the reply is 500 and the record is set to FAILED with `QUEUE_ERROR`. |
| TranslationController.TranslationStore.UpdateTranslationStatus | translations-api/src/controllers/translationController.js:343-448 | The handler's reply and the new store are those of `Update`, and a 200 names the path's id. |
| TranslationController.Filter | translations-api/src/controllers/translationController.js:305-317 | A row appears in the result exactly when it is one of the rows and matches every given filter, and the result is no longer than the rows. Newest-first order is preserved. `FilterSingle` and `FilterConcat` fix multiplicity and order. |
| TranslationController.FilterSingle | translations-api/src/controllers/translationController.js:305-317 | A single row is kept exactly when it matches. |
| TranslationController.FilterConcat | translations-api/src/controllers/translationController.js:305-317 | Filtering distributes over concatenation, so each row is kept or dropped on its own and in its place. |
| TranslationController.FilterIndex | translations-api/src/controllers/translationController.js:305-317 | Every kept row is a stored row that matches. |
| TranslationController.NoFilterKeepsAll | translations-api/src/controllers/translationController.js:306-309 | Without filters every row is listed. |
| TranslationController.TotalPages | translations-api/src/controllers/translationController.js:331 | `ceil(total/limit)`: the fewest pages of `limit` rows that hold `total` rows. |
| TranslationController.PageOf | translations-api/src/controllers/translationController.js:303-316 | A page holds at most `limit` rows, the ones starting at `(page-1)*limit`, as many as remain. |
| TranslationController.PageBeyondLastIsEmpty | translations-api/src/controllers/translationController.js:303-331 | A page past `totalPages` is empty. |
| TranslationController.FirstPagesArePrefix | translations-api/src/controllers/translationController.js:303-316 | The first n pages, concatenated, are the rows before page n + 1 starts. |
| TranslationController.PagesCoverAll | translations-api/src/controllers/translationController.js:303-331 | Pages 1 … `totalPages` list every matching row exactly once, in order. |
| TranslationController.GetAllTranslations | translations-api/src/controllers/translationController.js:293-331 | Page and limit default to 1 and 10. The items are the selected columns of the page's window of matching rows: `limit` of them, or the rows left after `skip`, or none past the end. `totalPages` = `ceil(matching/limit)`. |
| TranslationController.ListedRecordsMatch | translations-api/src/controllers/translationController.js:306-327 | Every listed item is a stored record matching the filters. |
| TranslationController.ListedNewestFirst | translations-api/src/controllers/translationController.js:317 | A page lists its records newest first. |

## Left out

- Broker I/O: the real amqplib connect, channel, assert, bind and close calls are a record of step outcomes (`BrokerScript`) or are left out. The queue, the dead-letter queue and the acknowledgements are sequences and a counter.
- The exchange's routing from `translationQueue` and `dlq` to the two queues is left out. The main queue is fed the published message directly in `PublishedJobLifecycle`.
- `connectRabbit.js`, the routers, `routes.js`, `swagger.js`, the middleware and the `res.ok`/`res.hateos_list` helpers are not part of this model. A listing returns its items and `totalPages`.
- Persistence is a map. Prisma's defaults are written out: `createdAt`, `updatedAt` and `queuedAt` are the same clock reading `now`, `retryCount` starts at 0 and the optional fields are absent. The schema is not part of this model. `uuidv4()` and every `new Date()` are parameters, and one request reads the clock once.
- HTTP transport: each `fetch` is an outcome (status, body text, parsed `message`, or a thrown error).
- `response.json()` failing on a 2xx answer is not modelled.
- The translation library is a sequence of outcomes, and a missing or text-less result is `Returned("")`. `setTimeout` is not modelled: the waits are recorded as values.
- JSON parsing is an abstract input: a body is either an envelope or a malformed text with its parse error. `JSON.stringify` and `JSON.parse` are taken to round-trip the envelope. Its `timestamp` stays a number, although the serialised `Date` arrives as an ISO string.
- Concurrency, redelivery after a crash, signal handlers, process exit, the start-up call and all logging are left out.
- Strings.Lower: only ASCII letters are lower-cased. JavaScript's `toLowerCase` also folds other scripts.
- Strings.ParseInt: reads an optional sign and leading decimal digits. Leading whitespace, hexadecimal prefixes and `Infinity` are not modelled.
- Connection.RetriesOf: requires `x-retries` to be absent or numeric. A string header would be concatenated by `retries + 1`. A missing `properties.headers` would throw before the handler's `try`.
- Connection.PublishedJobLifecycle: the limit is any natural number, not the value derived from the environment. A negative `MAX_RETRIES` from the environment dead-letters at once through `Deliver`.
- Consumer.ReadJob: a missing `data` throws the destructuring `TypeError`. Every `text` that is not a string, absent or not, throws one `TypeError` message, `text.substring is not a function`; for an absent `text` the engine's own wording differs. A language code that is not a string is outside the model. In `translateText`, an absent or `null` code makes `toLowerCase` throw a property-read `TypeError`. That error carries no stopping marker, so it becomes `Translation failed: ...` and is retried. Any other non-string code gives a `... is not a function` error and ends in the initialisation-failed message.
- Consumer.ReportOutcome: a parsed `message` is given as the text the template prints. For a truthy `message` that is not a string, that is its `String(...)` conversion, which is not modelled.
- Consumer.ProcessTranslation: requires at least three HTTP outcomes and two library outcomes, enough for every path. The answer to the FAILED report is ignored, as in the source.
- TranslationService.TranslateTextWithRetry: takes `maxRetries` explicitly. The source's default argument `maxRetries = 3` is not modelled; the one caller, `translateTextRobust`, passes 2. It requires `maxRetries >= 1`. With 0 attempts the source would read `.message` of an undefined error and throw a `TypeError`. It also requires one library outcome per attempt.
- A library request (`LibRequest`) records the arguments `translateText` received. `From()` and `To()` are the normalised codes the library is given.
- TranslationService.RegionalCode: the lookup table has 17 entries, as in the code. Keys are matched as own properties only, so prototype names such as `constructor` are outside the model.
- TranslationController.Update: the `x-api-key` header is a string, and an absent header is not modelled. A status outside the five values is not modelled. 401 is taken as the code of `res.unauthorized()`, which is not part of this model. A missing path record gives the handler's 500.
- TranslationController.GetAllTranslations: requires page and limit to be at least 1 when given. A non-numeric value gives NaN. A page of 0 or below gives a negative `skip`. A limit of 0 gives `skip` and `take` 0 and `totalPages` `Math.ceil(total / 0)`, which is `Infinity`, or `NaN` when `total` is 0. A negative limit gives a negative `take`. What Prisma does with these values is not part of this model. The rows are a parameter, already in `createdAt`-descending order, and not derived from the map.
- TranslationController.TranslationStore.CreateTranslation: a publish that reports a full write buffer still counts as handed to the exchange. A failure of the FAILED update after a failed publish is not modelled.
