/** The translation invoker: language-code normalisation, the classification
    of library errors into fixed messages, and the bounded retry loop with
    exponential backoff. The translation library itself is an oracle: each
    attempt consumes the next of a sequence of outcomes. */
module TranslationService {

  import opened Wrappers
  import opened Strings

  // -----------------------------------------------------------------------
  // normalizeLanguageCode

  /** The lookup table of regional codes with a fixed normalisation: its 17
      keys are `pt-br`, `pt-pt`, `en-us`, `en-gb`, `en-ca`, `en-au`,
      `es-es`, `es-mx`, `es-ar`, `fr-fr`, `fr-ca`, `de-de`, `de-at`,
      `de-ch`, `zh-cn`, `zh-tw` and `zh-hk`, all of the form `ll-rr`, and
      are looked up here by language and region. */
  function RegionalCode(code: string): Option<string> {
    if |code| != 5 || code[2] != '-' then None
    else
      var lang, region := [code[0], code[1]], [code[3], code[4]];
      if lang == "pt" && (region == "br" || region == "pt") then Some("pt")
      else if lang == "en" && (region == "us" || region == "gb" || region == "ca" || region == "au") then Some("en")
      else if lang == "es" && (region == "es" || region == "mx" || region == "ar") then Some("es")
      else if lang == "fr" && (region == "fr" || region == "ca") then Some("fr")
      else if lang == "de" && (region == "de" || region == "at" || region == "ch") then Some("de")
      else if lang == "zh" && region == "cn" then Some("zh")
      else if lang == "zh" && (region == "tw" || region == "hk") then Some("zh-tw")
      else None
  }

  /** Every key is a five-character `ll-rr` code; every value is lower-case
      and hyphen-free, except `zh-tw`. */
  lemma RegionalCodeShape(code: string)
    requires RegionalCode(code).Some?
    ensures |code| == 5 && code[2] == '-'
    ensures var v := RegionalCode(code).value;
      IsLower(v) && (v == "zh-tw" || Lacks(v, '-'))
  {
  }

  /** Lower-case the code, then use the table, else keep the text before the
      first hyphen. The result is lower-case and hyphen-free, except for the
      table's one hyphenated value. */
  function NormalizeLanguageCode(code: string): (r: string)
    ensures IsLower(r)
    ensures r == "zh-tw" || Lacks(r, '-')
    ensures RegionalCode(Lower(code)).None? ==> r == BeforeFirst(Lower(code), '-')
  {
    var lowered := Lower(code);
    LowerIsLower(code);
    match RegionalCode(lowered)
    case Some(v) => RegionalCodeShape(lowered); v
    case None => BeforeFirst(lowered, '-')
  }

  lemma {:induction false} BeforeFirstAbsent(s: string, c: char)
    requires Lacks(s, c)
    ensures BeforeFirst(s, c) == s
    decreases |s|
  {
    if |s| > 0 {
      BeforeFirstAbsent(s[1..], c);
    }
  }

  /** A code without a hyphen is not in the table. */
  lemma NotRegional(code: string)
    requires Lacks(code, '-')
    ensures RegionalCode(code).None?
  {
    assert |code| == 5 ==> code[2] != '-';
  }

  /** Normalising a normalised code changes nothing. */
  lemma NormalizeIdempotent(code: string)
    ensures NormalizeLanguageCode(NormalizeLanguageCode(code)) == NormalizeLanguageCode(code)
  {
    var r := NormalizeLanguageCode(code);
    LowerOfLower(r);
    if r != "zh-tw" {
      NotRegional(r);
      BeforeFirstAbsent(r, '-');
    }
  }

  /** A code whose lower-cased form is in the table normalises to the
      table's value. */
  lemma NormalizesByTable(code: string, lowered: string, expected: string)
    requires Lower(code) == lowered
    requires RegionalCode(lowered) == Some(expected)
    ensures NormalizeLanguageCode(code) == expected
  {
  }

  /** A code whose lower-cased form is not in the table normalises to its
      language part. */
  lemma NormalizesByLanguagePart(code: string, lowered: string, expected: string)
    requires Lower(code) == lowered
    requires RegionalCode(lowered).None? && BeforeFirst(lowered, '-') == expected
    ensures NormalizeLanguageCode(code) == expected
  {
  }

  /** Brazilian Portuguese normalises to `pt`. */
  lemma NormalizePtBr()
    ensures NormalizeLanguageCode("pt-BR") == "pt"
  {
    NormalizesByTable("pt-BR", "pt-br", "pt");
  }

  /** US English normalises to `en`. */
  lemma NormalizeEnUs()
    ensures NormalizeLanguageCode("en-US") == "en"
  {
    NormalizesByTable("en-US", "en-us", "en");
  }

  /** Simplified Chinese normalises to `zh`. */
  lemma NormalizeZhCn()
    ensures NormalizeLanguageCode("zh-CN") == "zh"
  {
    NormalizesByTable("zh-CN", "zh-cn", "zh");
  }

  /** Traditional Chinese keeps its region: `zh-tw`. */
  lemma NormalizeZhTw()
    ensures NormalizeLanguageCode("zh-TW") == "zh-tw"
  {
    NormalizesByTable("zh-TW", "zh-tw", "zh-tw");
  }

  /** Hong Kong Chinese maps to `zh-tw`. */
  lemma NormalizeZhHk()
    ensures NormalizeLanguageCode("zh-HK") == "zh-tw"
  {
    NormalizesByTable("zh-HK", "zh-hk", "zh-tw");
  }

  /** A code outside the table keeps its lower-cased language part. */
  lemma NormalizeUnknownRegion()
    ensures NormalizeLanguageCode("xx-YY") == "xx"
  {
    NormalizesByLanguagePart("xx-YY", "xx-yy", "xx");
  }

  // -----------------------------------------------------------------------
  // translateText: the library call and the classification of its errors

  const UnavailableMessage := "Google Translate function not available"
  const EmptyResultMessage := "Invalid translation response"
  // The longer messages are written in pieces: the solver checks facts about
  // a literal character by character only for short literals.
  const InitFailedMessage := "Translation service " + "initialization failed" + " - check library installation"
  const BadRequestMessage := "Invalid translation request" + " - check language codes"
  const RateLimitMessage := "Translation rate limit exceeded" + " - please try again later"
  const NetworkMessage := "Network error - translation service" + " temporarily unavailable"
  const FallbackPrefix := "Translation failed: "

  /** An error raised inside `translateText`: its message and its `code`
      (`""` when it has none). */
  datatype LibError = LibError(message: string, code: string)

  /** What one call of the library does. A missing result and a result
      without text both appear as `Returned("")`. */
  datatype LibOutcome = Returned(text: string) | Raised(error: LibError)

  /** One library call, named by the arguments `translateText` received:
      the library is given the text unchanged and the normalised codes
      `From()` and `To()`. */
  datatype LibRequest = LibRequest(text: string, sourceLang: string, targetLang: string) {
    function From(): string {
      NormalizeLanguageCode(sourceLang)
    }

    function To(): string {
      NormalizeLanguageCode(targetLang)
    }
  }

  datatype ErrorCategory = InitFailure | BadRequest | RateLimited | NetworkFailure | Other

  /** The `if` chain of the `catch` block, in its order. */
  function Category(e: LibError): ErrorCategory {
    if Contains(e.message, "not available") || Contains(e.message, "not a function") then InitFailure
    else if e.code == "BAD_REQUEST" then BadRequest
    else if e.code == "TOO_MANY_REQUESTS" || Contains(e.message, "TooManyRequestsError") then RateLimited
    else if e.code == "ENOTFOUND" || e.code == "ECONNRESET" then NetworkFailure
    else Other
  }

  /** The message of the error `translateText` rethrows. */
  function Classify(e: LibError): string {
    match Category(e)
    case InitFailure => InitFailedMessage
    case BadRequest => BadRequestMessage
    case RateLimited => RateLimitMessage
    case NetworkFailure => NetworkMessage
    case Other => FallbackPrefix + e.message
  }

  /** The retry loop's test for errors that retrying cannot cure. */
  predicate NonRetryable(message: string) {
    Contains(message, "Invalid translation request")
    || Contains(message, "check language codes")
    || Contains(message, "initialization failed")
  }

  /** `translateText` for one attempt: unavailable library, empty result,
      and raised errors all end in a classified error. */
  function TranslateText(available: bool, outcome: LibOutcome): (r: Result<string, string>)
    ensures r.Ok? <==> available && outcome.Returned? && outcome.text != ""
    ensures r.Ok? ==> r.value == outcome.text
    ensures !available ==> r == Err(InitFailedMessage)
  {
    if !available then
      assert OccursAt(UnavailableMessage, "not available", 26);
      Err(Classify(LibError(UnavailableMessage, "")))
    else
      match outcome
      case Returned(text) =>
        if text == "" then Err(Classify(LibError(EmptyResultMessage, ""))) else Ok(text)
      case Raised(e) => Err(Classify(e))
  }

  lemma InitAndBadRequestAreFinal()
    ensures NonRetryable(InitFailedMessage) && NonRetryable(BadRequestMessage)
  {
    OccursBetween("Translation service ", "initialization failed", " - check library installation");
    assert OccursAt(BadRequestMessage, "Invalid translation request", 0);
  }

  lemma RateLimitIsRetryable()
    ensures !NonRetryable(RateLimitMessage)
  {
    LacksConcat("Translation rate limit exceeded", " - please try again later", 'I');
    LacksConcat("Translation rate limit exceeded", " - please try again later", 'k');
    LacksConcat("Translation rate limit exceeded", " - please try again later", 'z');
    LacksRefutes(RateLimitMessage, "Invalid translation request", 0);
    LacksRefutes(RateLimitMessage, "check language codes", 4);
    LacksRefutes(RateLimitMessage, "initialization failed", 8);
  }

  lemma NetworkIsRetryable()
    ensures !NonRetryable(NetworkMessage)
  {
    LacksConcat("Network error - translation service", " temporarily unavailable", 'I');
    LacksConcat("Network error - translation service", " temporarily unavailable", 'h');
    LacksConcat("Network error - translation service", " temporarily unavailable", 'z');
    LacksRefutes(NetworkMessage, "Invalid translation request", 0);
    LacksRefutes(NetworkMessage, "check language codes", 1);
    LacksRefutes(NetworkMessage, "initialization failed", 8);
  }

  /** The fallback prefix neither contains a non-retryable marker nor can
      complete one, so a wrapped message is final exactly when the original
      one was. */
  lemma FallbackKeepsRetryability(message: string)
    ensures NonRetryable(FallbackPrefix + message) <==> NonRetryable(message)
  {
    LacksRefutes(FallbackPrefix, "Invalid translation request", 0);
    LacksRefutes(FallbackPrefix, "check language codes", 4);
    LacksRefutes(FallbackPrefix, "initialization failed", 8);
    NoStraddle(FallbackPrefix, "Invalid translation request");
    NoStraddle(FallbackPrefix, "check language codes");
    NoStraddle(FallbackPrefix, "initialization failed");
    PrefixTransparent(FallbackPrefix, message, "Invalid translation request");
    PrefixTransparent(FallbackPrefix, message, "check language codes");
    PrefixTransparent(FallbackPrefix, message, "initialization failed");
  }

  /** Which classified errors stop the retry loop at once: initialisation
      failures and bad requests always, rate limiting and network errors
      never, any other error exactly when its own message carries one of the
      markers. */
  lemma ClassifiedRetryability(e: LibError)
    ensures NonRetryable(Classify(e)) <==>
      match Category(e)
      case InitFailure => true
      case BadRequest => true
      case RateLimited => false
      case NetworkFailure => false
      case Other => NonRetryable(e.message)
  {
    InitAndBadRequestAreFinal();
    RateLimitIsRetryable();
    NetworkIsRetryable();
    FallbackKeepsRetryability(e.message);
  }

  /** The messages are checked before the codes: the initialisation message
      is produced exactly when the error's message mentions unavailability,
      whatever its code, and the bad-request message exactly when it does
      not and the code is `BAD_REQUEST`. */
  lemma ClassificationOrder(e: LibError)
    ensures Classify(e) == InitFailedMessage <==>
      Contains(e.message, "not available") || Contains(e.message, "not a function")
    ensures Classify(e) == BadRequestMessage <==>
      !Contains(e.message, "not available") && !Contains(e.message, "not a function") && e.code == "BAD_REQUEST"
  {
    assert InitFailedMessage[0] == 'T' && InitFailedMessage[12] == 's';
    assert BadRequestMessage[0] == 'I';
    assert RateLimitMessage[0] == 'T' && RateLimitMessage[12] == 'r';
    assert NetworkMessage[0] == 'N';
    var fallback := FallbackPrefix + e.message;
    assert fallback[0] == 'T' && fallback[12] == 'f';
  }

  /** An empty or missing result falls through to the generic message. */
  lemma EmptyResultIsOther()
    ensures Category(LibError(EmptyResultMessage, "")) == Other
  {
    LacksRefutes(EmptyResultMessage, "not available", 10);
    LacksRefutes(EmptyResultMessage, "not a function", 6);
    LacksRefutes(EmptyResultMessage, "TooManyRequestsError", 0);
  }

  lemma EmptyResultMessageIsRetryable()
    ensures !NonRetryable(EmptyResultMessage)
  {
    LacksRefutes(EmptyResultMessage, "Invalid translation request", 22);
    LacksRefutes(EmptyResultMessage, "check language codes", 4);
    LacksRefutes(EmptyResultMessage, "initialization failed", 8);
  }

  /** An empty or missing result is reported as a failure the loop retries. */
  lemma EmptyResultIsRetryable(available: bool)
    requires available
    ensures TranslateText(available, Returned("")) == Err(FallbackPrefix + EmptyResultMessage)
    ensures !NonRetryable(FallbackPrefix + EmptyResultMessage)
  {
    EmptyResultIsOther();
    EmptyResultMessageIsRetryable();
    FallbackKeepsRetryability(EmptyResultMessage);
  }

  // -----------------------------------------------------------------------
  // translateTextWithRetry

  function Pow2(k: nat): nat {
    if k == 0 then 1 else 2 * Pow2(k - 1)
  }

  /** The wait before attempt `attempt` (from the second on), in
      milliseconds: `2^(attempt-1) * 1000`. */
  function Backoff(attempt: nat): nat
    requires attempt >= 2
  {
    Pow2(attempt - 1) * 1000
  }

  /** Each wait is twice the previous one, starting at two seconds. */
  lemma BackoffDoubles(attempt: nat)
    requires attempt >= 2
    ensures Backoff(2) == 2000 && Backoff(3) == 4000
    ensures Backoff(attempt + 1) == 2 * Backoff(attempt)
  {
  }

  function ExhaustedMessage(attempts: nat, last: string): string {
    "Translation failed after " + NatToString(attempts) + " attempts. Last error: " + last
  }

  /** The result of the loop and the number of attempts it made. */
  datatype RetryRun = RetryRun(result: Result<string, string>, attempts: nat)

  /** An attempt that fails with an error the loop will retry. */
  predicate RetryableFailure(available: bool, outcome: LibOutcome) {
    var r := TranslateText(available, outcome);
    r.Err? && !NonRetryable(r.error)
  }

  /** The loop from attempt `attempt` on; attempt `k` uses `outcomes[k-1]`. */
  function RetryFrom(available: bool, outcomes: seq<LibOutcome>, maxRetries: nat, attempt: nat): (run: RetryRun)
    requires 1 <= attempt <= maxRetries <= |outcomes|
    ensures attempt <= run.attempts <= maxRetries
    decreases maxRetries - attempt
  {
    match TranslateText(available, outcomes[attempt - 1])
    case Ok(text) => RetryRun(Ok(text), attempt)
    case Err(message) =>
      if NonRetryable(message) then RetryRun(Err(message), attempt)
      else if attempt == maxRetries then RetryRun(Err(ExhaustedMessage(maxRetries, message)), attempt)
      else RetryFrom(available, outcomes, maxRetries, attempt + 1)
  }

  function Retry(available: bool, outcomes: seq<LibOutcome>, maxRetries: nat): RetryRun
    requires 1 <= maxRetries <= |outcomes|
  {
    RetryFrom(available, outcomes, maxRetries, 1)
  }

  /** One attempt of the loop, with the outcome of the attempt named. */
  lemma RetryStep(available: bool, outcomes: seq<LibOutcome>, maxRetries: nat, attempt: nat)
    requires 1 <= attempt <= maxRetries <= |outcomes|
    ensures var r := TranslateText(available, outcomes[attempt - 1]);
      RetryFrom(available, outcomes, maxRetries, attempt) ==
        if r.Ok? || NonRetryable(r.error) then RetryRun(r, attempt)
        else if attempt == maxRetries then RetryRun(Err(ExhaustedMessage(maxRetries, r.error)), attempt)
        else RetryFrom(available, outcomes, maxRetries, attempt + 1)
  {
  }

  /** The loop stops at the first attempt that does not fail retryably, with
      that attempt's text or its error unchanged. */
  lemma {:induction false} RetryStopsAtFirstDecisive(available: bool, outcomes: seq<LibOutcome>, maxRetries: nat, attempt: nat, k: nat)
    requires 1 <= attempt <= k <= maxRetries <= |outcomes|
    requires forall j :: attempt - 1 <= j < k - 1 ==> RetryableFailure(available, outcomes[j])
    requires !RetryableFailure(available, outcomes[k - 1])
    ensures RetryFrom(available, outcomes, maxRetries, attempt) == RetryRun(TranslateText(available, outcomes[k - 1]), k)
    decreases k - attempt
  {
    if attempt < k {
      assert RetryableFailure(available, outcomes[attempt - 1]);
      RetryStopsAtFirstDecisive(available, outcomes, maxRetries, attempt + 1, k);
    }
  }

  /** When every attempt fails retryably the loop makes `maxRetries`
      attempts and reports the last error. */
  lemma {:induction false} RetryExhausts(available: bool, outcomes: seq<LibOutcome>, maxRetries: nat, attempt: nat)
    requires 1 <= attempt <= maxRetries <= |outcomes|
    requires forall j :: attempt - 1 <= j < maxRetries ==> RetryableFailure(available, outcomes[j])
    ensures var last := TranslateText(available, outcomes[maxRetries - 1]);
      && last.Err?
      && RetryFrom(available, outcomes, maxRetries, attempt) == RetryRun(Err(ExhaustedMessage(maxRetries, last.error)), maxRetries)
    decreases maxRetries - attempt
  {
    assert RetryableFailure(available, outcomes[attempt - 1]);
    if attempt < maxRetries {
      RetryExhausts(available, outcomes, maxRetries, attempt + 1);
    }
  }

  /** A success is the text of the attempt that produced it, and every
      earlier attempt failed retryably. */
  lemma {:induction false} RetrySuccessIsFirstSuccess(available: bool, outcomes: seq<LibOutcome>, maxRetries: nat, attempt: nat)
    requires 1 <= attempt <= maxRetries <= |outcomes|
    ensures var run := RetryFrom(available, outcomes, maxRetries, attempt);
      run.result.Ok? ==>
        && TranslateText(available, outcomes[run.attempts - 1]) == run.result
        && forall j :: attempt - 1 <= j < run.attempts - 1 ==> RetryableFailure(available, outcomes[j])
    decreases maxRetries - attempt
  {
    var r := TranslateText(available, outcomes[attempt - 1]);
    if r.Err? && !NonRetryable(r.error) && attempt < maxRetries {
      RetrySuccessIsFirstSuccess(available, outcomes, maxRetries, attempt + 1);
    }
  }

  /** The library calls of `n` attempts: none when the library is missing,
      otherwise the same request each time. */
  function LibraryCalls(available: bool, request: LibRequest, n: nat): (calls: seq<LibRequest>)
    ensures |calls| == (if available then n else 0)
  {
    if available then seq(n, _ => request) else []
  }

  /** `translateTextWithRetry(text, sourceLang, targetLang, maxRetries)`.
      Attempt `k` consumes `outcomes[k-1]`; `available` says whether the
      library's `translate` is a function. Returns the outcome, the library
      calls made and the waits before attempts 2, 3, .... */
  method TranslateTextWithRetry(text: string, sourceLang: string, targetLang: string, maxRetries: nat,
                                available: bool, outcomes: seq<LibOutcome>)
    returns (r: Result<string, string>, calls: seq<LibRequest>, delays: seq<nat>)
    requires 1 <= maxRetries <= |outcomes|
    ensures Retry(available, outcomes, maxRetries) == RetryRun(r, |delays| + 1)
    ensures forall j :: 0 <= j < |delays| ==> delays[j] == Backoff(j + 2)
    ensures calls == LibraryCalls(available, LibRequest(text, sourceLang, targetLang), |delays| + 1)
  {
    var request := LibRequest(text, sourceLang, targetLang);
    var lastError := "";
    calls, delays := [], [];
    var attempt := 1;
    while attempt <= maxRetries
      invariant 1 <= attempt <= maxRetries
      invariant |delays| == if attempt == 1 then 0 else attempt - 2
      invariant forall j :: 0 <= j < |delays| ==> delays[j] == Backoff(j + 2)
      invariant calls == LibraryCalls(available, request, attempt - 1)
      invariant Retry(available, outcomes, maxRetries) == RetryFrom(available, outcomes, maxRetries, attempt)
    {
      if attempt > 1 {
        delays := delays + [Backoff(attempt)];
      }
      if available {
        calls := calls + [request];
      }
      var outcome := TranslateText(available, outcomes[attempt - 1]);
      RetryStep(available, outcomes, maxRetries, attempt);
      if outcome.Ok? {
        return outcome, calls, delays;
      }
      lastError := outcome.error;
      if NonRetryable(lastError) {
        return Err(lastError), calls, delays;
      }
      if attempt == maxRetries {
        break;
      }
      attempt := attempt + 1;
    }
    r := Err(ExhaustedMessage(maxRetries, lastError));
  }

  // -----------------------------------------------------------------------
  // translateTextRobust

  const RobustAttempts := 2

  function RobustMessage(last: string): string {
    "Translation failed. Last error: " + last
  }

  /** Two attempts of the retry loop; any error is wrapped once more. */
  function Robust(available: bool, outcomes: seq<LibOutcome>): (r: Result<string, string>)
    requires |outcomes| >= RobustAttempts
    ensures r.Ok? ==> r.value != "" && (outcomes[0] == Returned(r.value) || outcomes[1] == Returned(r.value))
    ensures !available ==> r == Err(RobustMessage(InitFailedMessage))
  {
    var run := Retry(available, outcomes, RobustAttempts);
    RetrySuccessIsFirstSuccess(available, outcomes, RobustAttempts, 1);
    InitAndBadRequestAreFinal();
    match run.result
    case Ok(text) => Ok(text)
    case Err(message) => Err(RobustMessage(message))
  }

  /** When attempt `k` (1 or 2) is the first that does not fail retryably,
      the wrapper returns its text or wraps its error once more. */
  lemma RobustDecidedAt(available: bool, outcomes: seq<LibOutcome>, k: nat)
    requires |outcomes| >= RobustAttempts && 1 <= k <= RobustAttempts
    requires forall j :: 0 <= j < k - 1 ==> RetryableFailure(available, outcomes[j])
    requires !RetryableFailure(available, outcomes[k - 1])
    ensures Robust(available, outcomes) ==
      match TranslateText(available, outcomes[k - 1])
      case Ok(text) => Ok(text)
      case Err(message) => Err(RobustMessage(message))
  {
    RetryStopsAtFirstDecisive(available, outcomes, RobustAttempts, 1, k);
  }

  /** When both attempts fail retryably, the wrapper reports the exhausted
      loop's message, which carries the second attempt's error. */
  lemma RobustExhausted(available: bool, outcomes: seq<LibOutcome>)
    requires |outcomes| >= RobustAttempts
    requires RetryableFailure(available, outcomes[0]) && RetryableFailure(available, outcomes[1])
    ensures var last := TranslateText(available, outcomes[1]);
      && last.Err?
      && Robust(available, outcomes) == Err(RobustMessage(ExhaustedMessage(RobustAttempts, last.error)))
  {
    RetryExhausts(available, outcomes, RobustAttempts, 1);
  }

  /** The library calls of the two-attempt loop: none without the library,
      a second one exactly when the first attempt fails retryably. */
  function RobustCalls(request: LibRequest, available: bool, outcomes: seq<LibOutcome>): (calls: seq<LibRequest>)
    requires |outcomes| >= RobustAttempts
    ensures |calls| == if !available then 0 else if RetryableFailure(available, outcomes[0]) then 2 else 1
    ensures forall i :: 0 <= i < |calls| ==> calls[i] == request
  {
    RetryStep(available, outcomes, RobustAttempts, 1);
    LibraryCalls(available, request, Retry(available, outcomes, RobustAttempts).attempts)
  }

  /** `translateTextRobust(text, sourceLang, targetLang)`. */
  method TranslateTextRobust(text: string, sourceLang: string, targetLang: string,
                             available: bool, outcomes: seq<LibOutcome>)
    returns (r: Result<string, string>, calls: seq<LibRequest>, delays: seq<nat>)
    requires |outcomes| >= RobustAttempts
    ensures r == Robust(available, outcomes)
    ensures calls == RobustCalls(LibRequest(text, sourceLang, targetLang), available, outcomes)
    ensures |delays| == (if RetryableFailure(available, outcomes[0]) then 1 else 0)
    ensures |delays| == 1 ==> delays[0] == 2000
  {
    var result;
    result, calls, delays := TranslateTextWithRetry(text, sourceLang, targetLang, RobustAttempts, available, outcomes);
    RetryStep(available, outcomes, RobustAttempts, 1);
    if result.Err? {
      r := Err(RobustMessage(result.error));
    } else {
      r := result;
    }
  }
}
