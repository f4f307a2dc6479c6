/** The user-facing error texts of src/services/geminiService.js. */
module GeminiMessages {
  const BadRequestMessage := "Invalid content sent for analysis. Please try a shorter or cleaner input."
  const AccessMessage := "AI service access is not configured correctly on the server."
  const NotFoundMessage := "Analysis API endpoint not found. Make sure the app is running via \"npm run dev\" or deployed correctly."
  const MethodMessage := "Analysis endpoint method is invalid. Please contact support."
  const TooLargeMessage := "Text is too large for analysis. Please upload shorter content."
  const TooManyMessage := "Too many requests from this source. Please wait a minute and try again."
  const ServerMessage := "Server error while analyzing content. Please try again shortly."
  const DefaultMessage := "AI analysis failed. Please try again in a moment."
  const NoTextMessage := "No text available to analyze."
  const EndpointMissingMessage := "Analysis API endpoint not found. Restart \"npm run dev\" and try again."
  const InvalidResponseMessage := "Invalid analysis response from server."
  const UnreachableMessage := "Unable to reach analysis server. Check your internet/deployment and try again."
}

/** src/services/geminiService.js: the browser's side of the analysis call.
    The request itself (`fetch`) is a parameter: a function from the text
    sent to what comes back. */
module GeminiService {
  import opened Results
  import opened Strings
  import opened GeminiMessages

  // ---------------------------------------------------------------------------
  // The endpoint URL

  /** `API_BASE_URL`: the configured base URL, trimmed; "" when unset. */
  function ApiBaseUrl(configured: Option<string>): string {
    Trim(configured.GetOr(""))
  }

  /** The path with a leading '/', added only when missing. */
  function CleanPath(path: string): (r: string)
    ensures StartsWith(r, "/") && EndsWith(r, path)
    ensures |r| <= |path| + 1
  {
    if StartsWith(path, "/") then path else "/" + path
  }

  /** `base.replace(/\/$/, '')`: one trailing '/' removed, if there is one. */
  function DropTrailingSlash(base: string): (r: string)
    ensures r == base || r + "/" == base
  {
    if EndsWith(base, "/") then base[..|base| - 1] else base
  }

  /** buildApiUrl, with the base URL as a parameter. */
  function BuildApiUrl(base: string, path: string): (r: string)
    ensures EndsWith(r, path)
  {
    if base == "" then CleanPath(path)
    else EndsWithAppend(DropTrailingSlash(base), CleanPath(path), path); DropTrailingSlash(base) + CleanPath(path)
  }

  /** The statuses mapStatusToMessage has a message of its own for. */
  predicate InTable(status: int) {
    status == 400 || status == 401 || status == 403 || status == 404
    || status == 405 || status == 413 || status == 429 || status >= 500
  }

  /** mapStatusToMessage; an omitted fallback is "". */
  function MapStatusToMessage(status: int, fallback: string): (r: string)
    ensures r != ""
  {
    if status == 400 then BadRequestMessage
    else if status == 401 || status == 403 then AccessMessage
    else if status == 404 then NotFoundMessage
    else if status == 405 then MethodMessage
    else if status == 413 then TooLargeMessage
    else if status == 429 then TooManyMessage
    else if status >= 500 then ServerMessage
    else if fallback != "" then fallback
    else DefaultMessage
  }

  // ---------------------------------------------------------------------------
  // analyzeContent

  /** The parsed response body: `NoPayload` when it is empty, not JSON, or a
      falsy JSON value; otherwise its `error` text ("" when absent or
      falsy) and its `analysis` (`None` when absent or falsy). */
  datatype Payload<A> = NoPayload | Payload(error: string, analysis: Option<A>)

  /** What `fetch` and `response.text()` produce: a rejection with its
      message, or a status and the parsed body. */
  datatype Reply<A> = Unreachable(reason: string) | Reply(status: int, payload: Payload<A>)

  /** `response.ok` */
  predicate OkStatus(status: int) {
    200 <= status <= 299
  }

  /** The part of the `try` block after the response has arrived: the
      analysis, or the message of the error thrown. */
  function Classify<A>(status: int, payload: Payload<A>): (r: Result<A, string>)
    ensures r.Ok? <==> OkStatus(status) && payload.Payload? && payload.analysis.Some?
    ensures r.Err? ==> r.error != ""
  {
    if !OkStatus(status) then
      if status == 404 && payload.NoPayload? then Err(EndpointMissingMessage)
      else
        var message := if payload.Payload? && payload.error != "" then payload.error
                       else MapStatusToMessage(status, "");
        Err(MapStatusToMessage(status, message))
    else if payload.NoPayload? || payload.analysis.None? then Err(InvalidResponseMessage)
    else Ok(payload.analysis.value)
  }

  /** The test of the `catch` block: the message, in lower case, mentions
      a failed fetch or the network. */
  predicate NetworkWording(message: string) {
    var lower := ToLower(message);
    Contains(lower, "failed to fetch") || Contains(lower, "network")
  }

  /** The `catch` block: the message of the error that reaches it becomes
      the message of the error rethrown. */
  function Caught(message: string): (r: string)
    ensures r != ""
  {
    if NetworkWording(message) then UnreachableMessage
    else if message != "" then message
    else DefaultMessage
  }

  /** Everything after the request is sent, up to the `catch` block: the
      analysis, or the message of the error thrown. */
  function Outcome<A>(reply: Reply<A>): (r: Result<A, string>)
    ensures r.Err? ==> r.error != ""
  {
    match reply
    case Unreachable(reason) => Err(Caught(reason))
    case Reply(status, payload) =>
      match Classify(status, payload)
      case Ok(analysis) => Ok(analysis)
      case Err(message) => Err(Caught(message))
  }

  /** analyzeContent, with `undefined`/`null` text as `None` and `server`
      standing for the POST of `{ text }` to `/api/analyze`. */
  function AnalyzeContent<A>(text: Option<string>, server: string -> Reply<A>): (r: Result<A, string>)
    ensures r.Err? ==> r.error != ""
  {
    var trimmed := Trim(text.GetOr(""));
    if trimmed == "" then Err(NoTextMessage) else Outcome(server(trimmed))
  }

  // ---------------------------------------------------------------------------
  // Properties of buildApiUrl

  /** Without a base the URL is the path, with '/' put in front only when it
      is missing; a clean path is left as it is. */
  lemma {:induction false} BuildApiUrlWithoutBase(path: string)
    ensures StartsWith(path, "/") ==> BuildApiUrl("", path) == path
    ensures !StartsWith(path, "/") ==> BuildApiUrl("", path) == "/" + path
  {}

  /** With a base, the URL is the base less at most one trailing '/',
      followed by the clean path. */
  lemma {:induction false} BuildApiUrlWithBase(base: string, path: string)
    requires base != ""
    ensures EndsWith(base, "/") ==> BuildApiUrl(base, path) == base[..|base| - 1] + CleanPath(path)
    ensures !EndsWith(base, "/") ==> BuildApiUrl(base, path) == base + CleanPath(path)
  {}

  /** Cleaning a path twice is cleaning it once. */
  lemma {:induction false} CleanPathIdempotent(path: string)
    ensures CleanPath(CleanPath(path)) == CleanPath(path)
  {}

  /** The base goes through `trim()` once, when the module loads. */
  lemma {:induction false} ApiBaseUrlTrimmed(configured: Option<string>)
    ensures Trim(ApiBaseUrl(configured)) == ApiBaseUrl(configured)
    ensures configured.None? ==> ApiBaseUrl(configured) == ""
  {
    TrimIdempotent(configured.GetOr(""));
  }

  // ---------------------------------------------------------------------------
  // Properties of mapStatusToMessage

  /** Each status of the table has its own message, 401 and 403 share one,
      and every status from 500 up gets the server-error message. */
  lemma {:induction false} StatusTable(status: int, fallback: string)
    ensures status == 400 ==> MapStatusToMessage(status, fallback) == BadRequestMessage
    ensures status == 401 || status == 403 ==> MapStatusToMessage(status, fallback) == AccessMessage
    ensures status == 404 ==> MapStatusToMessage(status, fallback) == NotFoundMessage
    ensures status == 405 ==> MapStatusToMessage(status, fallback) == MethodMessage
    ensures status == 413 ==> MapStatusToMessage(status, fallback) == TooLargeMessage
    ensures status == 429 ==> MapStatusToMessage(status, fallback) == TooManyMessage
    ensures status >= 500 ==> MapStatusToMessage(status, fallback) == ServerMessage
  {}

  /** For a status in the table the fallback plays no part. */
  lemma {:induction false} FallbackIgnoredInTable(status: int, fallback: string)
    requires InTable(status)
    ensures MapStatusToMessage(status, fallback) == MapStatusToMessage(status, "")
  {}

  /** Outside the table the fallback is the message, or the default when
      it is empty. */
  lemma {:induction false} FallbackUsedOutsideTable(status: int, fallback: string)
    requires !InTable(status)
    ensures fallback != "" ==> MapStatusToMessage(status, fallback) == fallback
    ensures fallback == "" ==> MapStatusToMessage(status, fallback) == DefaultMessage
  {}

  // ---------------------------------------------------------------------------
  // Properties of the catch block

  /** The rewording looks at the message in any letter case. */
  lemma {:induction false} CaughtIgnoresCase(message: string)
    ensures NetworkWording(ToLower(message)) <==> NetworkWording(message)
  {
    ToLowerIdempotent(message);
  }

  /** A message mentioning neither "failed to fetch" nor "network", in any
      letter case, passes through unchanged. */
  lemma {:induction false} CaughtKeeps(message: string)
    requires message != "" && !NetworkWording(message)
    ensures Caught(message) == message
  {}

  // ---------------------------------------------------------------------------
  // Properties of analyzeContent

  /** Text with something besides whitespace is sent trimmed, and the
      outcome is the reply's. */
  lemma {:induction false} TextSentTrimmed<A>(t: string, server: string -> Reply<A>)
    requires !Blank(t)
    ensures AnalyzeContent(Some(t), server) == Outcome(server(Trim(t)))
  {
    TrimEmptyIffBlank(t);
  }

  /** Empty or whitespace-only text is refused before any request, with a
      message the catch block never sees. */
  lemma {:induction false} BlankTextRejected<A>(text: Option<string>, server: string -> Reply<A>)
    requires Blank(text.GetOr(""))
    ensures AnalyzeContent(text, server) == Err(NoTextMessage)
  {
    TrimEmptyIffBlank(text.GetOr(""));
  }

  /** Only the trimmed text reaches the server: two servers that answer it
      alike give the same outcome. */
  lemma {:induction false} TrimmedTextSent<A>(t: string, server: string -> Reply<A>, other: string -> Reply<A>)
    requires server(Trim(t)) == other(Trim(t))
    ensures AnalyzeContent(Some(t), server) == AnalyzeContent(Some(t), other)
  {
    var trimmed := Trim(t);
    assert Some(t).GetOr("") == t;
    if trimmed != "" {
      assert AnalyzeContent(Some(t), server) == Outcome(server(trimmed));
      assert AnalyzeContent(Some(t), other) == Outcome(other(trimmed));
    }
  }

  /** Sending the trimmed text in the first place changes nothing. */
  lemma {:induction false} TrimmedTextSame<A>(t: string, server: string -> Reply<A>)
    ensures AnalyzeContent(Some(Trim(t)), server) == AnalyzeContent(Some(t), server)
  {
    assert Some(t).GetOr("") == t;
    assert Some(Trim(t)).GetOr("") == Trim(t);
    TrimIdempotent(t);
  }

  /** What the `try` block throws is what the `catch` block rewords; a
      success is returned as it is. */
  lemma {:induction false} OutcomeOfReply<A>(status: int, payload: Payload<A>)
    ensures Classify(status, payload).Ok? ==> Outcome(Reply(status, payload)) == Classify(status, payload)
    ensures Classify(status, payload).Err?
      ==> Outcome(Reply(status, payload)) == Err(Caught(Classify(status, payload).error))
  {}

  /** A 404 without a usable body means the endpoint is missing. */
  lemma {:induction false} NotFoundWithoutPayload<A>()
    ensures Classify<A>(404, NoPayload) == Err(EndpointMissingMessage)
  {}

  /** A successful status whose body has no analysis is refused. */
  lemma {:induction false} OkWithoutAnalysisRejected<A>(status: int, payload: Payload<A>)
    requires OkStatus(status)
    requires payload.NoPayload? || payload.analysis.None?
    ensures Classify(status, payload) == Err(InvalidResponseMessage)
  {}

  /** A successful status whose body has an analysis returns it. */
  lemma {:induction false} OkWithAnalysis<A>(status: int, error: string, a: A)
    requires OkStatus(status)
    ensures Outcome(Reply(status, Payload(error, Some(a)))) == Ok(a)
  {}

  /** For a failing status of the table the server's own `error` text is
      dropped: it reaches mapStatusToMessage only as the fallback. */
  lemma {:induction false} TableStatusOverridesServerError<A>(status: int, payload: Payload<A>)
    requires !OkStatus(status) && InTable(status)
    requires !(status == 404 && payload.NoPayload?)
    ensures Classify(status, payload) == Err(MapStatusToMessage(status, ""))
  {}

  /** For a failing status outside the table the server's `error` text is
      the message, and the default when there is none. */
  lemma {:induction false} OtherStatusKeepsServerError<A>(status: int, payload: Payload<A>)
    requires !OkStatus(status) && !InTable(status)
    ensures payload.Payload? && payload.error != "" ==> Classify(status, payload) == Err(payload.error)
    ensures payload.NoPayload? || payload.error == "" ==> Classify(status, payload) == Err(DefaultMessage)
  {}

  /** A request that never gets an answer because the network failed is
      reported as an unreachable server, whatever the browser's wording
      of it; any other rejection keeps its message. */
  lemma {:induction false} UnreachableOutcome<A>(reason: string)
    ensures NetworkWording(reason) ==> Outcome<A>(Unreachable(reason)) == Err(UnreachableMessage)
    ensures !NetworkWording(reason) && reason != "" ==> Outcome<A>(Unreachable(reason)) == Err(reason)
    ensures !NetworkWording(reason) && reason == "" ==> Outcome<A>(Unreachable(reason)) == Err(DefaultMessage)
  {}
}
