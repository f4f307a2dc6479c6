/** The texts api/analyze.js answers with when it refuses a request. */
module EndpointMessages {
  /** The key of the example environment file, which counts as no key. */
  const PlaceholderKey := "your_gemini_api_key_here"
  const MethodMessage := "Method not allowed. Use POST."
  const RateLimitedMessage := "Too many analyze requests. Please wait and retry."
  const KeyMissingMessage := "Server Gemini API key is not configured."
  const InvalidJsonMessage := "Invalid JSON payload."
  const NoTextMessage := "No text provided for analysis."
  const TooLargeMessage := "Input text is too large."
}

/** api/analyze.js: the serverless endpoint that turns text into a
    social-media analysis by asking Gemini. The request, the settings read
    from the environment and the clock are parameters; each Gemini call is
    an outcome supplied by the caller (the raw text of the reply or an error
    message), and so is `JSON.parse`. */
module AnalyzeEndpoint {
  import opened Results
  import opened Strings
  import opened Sequences
  import opened RateLimit
  import opened ClientAddress
  import opened ModelNames
  import opened ModelList
  import opened ModelLoop
  import opened ApiErrors
  import opened Prompt
  import opened EndpointMessages

  /** The longest text the endpoint accepts. */
  const MaxInputChars := 20000

  // ---------------------------------------------------------------------------
  // handler

  /** The settings read from the environment: `GEMINI_API_KEY`,
      `GEMINI_MODEL`, and the window (ms) and maximum of the rate limit
      (60000 and 8 when unset). */
  datatype Env = Env(apiKey: Option<string>, geminiModel: Option<string>, windowMs: int, maxRequests: int)

  /** The request body as parseRequestBody leaves it: not JSON, JSON `null`
      (reading `.text` of it throws), or a value whose `text` field is
      `None` when absent or falsy and otherwise its `String(...)`
      rendering. */
  datatype Body = Unparseable | NullJson | Parsed(text: Option<string>)

  datatype Request = Request(verb: string, forwardedFor: Option<string>, remoteAddress: Option<string>, body: Body)


  /** A key is set and is not the placeholder of the example file. */
  predicate KeyConfigured(apiKey: Option<string>) {
    apiKey.Some? && apiKey.value != "" && apiKey.value != PlaceholderKey
  }

  /** The outcome of the checks between the rate limit and the models. */
  datatype Verdict = Refuse(status: int, error: string) | Throws | Proceed(text: string)

  /** The key, body and text checks, in the handler's order. */
  function CheckBody(env: Env, body: Body): (v: Verdict)
    ensures v.Proceed? ==> v.text != "" && |v.text| <= MaxInputChars && IsTrimmed(v.text)
  {
    if !KeyConfigured(env.apiKey) then Refuse(401, KeyMissingMessage)
    else
      match body
      case Unparseable => Refuse(400, InvalidJsonMessage)
      case NullJson => Throws
      case Parsed(t) =>
        var text := Trim(t.GetOr(""));
        if text == "" then Refuse(400, NoTextMessage)
        else if |text| > MaxInputChars then Refuse(413, TooLargeMessage)
        else Proceed(text)
  }

  /** The prompt sent to each candidate in turn. */
  function RunModels<J>(configured: Option<string>, prompt: string, generate: (string, string) -> Result<string, string>,
                        parse: string -> Result<J, string>): Answer<J>
  {
    var models := ModelCandidates(configured);
    TryFrom(models, Attempts(models, prompt, generate, parse), 0, "")
  }

  /** Everything after the rate limit has let the request through. */
  function Admitted<J>(env: Env, body: Body, generate: (string, string) -> Result<string, string>,
                       parse: string -> Result<J, string>): Answer<J>
  {
    match CheckBody(env, body)
    case Refuse(status, error) => Json(status, Failure(error))
    case Throws => Uncaught
    case Proceed(text) => RunModels(env.geminiModel, BuildPrompt(text), generate, parse)
  }

  /** The answer to a request and the rate-limit map it leaves. */
  datatype Served<J> = Served(answer: Answer<J>, buckets: map<string, seq<int>>)

  /** What the handler answers and stores, from the map before the request. */
  function Serve<J>(buckets: map<string, seq<int>>, env: Env, req: Request, now: int,
                    generate: (string, string) -> Result<string, string>, parse: string -> Result<J, string>): Served<J>
  {
    if req.verb != "POST" then Served(Json(405, Failure(MethodMessage)), buckets)
    else
      var hit := HitStep(buckets, ClientIp(req.forwardedFor, req.remoteAddress), now, env.windowMs, env.maxRequests);
      if hit.limited then Served(Json(429, Failure(RateLimitedMessage)), hit.buckets)
      else Served(Admitted(env, req.body, generate, parse), hit.buckets)
  }

  /** handler: the checks in the source's order, then the model loop. */
  method Handle<J>(limiter: RateLimiter, env: Env, req: Request, now: int,
                   generate: (string, string) -> Result<string, string>, parse: string -> Result<J, string>)
    returns (answer: Answer<J>)
    modifies limiter
    ensures Served(answer, limiter.buckets) == Serve(old(limiter.buckets), env, req, now, generate, parse)
  {
    if req.verb != "POST" {
      return Json(405, Failure(MethodMessage));
    }
    var ip := ClientIp(req.forwardedFor, req.remoteAddress);
    var limited := limiter.HitRateLimit(ip, now, env.windowMs, env.maxRequests);
    if limited {
      return Json(429, Failure(RateLimitedMessage));
    }
    if !KeyConfigured(env.apiKey) {
      return Json(401, Failure(KeyMissingMessage));
    }
    if req.body.Unparseable? {
      return Json(400, Failure(InvalidJsonMessage));
    }
    if req.body.NullJson? {
      return Uncaught;
    }
    var text := Trim(req.body.text.GetOr(""));
    if text == "" {
      return Json(400, Failure(NoTextMessage));
    }
    if |text| > MaxInputChars {
      return Json(413, Failure(TooLargeMessage));
    }
    var prompt := BuildPrompt(text);
    var models := ModelCandidates(env.geminiModel);
    answer := TryModels(models, prompt, generate, parse);
  }

  // ---------------------------------------------------------------------------
  // Properties of the handler

  /** A request other than POST is refused first, and records nothing. */
  lemma {:induction false} NonPostRefused<J>(buckets: map<string, seq<int>>, env: Env, req: Request, now: int,
                          generate: (string, string) -> Result<string, string>, parse: string -> Result<J, string>)
    requires req.verb != "POST"
    ensures Serve(buckets, env, req, now, generate, parse) == Served(Json(405, Failure(MethodMessage)), buckets)
  {}

  /** A POST always records its visit with the limiter, and a limited one is
      refused whatever the key, the body or the models. */
  lemma {:induction false} PostCountsAgainstLimit<J>(buckets: map<string, seq<int>>, env: Env, req: Request, now: int,
                                  generate: (string, string) -> Result<string, string>, parse: string -> Result<J, string>)
    requires req.verb == "POST"
    ensures var hit := HitStep(buckets, ClientIp(req.forwardedFor, req.remoteAddress), now, env.windowMs, env.maxRequests);
      Serve(buckets, env, req, now, generate, parse).buckets == hit.buckets
      && (hit.limited ==> Serve(buckets, env, req, now, generate, parse).answer == Json(429, Failure(RateLimitedMessage)))
  {}

  /** Without a real key nothing else is looked at. */
  lemma {:induction false} KeyCheckedBeforeBody(env: Env, body: Body)
    requires !KeyConfigured(env.apiKey)
    ensures CheckBody(env, body) == Refuse(401, KeyMissingMessage)
  {}

  /** The text checks: missing or whitespace-only text is a 400, text over
      20000 characters after trimming a 413, and any other text goes on,
      trimmed, to the models. */
  lemma {:induction false} TextChecks(env: Env, t: Option<string>)
    requires KeyConfigured(env.apiKey)
    ensures Blank(t.GetOr("")) ==> CheckBody(env, Parsed(t)) == Refuse(400, NoTextMessage)
    ensures !Blank(t.GetOr("")) && |Trim(t.GetOr(""))| > MaxInputChars
        ==> CheckBody(env, Parsed(t)) == Refuse(413, TooLargeMessage)
    ensures !Blank(t.GetOr("")) && |Trim(t.GetOr(""))| <= MaxInputChars
        ==> CheckBody(env, Parsed(t)) == Proceed(Trim(t.GetOr("")))
  {
    TrimEmptyIffBlank(t.GetOr(""));
  }

  /** An accepted text is trimmed, put into the prompt and sent to the
      models. */
  lemma {:induction false} AcceptedTextRunsModels<J>(env: Env, t: string, generate: (string, string) -> Result<string, string>,
                                  parse: string -> Result<J, string>)
    requires KeyConfigured(env.apiKey) && !Blank(t) && |Trim(t)| <= MaxInputChars
    ensures Admitted(env, Parsed(Some(t)), generate, parse)
         == RunModels(env.geminiModel, BuildPrompt(Trim(t)), generate, parse)
  {
    TextChecks(env, Some(t));
  }

  /** With every candidate failing with 404, whatever the prompt, the answer
      of the model loop (RunModels) is a 404 naming the configured model, or
      the default when none is set. */
  lemma {:induction false} NoModelAvailable<J>(configured: Option<string>, models: seq<string>, outcomes: seq<Result<J, string>>)
    requires models == ModelCandidates(configured) && |outcomes| == |models|
    requires AllNotFound(models, outcomes)
    ensures var c := Trim(configured.GetOr(""));
      TryFrom(models, outcomes, 0, "") == Json(404, Failure(ModelUnavailable(if c != "" then c else DefaultModel)))
  {
    ModelCandidatesShape(configured);
    AllModelsNotFound(models, outcomes);
  }
}
