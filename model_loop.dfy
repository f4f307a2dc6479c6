/** The model-fallback loop of the handler in api/analyze.js: each
    candidate is asked in turn; a model failing with an error classified
    as 404 passes the request on to the next one, anything else decides the
    answer. A Gemini call is an outcome supplied by the caller (the raw
    text of the reply, or the message of the error thrown), and so is
    `JSON.parse`. */
module ModelLoop {
  import opened Results
  import opened ModelNames
  import opened JsonReply
  import opened ApiErrors

  /** One model's attempt: the parsed analysis, or the message of the error
      thrown by the SDK call or by `JSON.parse`. */
  function Attempt<J>(model: string, prompt: string, generate: (string, string) -> Result<string, string>,
                      parse: string -> Result<J, string>): Result<J, string>
  {
    match generate(model, prompt)
    case Err(message) => Err(message)
    case Ok(raw) => parse(NormalizeJson(raw))
  }

  /** What each candidate would answer. Only those the loop reaches are
      asked; the others play no part in the answer. */
  function Attempts<J>(models: seq<string>, prompt: string, generate: (string, string) -> Result<string, string>,
                       parse: string -> Result<J, string>): seq<Result<J, string>>
  {
    seq(|models|, i requires 0 <= i < |models| => Attempt(models[i], prompt, generate, parse))
  }

  /** A response: a status and JSON body, or the exception that escapes the
      handler. */
  datatype Answer<J> = Json(status: int, body: AnswerBody<J>) | Uncaught

  datatype AnswerBody<J> = Failure(error: string) | Analysis(analysis: J, model: string)

  /** The answer after every model failed with a 404: `lastError` mapped
      under the first model's name. Its status is that of `lastError`
      whatever the name; only a 404 names a model, the first candidate or
      the default when there is none. */
  function FinalAnswer<J>(models: seq<string>, lastError: string): (a: Answer<J>)
    ensures a.Json? && a.body.Failure?
    ensures a.status == ErrorStatus(lastError)
    ensures a.status != 404 ==> a.body.error == ErrorText(a.status, "")
    ensures a.status == 404 && models != [] && models[0] != "" ==> a.body.error == ModelUnavailable(models[0])
    ensures a.status == 404 && (models == [] || models[0] == "") ==> a.body.error == ModelUnavailable(DefaultModel)
  {
    var shown := if models != [] && models[0] != "" then models[0] else DefaultModel;
    var mapped := MapApiError(lastError, shown);
    Json(mapped.status, Failure(mapped.error))
  }

  /** The loop from model `i` on, given each model's outcome, `lastError`
      being the message of the latest failure ("" before any). */
  function TryFrom<J>(models: seq<string>, outcomes: seq<Result<J, string>>, i: nat, lastError: string): Answer<J>
    requires |outcomes| == |models| && i <= |models|
    decreases |models| - i
  {
    if i == |models| then FinalAnswer(models, lastError)
    else
      match outcomes[i]
      case Ok(parsed) => Json(200, Analysis(parsed, models[i]))
      case Err(message) =>
        var mapped := MapApiError(message, models[i]);
        if mapped.status == 404 then TryFrom(models, outcomes, i + 1, message)
        else Json(mapped.status, Failure(mapped.error))
  }

  /** The `for` loop over the candidates. */
  method TryModels<J>(models: seq<string>, prompt: string, generate: (string, string) -> Result<string, string>,
                      parse: string -> Result<J, string>) returns (answer: Answer<J>)
    ensures answer == TryFrom(models, Attempts(models, prompt, generate, parse), 0, "")
  {
    ghost var outcomes := Attempts(models, prompt, generate, parse);
    var lastError := "";
    for i := 0 to |models|
      invariant TryFrom(models, outcomes, 0, "") == TryFrom(models, outcomes, i, lastError)
    {
      var outcome := Attempt(models[i], prompt, generate, parse);
      if outcome.Ok? {
        return Json(200, Analysis(outcome.value, models[i]));
      }
      lastError := outcome.error;
      var mapped := MapApiError(lastError, models[i]);
      if mapped.status != 404 {
        return Json(mapped.status, Failure(mapped.error));
      }
    }
    answer := FinalAnswer(models, lastError);
  }

  /** The message of a failed attempt ("" for a success). */
  function ErrorOf<J>(a: Result<J, string>): string {
    if a.Err? then a.error else ""
  }

  /** Model `i` failed with an error mapped to 404. */
  predicate NotFoundAt<J>(models: seq<string>, outcomes: seq<Result<J, string>>, i: nat)
    requires |outcomes| == |models| && i < |models|
  {
    outcomes[i].Err? && MapApiError(outcomes[i].error, models[i]).status == 404
  }

  /** Every model failed with an error mapped to 404. */
  predicate AllNotFound<J>(models: seq<string>, outcomes: seq<Result<J, string>>)
    requires |outcomes| == |models|
  {
    forall j :: 0 <= j < |models| ==> NotFoundAt(models, outcomes, j)
  }

  /** Models failing with 404 are passed over one by one. */
  lemma {:induction false} SkipNotFound<J>(models: seq<string>, outcomes: seq<Result<J, string>>, i: nat, k: nat,
                                          lastError: string)
    requires |outcomes| == |models| && i < k <= |models|
    requires forall j :: i <= j < k ==> NotFoundAt(models, outcomes, j)
    ensures TryFrom(models, outcomes, i, lastError) == TryFrom(models, outcomes, k, ErrorOf(outcomes[k - 1]))
    decreases k - i
  {
    assert NotFoundAt(models, outcomes, i);
    if i + 1 < k {
      SkipNotFound(models, outcomes, i + 1, k, ErrorOf(outcomes[i]));
    }
  }

  /** The first model that does not fail with 404 decides the answer: its
      analysis, or its error mapped. */
  lemma {:induction false} FirstDecisiveModel<J>(models: seq<string>, outcomes: seq<Result<J, string>>, k: nat)
    requires |outcomes| == |models| && k < |models|
    requires forall j :: 0 <= j < k ==> NotFoundAt(models, outcomes, j)
    requires !NotFoundAt(models, outcomes, k)
    ensures var a := outcomes[k];
      TryFrom(models, outcomes, 0, "")
      == if a.Ok? then Json(200, Analysis(a.value, models[k]))
         else Json(MapApiError(a.error, models[k]).status, Failure(MapApiError(a.error, models[k]).error))
  {
    if k > 0 {
      SkipNotFound(models, outcomes, 0, k, "");
    }
  }

  /** When every model fails with 404 the answer is a 404 naming the first
      model. */
  lemma {:induction false} AllModelsNotFound<J>(models: seq<string>, outcomes: seq<Result<J, string>>)
    requires |outcomes| == |models| && models != [] && models[0] != ""
    requires AllNotFound(models, outcomes)
    ensures TryFrom(models, outcomes, 0, "") == Json(404, Failure(ModelUnavailable(models[0])))
  {
    SkipNotFound(models, outcomes, 0, |models|, "");
    var last := |models| - 1;
    assert NotFoundAt(models, outcomes, last);
    MapApiErrorModel(outcomes[last].error, models[last], models[0]);
  }
}
