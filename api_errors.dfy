/** The texts mapApiError in api/analyze.js answers with. */
module ApiErrorMessages {
  const KeyInvalidMessage := "Gemini API key is missing or invalid on server."
  const NoPermissionMessage := "Gemini API key does not have access permissions."
  const GeminiBusyMessage := "Gemini rate limit reached. Please retry shortly."
  const GenerationFailedMessage := "Failed to generate analysis."
}

/** mapApiError in api/analyze.js: how an error thrown while asking Gemini
    is answered. The message is classified, in lower case, by an ordered
    list of substring rules; the status decides the text of the answer. */
module ApiErrors {
  import opened Strings
  import opened ApiErrorMessages

  /** The status and message an SDK error is answered with. */
  datatype ApiError = ApiError(status: int, error: string)

  /** The 404 message, naming the model. */
  function ModelUnavailable(model: string): string {
    "Model \"" + model + "\" is unavailable for this project."
  }

  /** The status mapApiError picks for an error message ("" for an error
      without one): the tests of its `if` chain, in order, on the message in
      lower case. */
  function ErrorStatus(message: string): (s: int)
    ensures s in {401, 403, 404, 429, 500}
  {
    var m := ToLower(message);
    if Contains(m, "api key") then 401
    else if Contains(m, "permission") || Contains(m, "403") then 403
    else if Contains(m, "404") || (Contains(m, "model") && Contains(m, "not found")) then 404
    else if Contains(m, "429") || Contains(m, "quota") || Contains(m, "too many requests")
         || Contains(m, "rate limit") then 429
    else 500
  }

  /** The text mapApiError answers with, for each status it picks. */
  function ErrorText(status: int, model: string): string {
    if status == 401 then KeyInvalidMessage
    else if status == 403 then NoPermissionMessage
    else if status == 404 then ModelUnavailable(model)
    else if status == 429 then GeminiBusyMessage
    else GenerationFailedMessage
  }

  /** mapApiError, on the error's message. */
  function MapApiError(message: string, model: string): (r: ApiError)
    ensures r.status in {401, 403, 404, 429, 500}
    ensures r.status == 404 ==> r.error == ModelUnavailable(model)
  {
    var s := ErrorStatus(message);
    ApiError(s, ErrorText(s, model))
  }

  // ---------------------------------------------------------------------------
  // The rules as a table

  /** A classification rule: a status and the ways a (lower-case) message
      can match it, each a list of words that must all occur. */
  datatype Rule = Rule(status: int, anyOf: seq<seq<string>>)

  /** The rules of mapApiError, in the order they are tried; a message that
      matches none gets 500. */
  const Rules: seq<Rule> := [
    Rule(401, [["api key"]]),
    Rule(403, [["permission"], ["403"]]),
    Rule(404, [["404"], ["model", "not found"]]),
    Rule(429, [["429"], ["quota"], ["too many requests"], ["rate limit"]])
  ]

  /** Every word of `words` occurs in `m`. */
  predicate AllOccur(m: string, words: seq<string>) {
    forall i :: 0 <= i < |words| ==> Contains(m, words[i])
  }

  /** One of the alternatives of `rule` occurs in full in `m`. */
  predicate Matches(m: string, rule: Rule) {
    exists i :: 0 <= i < |rule.anyOf| && AllOccur(m, rule.anyOf[i])
  }

  /** The status of the first rule that matches, 500 when none does. */
  function FirstMatch(rules: seq<Rule>, m: string): int {
    if rules == [] then 500
    else if Matches(m, rules[0]) then rules[0].status
    else FirstMatch(rules[1..], m)
  }

  lemma {:induction false} AllOccurOne(m: string, w: string)
    ensures AllOccur(m, [w]) <==> Contains(m, w)
  {
    assert [w][0] == w;
  }

  lemma {:induction false} AllOccurTwo(m: string, v: string, w: string)
    ensures AllOccur(m, [v, w]) <==> Contains(m, v) && Contains(m, w)
  {
    assert [v, w][0] == v && [v, w][1] == w;
  }

  /** A rule with alternatives `a` and then `rest` matches when `a` does or
      `rest` does. */
  lemma {:induction false} MatchesCons(m: string, s: int, a: seq<string>, rest: seq<seq<string>>)
    ensures Matches(m, Rule(s, [a] + rest)) <==> AllOccur(m, a) || Matches(m, Rule(s, rest))
  {
    var alts := [a] + rest;
    if Matches(m, Rule(s, alts)) && !AllOccur(m, a) {
      var i :| 0 <= i < |alts| && AllOccur(m, alts[i]);
      assert i > 0 && alts[i] == rest[i - 1];
    }
    if Matches(m, Rule(s, rest)) {
      var i :| 0 <= i < |rest| && AllOccur(m, rest[i]);
      assert alts[i + 1] == rest[i];
    }
    if AllOccur(m, a) {
      assert alts[0] == a;
    }
  }

  lemma {:induction false} MatchesNone(m: string, s: int)
    ensures !Matches(m, Rule(s, []))
  {}

  lemma {:induction false} Rule401(m: string)
    ensures Matches(m, Rules[0]) <==> Contains(m, "api key")
  {
    assert Rules[0] == Rule(401, [["api key"]] + []);
    MatchesCons(m, 401, ["api key"], []);
    AllOccurOne(m, "api key");
  }

  lemma {:induction false} Rule403(m: string)
    ensures Matches(m, Rules[1]) <==> Contains(m, "permission") || Contains(m, "403")
  {
    assert Rules[1] == Rule(403, [["permission"]] + [["403"]]);
    assert [["403"]] == [["403"]] + [];
    MatchesCons(m, 403, ["permission"], [["403"]]);
    MatchesCons(m, 403, ["403"], []);
    AllOccurOne(m, "permission");
    AllOccurOne(m, "403");
  }

  lemma {:induction false} Rule404(m: string)
    ensures Matches(m, Rules[2]) <==> Contains(m, "404") || (Contains(m, "model") && Contains(m, "not found"))
  {
    assert Rules[2] == Rule(404, [["404"]] + [["model", "not found"]]);
    assert [["model", "not found"]] == [["model", "not found"]] + [];
    MatchesCons(m, 404, ["404"], [["model", "not found"]]);
    MatchesCons(m, 404, ["model", "not found"], []);
    AllOccurOne(m, "404");
    AllOccurTwo(m, "model", "not found");
  }

  lemma {:induction false} Rule429(m: string)
    ensures Matches(m, Rules[3])
        <==> Contains(m, "429") || Contains(m, "quota") || Contains(m, "too many requests") || Contains(m, "rate limit")
  {
    var r3 := [["rate limit"]];
    var r2 := [["too many requests"]] + r3;
    var r1 := [["quota"]] + r2;
    assert Rules[3] == Rule(429, [["429"]] + r1);
    assert r3 == [["rate limit"]] + [];
    MatchesCons(m, 429, ["429"], r1);
    MatchesCons(m, 429, ["quota"], r2);
    MatchesCons(m, 429, ["too many requests"], r3);
    MatchesCons(m, 429, ["rate limit"], []);
    AllOccurOne(m, "429");
    AllOccurOne(m, "quota");
    AllOccurOne(m, "too many requests");
    AllOccurOne(m, "rate limit");
  }

  /** mapApiError's status is that of the first matching rule, tried on the
      message in lower case. */
  lemma {:induction false} MapApiErrorFirstMatch(message: string, model: string)
    ensures MapApiError(message, model).status == FirstMatch(Rules, ToLower(message))
  {
    var m := ToLower(message);
    Rule401(m);
    Rule403(m);
    Rule404(m);
    Rule429(m);
    var t1 := Rules[1..];
    var t2 := t1[1..];
    var t3 := t2[1..];
    var t4 := t3[1..];
    assert t1[0] == Rules[1] && t2[0] == Rules[2] && t3[0] == Rules[3] && t4 == [];
    assert FirstMatch(t4, m) == 500;
    assert FirstMatch(t3, m) == if Matches(m, Rules[3]) then 429 else 500;
    assert FirstMatch(t2, m) == if Matches(m, Rules[2]) then 404 else FirstMatch(t3, m);
    assert FirstMatch(t1, m) == if Matches(m, Rules[1]) then 403 else FirstMatch(t2, m);
    assert FirstMatch(Rules, m) == if Matches(m, Rules[0]) then 401 else FirstMatch(t1, m);
  }

  /** The letter case of the message does not matter. */
  lemma {:induction false} MapApiErrorIgnoresCase(message: string, model: string)
    ensures MapApiError(ToLower(message), model) == MapApiError(message, model)
  {
    ToLowerIdempotent(message);
  }

  /** The model only shows in the 404 message. */
  lemma {:induction false} MapApiErrorModel(message: string, model: string, other: string)
    ensures MapApiError(message, model).status == MapApiError(message, other).status
    ensures MapApiError(message, model).status != 404 ==> MapApiError(message, model) == MapApiError(message, other)
  {}
}
