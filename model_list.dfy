/** The model names built into api/analyze.js. */
module ModelNames {
  import opened Strings

  /** `DEFAULT_MODEL` */
  const DefaultModel := "gemini-2.5-flash-lite"
  /** The other model of the fallback list. */
  const SecondModel := "gemini-2.0-flash"

  /** The built-in names have no surrounding whitespace. */
  lemma {:induction false} BuiltInModelsTrimmed()
    ensures IsTrimmed(DefaultModel) && IsTrimmed(SecondModel)
    ensures DefaultModel != "" && SecondModel != "" && DefaultModel != SecondModel
  {
    assert DefaultModel[0] == 'g' && DefaultModel[|DefaultModel| - 1] == 'e';
    assert SecondModel[0] == 'g' && SecondModel[|SecondModel| - 1] == 'h';
  }
}

/** getModelCandidates in api/analyze.js: the Gemini models tried, in
    order. */
module ModelList {
  import opened Results
  import opened Strings
  import opened Sequences
  import opened ModelNames

  /** getModelCandidates: `configured` is `GEMINI_MODEL`. The list goes
      through `trim`, `filter(Boolean)` and a `Set`, which keeps first
      occurrences in order. */
  function ModelCandidates(configured: Option<string>): seq<string> {
    var c := Trim(configured.GetOr(""));
    var names := [if c != "" then c else DefaultModel, DefaultModel, SecondModel];
    Dedup(NonEmptyOnly(TrimEach(names)))
  }

  /** The candidates are the configured model (or the default when none is
      set), then the default, then the other model, each once. */
  lemma {:induction false} ModelCandidatesList(configured: Option<string>)
    ensures var c := Trim(configured.GetOr(""));
      ModelCandidates(configured)
      == if c == "" || c == DefaultModel then [DefaultModel, SecondModel]
         else if c == SecondModel then [SecondModel, DefaultModel]
         else [c, DefaultModel, SecondModel]
  {
    var c := Trim(configured.GetOr(""));
    BuiltInModelsTrimmed();
    CandidatesOf(c, DefaultModel, SecondModel);
  }

  /** The candidate list built from a trimmed configured name `c` and two
      distinct, trimmed, non-empty built-in names `d` and `s`. */
  lemma {:induction false} CandidatesOf(c: string, d: string, s: string)
    requires IsTrimmed(c) && IsTrimmed(d) && IsTrimmed(s) && d != "" && s != "" && d != s
    ensures var first := if c != "" then c else d;
      Dedup(NonEmptyOnly(TrimEach([first, d, s])))
      == if c == "" || c == d then [d, s] else if c == s then [s, d] else [c, d, s]
  {
    var first := if c != "" then c else d;
    TrimKeepsThree(first, d, s);
    FilterKeepsThree(first, d, s);
    DedupOfThree(first, d, s);
  }

  /** `trim` leaves three trimmed names alone. */
  lemma {:induction false} TrimKeepsThree(a: string, b: string, c: string)
    requires IsTrimmed(a) && IsTrimmed(b) && IsTrimmed(c)
    ensures TrimEach([a, b, c]) == [a, b, c]
  {
    TrimEachTrimmed([a, b, c]);
  }

  /** `filter(Boolean)` leaves three non-empty names alone. */
  lemma {:induction false} FilterKeepsThree(a: string, b: string, c: string)
    requires a != "" && b != "" && c != ""
    ensures NonEmptyOnly([a, b, c]) == [a, b, c]
  {
    assert [a, b, c][1..] == [b, c] && [b, c][1..] == [c] && [c][1..] == [];
    assert NonEmptyOnly([c]) == [c];
    assert NonEmptyOnly([b, c]) == [b] + [c];
  }

  /** `Set` order on three names, of which the last two differ. */
  lemma {:induction false} DedupOfThree(a: string, b: string, c: string)
    requires b != c
    ensures Dedup([a, b, c]) == if a == b then [b, c] else if a == c then [a, b] else [a, b, c]
  {
    assert [a, b, c][..2] == [a, b];
    assert [a, b][..1] == [a];
    assert [a][..0] == [];
    assert Dedup([a]) == [a];
    assert Dedup([a, b]) == if a == b then [a] else [a, b];
  }

  /** Two or three distinct non-empty names; the first is the configured
      one or the default, and both built-in models are always there. */
  lemma {:induction false} ModelCandidatesShape(configured: Option<string>)
    ensures var r := ModelCandidates(configured);
      var c := Trim(configured.GetOr(""));
      2 <= |r| <= 3 && Distinct(r) && "" !in r
      && r[0] == (if c != "" then c else DefaultModel)
      && DefaultModel in r && SecondModel in r
  {
    ModelCandidatesList(configured);
    BuiltInModelsTrimmed();
    ListShape(Trim(configured.GetOr("")), DefaultModel, SecondModel);
  }

  /** The shape of the three possible lists. */
  lemma {:induction false} ListShape(c: string, d: string, s: string)
    requires d != "" && s != "" && d != s
    ensures var r := if c == "" || c == d then [d, s] else if c == s then [s, d] else [c, d, s];
      2 <= |r| <= 3 && Distinct(r) && "" !in r
      && r[0] == (if c != "" then c else d) && d in r && s in r
  {}
}
