/** buildPrompt in api/analyze.js: the instructions sent to Gemini, with
    the text to analyze embedded at the end, cut to its first 2200
    characters. */
module Prompt {
  import opened Results
  import opened Strings

  /** `MAX_TEXT_CHARS`: how much of the text the prompt embeds. */
  const MaxTextChars := 2200

  /** The template of buildPrompt up to the embedded text, line by line. */
  const PromptLines: seq<string> := [
    "You are a social media content expert. Analyze the following text and provide actionable insights for social media engagement improvement.",
    "",
    "Return your response in the following JSON format ONLY (no markdown, no extra text, just valid JSON):",
    "{",
    "  \"sentiment\": {",
    "    \"label\": \"Positive/Negative/Neutral\",",
    "    \"score\": 0.0 to 1.0,",
    "    \"explanation\": \"Brief explanation\"",
    "  },",
    "  \"engagementScore\": {",
    "    \"score\": 0 to 100,",
    "    \"explanation\": \"Why this score\"",
    "  },",
    "  \"suggestions\": [",
    "    \"Specific suggestion 1\",",
    "    \"Specific suggestion 2\",",
    "    \"Specific suggestion 3\",",
    "    \"Specific suggestion 4\",",
    "    \"Specific suggestion 5\"",
    "  ],",
    "  \"hashtags\": [\"#hashtag1\", \"#hashtag2\", \"#hashtag3\", \"#hashtag4\", \"#hashtag5\"],",
    "  \"bestPlatform\": {",
    "    \"platform\": \"Instagram/Twitter/LinkedIn/Facebook/TikTok\",",
    "    \"reason\": \"Why this platform suits best\"",
    "  },",
    "  \"improvedVersion\": \"A rewritten, improved version of the content optimized for social media\",",
    "  \"toneAnalysis\": \"Description of the current tone and recommended changes\",",
    "  \"targetAudience\": \"Who this content would appeal to most\"",
    "}",
    "",
    "Content to analyze:",
    "\"\"\""
  ]

  const PromptHead := Join(PromptLines, "\n") + "\n"
  /** The template after the embedded text. */
  const PromptTail := "\n\"\"\""

  function Min(a: int, b: int): int {
    if a <= b then a else b
  }

  /** buildPrompt: the instructions, then at most the first 2200 characters
      of the text between triple quotes. */
  function BuildPrompt(text: string): string {
    PromptHead + text[..Min(|text|, MaxTextChars)] + PromptTail
  }

  /** The prompt embeds a prefix of the text of length min(|text|, 2200):
      all of a short text. */
  lemma {:induction false} PromptEmbedsPrefix(text: string)
    ensures |BuildPrompt(text)| == |PromptHead| + Min(|text|, MaxTextChars) + |PromptTail|
    ensures |text| <= MaxTextChars ==> BuildPrompt(text) == PromptHead + text + PromptTail
  {
    assert text[..|text|] == text;
  }

  /** Nothing after the first 2200 characters reaches the model. */
  lemma {:induction false} PromptIgnoresRest(a: string, b: string)
    requires |a| >= MaxTextChars && |b| >= MaxTextChars
    requires a[..MaxTextChars] == b[..MaxTextChars]
    ensures BuildPrompt(a) == BuildPrompt(b)
  {}

  /** The text can be read back from the prompt: what stands between the
      instructions and the closing quotes is the embedded prefix. */
  lemma {:induction false} PromptRoundTrip(text: string)
    ensures Between(BuildPrompt(text), PromptHead, PromptTail) == Some(text[..Min(|text|, MaxTextChars)])
  {
    BetweenWrapped(PromptHead, text[..Min(|text|, MaxTextChars)], PromptTail);
  }
}
