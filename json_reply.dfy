/** normalizeJson in api/analyze.js: the JSON text cut out of a model
    reply. */
module JsonReply {
  import opened Results
  import opened Strings

  const Fence := "```"

  /** The index of the first non-whitespace character at or after `i`. */
  function SkipSpaces(s: string, i: nat): (r: nat)
    requires i <= |s|
    ensures i <= r <= |s| && (r < |s| ==> !IsSpace(s[r]))
    ensures forall j :: i <= j < r ==> IsSpace(s[j])
    decreases |s| - i
  {
    if i < |s| && IsSpace(s[i]) then SkipSpaces(s, i + 1) else i
  }

  /** The capture of `/```(?:json)?\s*([\s\S]*?)```/`, if it matches. The
      match can only start at the first fence: when that one has no closing
      fence after it, no later one has. The optional tag and the spaces
      contain no backquote, so the closing fence is the first one after
      them. */
  function FenceBody(s: string): (r: Option<string>)
    ensures r.Some? ==> forall i :: !OccursAt(r.value, Fence, i)
  {
    match IndexOfFrom(s, Fence, 0)
    case None => None
    case Some(p) =>
      var afterTag := if OccursAt(s, "json", p + 3) then p + 7 else p + 3;
      var start := SkipSpaces(s, afterTag);
      match IndexOfFrom(s, Fence, start)
      case None => None
      case Some(q) => FenceFree(s, start, q); Some(s[start..q])
  }

  lemma {:induction false} FenceFree(s: string, start: nat, q: nat)
    requires start <= q <= |s|
    requires forall i :: start <= i < q ==> !OccursAt(s, Fence, i)
    ensures forall i :: !OccursAt(s[start..q], Fence, i)
  {
    NotInSlice(s, Fence, start, q);
  }

  /** The slice from the first '{' to the last '}', when a '{' comes before
      the last '}'. */
  function BraceSlice(t: string): string {
    var first := IndexOf(t, '{');
    var last := LastIndexOf(t, '}');
    if first >= 0 && last > first then t[first..last + 1] else t
  }

  /** normalizeJson */
  function NormalizeJson(raw: string): string {
    var body := match FenceBody(raw) case Some(b) => b case None => raw;
    BraceSlice(Trim(body))
  }

  /** A '{' before the last '}' gives exactly the span from the first '{'
      to the last '}'; otherwise the text is kept as it is. */
  lemma {:induction false} BraceSliceSpan(t: string)
    ensures var first, last := IndexOf(t, '{'), LastIndexOf(t, '}');
      (0 <= first < last ==>
         BraceSlice(t) == t[first..last + 1] && '{' !in t[..first] && '}' !in t[last + 1..])
      && (!(0 <= first < last) ==> BraceSlice(t) == t)
  {
    IndexOfFirst(t, '{');
    LastIndexOfLast(t, '}');
  }

  /** Slicing again changes nothing. */
  lemma {:induction false} BraceSliceIdempotent(t: string)
    ensures BraceSlice(BraceSlice(t)) == BraceSlice(t)
  {
    var first, last := IndexOf(t, '{'), LastIndexOf(t, '}');
    if first >= 0 && last > first {
      var r := t[first..last + 1];
      assert r[0] == '{' && r[|r| - 1] == '}';
      assert IndexOf(r, '{') == 0;
      assert LastIndexOf(r, '}') == |r| - 1;
    }
  }

  /** Text without a fence is trimmed and sliced. */
  lemma {:induction false} NormalizeJsonUnfenced(raw: string)
    requires forall i :: !OccursAt(raw, Fence, i)
    ensures NormalizeJson(raw) == BraceSlice(Trim(raw))
  {
    assert FenceBody(raw) == None by {
      assert IndexOfFrom(raw, Fence, 0) == None;
    }
  }

  /** A reply with any text before its first fence and after the closing
      one, an optional `json` tag and whitespace after the opening fence,
      and a body without backquotes that does not start with whitespace,
      yields that body. When
      neither tag nor whitespace separates the fence from the body, a body
      starting with "json" would lose that word to the optional tag. */
  lemma {:induction false} FencedReply(pre: string, tag: string, ws: string, body: string, post: string)
    requires NoFenceBefore(pre)
    requires tag == "" || tag == "json"
    requires AllSpace(ws)
    requires '`' !in body && (body == [] || !IsSpace(body[0]))
    requires tag == "json" || ws != [] || !OccursAt(body, "json", 0)
    ensures FenceBody(pre + Fence + tag + ws + body + Fence + post) == Some(body)
  {
    var b, c := FenceSteps(pre, tag, ws, body, post);
    FenceBodyAt(FencedText(pre, tag, ws, body, post), |pre|, b, c, c + |body|, body);
  }

  /** No fence starts inside `pre`, even one running into a fence placed
      after it: the fence after `pre` is the first. */
  predicate NoFenceBefore(pre: string) {
    forall i :: 0 <= i < |pre| ==> !OccursAt(pre + Fence, Fence, i)
  }

  /** Every character of `ws` is whitespace. */
  predicate AllSpace(ws: string) {
    forall i :: 0 <= i < |ws| ==> IsSpace(ws[i])
  }

  /** A fenced reply: text, the opening fence, the tag, whitespace, the
      body, the closing fence and more text. */
  function FencedText(pre: string, tag: string, ws: string, body: string, post: string): string {
    pre + Fence + tag + ws + body + Fence + post
  }

  /** Where the pieces of a fenced reply start. */
  lemma {:induction false} FenceLayout(pre: string, tag: string, ws: string, body: string, post: string)
    returns (s: string, b: nat, c: nat)
    ensures s == pre + Fence + tag + ws + body + Fence + post
    ensures b == |pre| + 3 + |tag| && c == b + |ws|
    ensures |pre| + 3 <= |s| && s[..|pre| + 3] == pre + Fence
    ensures s[|pre| + 3..] == tag + (ws + (body + (Fence + post)))
    ensures b <= |s| && s[b..] == ws + (body + (Fence + post))
    ensures c <= |s| && s[c..] == body + (Fence + post)
  {
    var r2 := body + (Fence + post);
    var r1 := ws + r2;
    var r0 := tag + r1;
    s := (pre + Fence) + r0;
    Regroup(pre + Fence, tag, ws, body, Fence + post);
    b := |pre| + 3 + |tag|;
    c := b + |ws|;
    TailOf(pre + Fence, r0);
    TailOf(tag, r1);
    TailOf(ws, r2);
    assert s[b..] == r1 && s[c..] == r2;
  }

  /** The steps of FenceBody on a reply laid out as FenceLayout says. */
  lemma {:induction false} FenceSteps(pre: string, tag: string, ws: string, body: string, post: string)
    returns (b: nat, c: nat)
    requires NoFenceBefore(pre)
    requires tag == "" || tag == "json"
    requires AllSpace(ws)
    requires '`' !in body && (body == [] || !IsSpace(body[0]))
    requires tag == "json" || ws != [] || !OccursAt(body, "json", 0)
    ensures FenceFacts(FencedText(pre, tag, ws, body, post), |pre|, b, c, c + |body|, body)
  {
    var s;
    s, b, c := FenceLayout(pre, tag, ws, body, post);
    FirstFence(pre, s);
    OpeningSkipped(s, b, c, pre, tag, ws, body, post);
    ClosingFence(s, c, body, post);
  }

  /** After the opening fence, the tag and then the whitespace are skipped. */
  lemma {:induction false} OpeningSkipped(s: string, b: nat, c: nat, pre: string, tag: string, ws: string, body: string, post: string)
    requires tag == "" || tag == "json"
    requires AllSpace(ws)
    requires '`' !in body && (body == [] || !IsSpace(body[0]))
    requires tag == "json" || ws != [] || !OccursAt(body, "json", 0)
    requires b == |pre| + 3 + |tag| && c == b + |ws|
    requires |pre| + 3 <= |s| && s[|pre| + 3..] == tag + (ws + (body + (Fence + post)))
    requires b <= |s| && s[b..] == ws + (body + (Fence + post))
    ensures (if OccursAt(s, "json", |pre| + 3) then |pre| + 7 else |pre| + 3) == b
    ensures SkipSpaces(s, b) == c
  {
    TagSkipped(s, |pre|, tag, ws, body, Fence + post);
    SpacesSkipped(s, b, ws, body, Fence + post);
  }

  lemma {:induction false} Regroup(a: string, b: string, c: string, d: string, e: string)
    ensures a + b + c + d + e == a + (b + (c + (d + e)))
  {
    assert a + b + c + d + e == a + (b + c + d + e);
    assert b + c + d + e == b + (c + d + e);
    assert c + d + e == c + (d + e);
  }

  /** What follows the first `|a|` characters of `a + b` is `b`. */
  lemma {:induction false} TailOf(a: string, b: string)
    ensures (a + b)[|a|..] == b
  {}

  /** normalizeJson of such a reply works on the body alone. */
  lemma {:induction false} FencedReplyNormalized(pre: string, tag: string, ws: string, body: string, post: string)
    requires NoFenceBefore(pre)
    requires tag == "" || tag == "json"
    requires AllSpace(ws)
    requires '`' !in body && (body == [] || !IsSpace(body[0]))
    requires tag == "json" || ws != [] || !OccursAt(body, "json", 0)
    ensures NormalizeJson(pre + Fence + tag + ws + body + Fence + post) == BraceSlice(Trim(body))
  {
    FencedReply(pre, tag, ws, body, post);
  }

  /** FenceBody, given where the fences and the body are. */
  lemma {:induction false} FenceBodyAt(s: string, p: nat, b: nat, c: nat, q: nat, body: string)
    ensures FenceFacts(s, p, b, c, q, body) ==> FenceBody(s) == Some(body)
  {}

  /** The first fence is at `p`, the tag ends at `b`, the body runs from `c`
      to the closing fence at `q`. */
  predicate FenceFacts(s: string, p: nat, b: nat, c: nat, q: nat, body: string) {
    p + 3 <= b <= c <= q <= |s| && s[c..q] == body
    && IndexOfFrom(s, Fence, 0) == Some(p)
    && (if OccursAt(s, "json", p + 3) then p + 7 else p + 3) == b
    && SkipSpaces(s, b) == c
    && IndexOfFrom(s, Fence, c) == Some(q)
  }

  /** The first fence of `pre + Fence + rest` is the one after `pre`. */
  lemma {:induction false} FirstFence(pre: string, s: string)
    requires NoFenceBefore(pre)
    requires |pre| + 3 <= |s| && s[..|pre| + 3] == pre + Fence
    ensures IndexOfFrom(s, Fence, 0) == Some(|pre|)
  {
    var h := pre + Fence;
    forall i | 0 <= i < |pre| ensures !OccursAt(s, Fence, i) {
      assert !OccursAt(h, Fence, i);
      assert s[i..i + 3] == h[i..i + 3] by {
        assert s[..|h|][i..i + 3] == s[i..i + 3];
      }
    }
    assert s[|pre|..|pre| + 3] == h[|pre|..] == Fence;
    IndexOfFromAt(s, Fence, 0, |pre|);
  }

  /** The optional tag is taken exactly when it is there. */
  lemma {:induction false} TagSkipped(s: string, p: nat, tag: string, ws: string, body: string, rest: string)
    requires p + 3 <= |s| && s[p + 3..] == tag + (ws + (body + rest))
    requires tag == "" || tag == "json"
    requires ws == [] || IsSpace(ws[0])
    requires '`' !in body && rest != [] && rest[0] == '`'
    requires tag == "json" || ws != [] || !OccursAt(body, "json", 0)
    ensures (if OccursAt(s, "json", p + 3) then p + 7 else p + 3) == p + 3 + |tag|
  {
    var t := s[p + 3..];
    assert p + 7 <= |s| ==> s[p + 3..p + 7] == t[..4];
    if tag == "json" {
      assert t[..4] == "json";
    } else {
      NoTagAt(t, ws, body, rest);
    }
  }

  /** Whitespace, or a body not starting with "json" followed by a fence,
      does not begin with the tag. */
  lemma {:induction false} NoTagAt(t: string, ws: string, body: string, rest: string)
    requires t == ws + (body + rest)
    requires ws == [] || IsSpace(ws[0])
    requires '`' !in body && rest != [] && rest[0] == '`'
    requires ws != [] || !OccursAt(body, "json", 0)
    ensures !OccursAt(t, "json", 0)
  {
    if ws != [] {
      assert t[0] == ws[0];
    } else if |body| < 4 {
      assert t[|body|] == '`';
    } else {
      assert t[..4] == body[..4];
    }
  }

  /** The whitespace after the tag is skipped up to the body. */
  lemma {:induction false} SpacesSkipped(s: string, b: nat, ws: string, body: string, rest: string)
    requires b <= |s| && s[b..] == ws + (body + rest)
    requires AllSpace(ws)
    requires body == [] || !IsSpace(body[0])
    requires rest != [] && rest[0] == '`'
    ensures SkipSpaces(s, b) == b + |ws|
  {
    var t := s[b..];
    forall j | b <= j < b + |ws| ensures IsSpace(s[j]) {
      assert s[j] == t[j - b] == ws[j - b];
    }
    assert s[b + |ws|] == t[|ws|];
    SkipSpacesTo(s, b, b + |ws|);
  }

  lemma {:induction false} SkipSpacesTo(s: string, i: nat, k: nat)
    requires i <= k < |s| && !IsSpace(s[k])
    requires forall j :: i <= j < k ==> IsSpace(s[j])
    ensures SkipSpaces(s, i) == k
    decreases k - i
  {
    if i < k {
      SkipSpacesTo(s, i + 1, k);
    }
  }

  /** The closing fence is the first one after the body, which holds no
      backquote. */
  lemma {:induction false} ClosingFence(s: string, c: nat, body: string, post: string)
    requires c <= |s| && s[c..] == body + (Fence + post)
    requires '`' !in body
    ensures IndexOfFrom(s, Fence, c) == Some(c + |body|) && s[c..c + |body|] == body
  {
    var t := s[c..];
    var q := c + |body|;
    forall i | c <= i < q ensures !OccursAt(s, Fence, i) {
      assert s[i] == t[i - c] == body[i - c];
    }
    assert s[q..q + 3] == t[|body|..|body| + 3] == Fence;
    assert s[c..q] == t[..|body|] == body;
    IndexOfFromAt(s, Fence, c, q);
  }

  /** `indexOf` from `from` finds `k` when the pattern occurs there and
      nowhere between. */
  lemma {:induction false} IndexOfFromAt(s: string, pat: string, from: nat, k: nat)
    requires from <= k && OccursAt(s, pat, k)
    requires forall i :: from <= i < k ==> !OccursAt(s, pat, i)
    ensures IndexOfFrom(s, pat, from) == Some(k)
    decreases k - from
  {
    if from < k {
      IndexOfFromAt(s, pat, from + 1, k);
    }
  }
}
