/** The JavaScript string builtins the application relies on, on strings of
    UTF-16 code units (one `char` per unit): `trim`, `replace(/\s+/g, ' ')`,
    `split`, `join`, `indexOf`, `includes`, `startsWith`, `endsWith`,
    `toLowerCase` and the decimal rendering of a non-negative integer. */
module Strings {
  import opened Results

  /** JavaScript's `\s`, which is also the set that `String.prototype.trim`
      strips: the ECMAScript WhiteSpace and LineTerminator code points, that
      is U+0009 to U+000D, U+0020, U+00A0, U+1680, U+2000 to U+200A, U+2028,
      U+2029, U+202F, U+205F, U+3000 and U+FEFF. */
  predicate IsSpace(c: char) {
    ('\t' <= c <= '\r') || c == ' ' || c == '\U{00A0}' || c == '\U{1680}'
    || ('\U{2000}' <= c <= '\U{200A}') || c == '\U{2028}' || c == '\U{2029}'
    || c == '\U{202F}' || c == '\U{205F}' || c == '\U{3000}' || c == '\U{FEFF}'
  }

  // ---------------------------------------------------------------------------
  // trim

  /** Drops the maximal run of leading whitespace. */
  function TrimStart(s: string): (r: string)
    ensures |r| <= |s| && r == s[|s| - |r|..]
    decreases |s|
  {
    if s != [] && IsSpace(s[0]) then TrimStart(s[1..]) else s
  }

  /** What `TrimStart` drops is whitespace, and what it keeps does not start
      with whitespace. */
  lemma {:induction false} TrimStartSpaces(s: string)
    ensures TrimStart(s) == [] || !IsSpace(TrimStart(s)[0])
    ensures forall i :: 0 <= i < |s| - |TrimStart(s)| ==> IsSpace(s[i])
    decreases |s|
  {
    if s != [] && IsSpace(s[0]) {
      TrimStartSpaces(s[1..]);
      forall i | 1 <= i < |s| - |TrimStart(s)|
        ensures IsSpace(s[i])
      {
        assert s[i] == s[1..][i - 1];
      }
    }
  }

  /** Drops the maximal run of trailing whitespace. */
  function TrimEnd(s: string): (r: string)
    ensures |r| <= |s| && r == s[..|r|]
    decreases |s|
  {
    if s != [] && IsSpace(s[|s| - 1]) then TrimEnd(s[..|s| - 1]) else s
  }

  /** What `TrimEnd` drops is whitespace, and what it keeps does not end
      with whitespace. */
  lemma {:induction false} TrimEndSpaces(s: string)
    ensures TrimEnd(s) == [] || !IsSpace(TrimEnd(s)[|TrimEnd(s)| - 1])
    ensures forall i :: |TrimEnd(s)| <= i < |s| ==> IsSpace(s[i])
    decreases |s|
  {
    if s != [] && IsSpace(s[|s| - 1]) {
      TrimEndSpaces(s[..|s| - 1]);
      forall i | |TrimEnd(s)| <= i < |s| - 1
        ensures IsSpace(s[i])
      {
        assert s[i] == s[..|s| - 1][i];
      }
    }
  }

  /** Trailing whitespace is dropped. */
  lemma {:induction false} TrimEndSpaceSuffix(s: string, c: char)
    requires IsSpace(c)
    ensures TrimEnd(s + [c]) == TrimEnd(s)
  {
    assert (s + [c])[..|s|] == s;
  }

  predicate IsTrimmed(s: string) {
    s == [] || (!IsSpace(s[0]) && !IsSpace(s[|s| - 1]))
  }

  /** `String.prototype.trim` */
  function Trim(s: string): (r: string)
    ensures IsTrimmed(r)
    ensures |r| <= |s|
  {
    TrimStartSpaces(s);
    TrimEndSpaces(TrimStart(s));
    TrimEnd(TrimStart(s))
  }

  /** A trimmed string is left alone, so trimming twice is trimming once. */
  lemma {:induction false} TrimOfTrimmed(s: string)
    requires IsTrimmed(s)
    ensures Trim(s) == s
  {
    assert TrimStart(s) == s;
  }

  lemma {:induction false} TrimIdempotent(s: string)
    ensures Trim(Trim(s)) == Trim(s)
  {
    TrimOfTrimmed(Trim(s));
  }

  /** `s` consists of whitespace only. */
  predicate Blank(s: string) {
    forall i :: 0 <= i < |s| ==> IsSpace(s[i])
  }

  /** A string trims to "" exactly when it consists of whitespace only. */
  lemma {:induction false} TrimEmptyIffBlank(s: string)
    ensures Trim(s) == [] <==> Blank(s)
  {
    var t := TrimStart(s);
    TrimStartSpaces(s);
    TrimEndSpaces(t);
    if t != [] {
      assert !IsSpace(t[0]);
      assert TrimEnd(t) != [];
      assert !IsSpace(s[|s| - |t|]);
    }
  }

  // ---------------------------------------------------------------------------
  // replace(/\s+/g, ' ')

  /** Every space of `s` is a plain ' ', and no two spaces are adjacent. */
  predicate PlainSpacing(s: string)
    decreases |s|
  {
    s == []
    || ((IsSpace(s[0]) ==> s[0] == ' ' && (|s| == 1 || !IsSpace(s[1]))) && PlainSpacing(s[1..]))
  }

  /** `s.replace(/\s+/g, ' ')`: every maximal run of whitespace (the regular
      expression is greedy) becomes a single ' '. */
  function Collapse(s: string): (r: string)
    ensures |r| <= |s|
    ensures (r == []) == (s == [])
    ensures s != [] ==> (IsSpace(r[0]) <==> IsSpace(s[0]))
    decreases |s|
  {
    if s == [] then []
    else if IsSpace(s[0]) then TrimStartSpaces(s); [' '] + Collapse(TrimStart(s))
    else [s[0]] + Collapse(s[1..])
  }

  lemma {:induction false} PlainSpacingCons(c: char, t: string)
    requires PlainSpacing(t)
    requires IsSpace(c) ==> c == ' ' && (t == [] || !IsSpace(t[0]))
    ensures PlainSpacing([c] + t)
  {
    assert ([c] + t)[1..] == t;
  }

  /** After `replace(/\s+/g, ' ')` the only whitespace is single ' '. */
  lemma {:induction false} CollapsePlain(s: string)
    ensures PlainSpacing(Collapse(s))
    decreases |s|
  {
    if s != [] {
      if IsSpace(s[0]) {
        TrimStartSpaces(s);
        CollapsePlain(TrimStart(s));
        PlainSpacingCons(' ', Collapse(TrimStart(s)));
      } else {
        CollapsePlain(s[1..]);
        PlainSpacingCons(s[0], Collapse(s[1..]));
      }
    }
  }

  lemma {:induction false} PlainSpacingDrop(s: string, k: nat)
    requires PlainSpacing(s) && k <= |s|
    ensures PlainSpacing(s[k..])
  {
    if k > 0 {
      PlainSpacingDrop(s[1..], k - 1);
      assert s[1..][k - 1..] == s[k..];
    }
  }

  lemma {:induction false} PlainSpacingTake(s: string, k: nat)
    requires PlainSpacing(s) && k <= |s|
    ensures PlainSpacing(s[..k])
  {
    if k > 0 {
      var t := s[1..][..k - 1];
      PlainSpacingTake(s[1..], k - 1);
      assert s[..k] == [s[0]] + t;
      assert t != [] ==> t[0] == s[1];
      PlainSpacingCons(s[0], t);
    }
  }

  lemma {:induction false} PlainSpacingSlice(s: string, i: nat, j: nat, t: string)
    requires PlainSpacing(s) && i <= j <= |s| && t == s[i..j]
    ensures PlainSpacing(t)
  {
    PlainSpacingDrop(s, i);
    PlainSpacingTake(s[i..], j - i);
    assert s[i..][..j - i] == s[i..j];
  }

  /** A space at `k` is a plain ' ' and the next character is no space. */
  lemma {:induction false} PlainSpacingAt(s: string, k: nat)
    requires PlainSpacing(s) && k < |s| && IsSpace(s[k])
    ensures s[k] == ' ' && (k + 1 < |s| ==> !IsSpace(s[k + 1]))
  {
    PlainSpacingDrop(s, k);
    var t := s[k..];
    assert t[0] == s[k] && (k + 1 < |s| ==> t[1] == s[k + 1]);
  }

  // ---------------------------------------------------------------------------
  // Words: the maximal runs of non-whitespace characters of a string

  /** The length of the leading run of non-whitespace characters. */
  function WordEnd(s: string): (n: nat)
    ensures n <= |s|
    ensures n == |s| || IsSpace(s[n])
    ensures s != [] && !IsSpace(s[0]) ==> n >= 1
  {
    if s == [] || IsSpace(s[0]) then 0 else 1 + WordEnd(s[1..])
  }

  function Words(s: string): seq<string>
    decreases |s|
  {
    if s == [] then []
    else if IsSpace(s[0]) then Words(s[1..])
    else var n := WordEnd(s); [s[..n]] + Words(s[n..])
  }

  /** The words of all the strings of `ts`, in order. */
  function AllWords(ts: seq<string>): seq<string> {
    if ts == [] then [] else Words(ts[0]) + AllWords(ts[1..])
  }

  lemma {:induction false} WordsEmpty()
    ensures Words([]) == []
  {}

  lemma {:induction false} WordEndAppend(a: string, t: string)
    requires WordEnd(a) < |a| || (t != [] && IsSpace(t[0]))
    ensures WordEnd(a + t) == WordEnd(a)
    decreases |a|
  {
    if a != [] && !IsSpace(a[0]) {
      assert (a + t)[1..] == a[1..] + t;
      WordEndAppend(a[1..], t);
    }
  }

  /** A whitespace character separates the words on either side of it. */
  lemma {:induction false} WordsSpaceSplit(a: string, c: char, b: string)
    requires IsSpace(c)
    ensures Words(a + [c] + b) == Words(a) + Words(b)
  {
    WordsAppendSpace(a, [c] + b);
    assert a + [c] + b == a + ([c] + b);
    assert Words([c] + b) == Words(b) by {
      assert ([c] + b)[1..] == b;
    }
  }

  /** The words of `a + t`, for `t` starting with whitespace, are those of
      `a` followed by those of `t`. */
  lemma {:induction false} WordsAppendSpace(a: string, t: string)
    requires t != [] && IsSpace(t[0])
    ensures Words(a + t) == Words(a) + Words(t)
    decreases |a|
  {
    if a == [] {
      assert a + t == t;
    } else if IsSpace(a[0]) {
      assert (a + t)[1..] == a[1..] + t;
      WordsAppendSpace(a[1..], t);
    } else {
      WordsAppendSpace(a[WordEnd(a)..], t);
      WordsAppendWordStep(a, t);
    }
  }

  /** The step of `WordsAppendSpace` past the first word of `a`. */
  lemma {:induction false} WordsAppendWordStep(a: string, t: string)
    requires t != [] && IsSpace(t[0]) && a != [] && !IsSpace(a[0])
    requires Words(a[WordEnd(a)..] + t) == Words(a[WordEnd(a)..]) + Words(t)
    ensures Words(a + t) == Words(a) + Words(t)
  {
    var x, z := FirstWordAppend(a, t);
    PrependWord(Words(a + t), Words(a), Words(z + t), Words(z), Words(t), x);
  }

  /** Appending text that starts with whitespace leaves the first word of
      `a` in place. */
  lemma {:induction false} FirstWordAppend(a: string, t: string) returns (x: string, z: string)
    requires t != [] && IsSpace(t[0]) && a != [] && !IsSpace(a[0])
    ensures z == a[WordEnd(a)..]
    ensures Words(a + t) == [x] + Words(z + t) && Words(a) == [x] + Words(z)
  {
    var n := WordEnd(a);
    var s := a + t;
    WordEndAppend(a, t);
    var x', y := FirstWordOf(s);
    x, z := FirstWordOf(a);
    assert s[..n] == x;
    assert s[n..] == z + t;
  }

  /** The first word of a string that starts with one, and what follows it. */
  lemma {:induction false} FirstWordOf(s: string) returns (x: string, y: string)
    requires s != [] && !IsSpace(s[0])
    ensures x == s[..WordEnd(s)] && y == s[WordEnd(s)..]
    ensures Words(s) == [x] + Words(y)
  {
    WordsSplitFirst(s);
    x := s[..WordEnd(s)];
    y := s[WordEnd(s)..];
  }

  lemma {:induction false} PrependWord(ws: seq<string>, wa: seq<string>, wy: seq<string>, wz: seq<string>, wt: seq<string>, x: string)
    requires ws == [x] + wy && wa == [x] + wz && wy == wz + wt
    ensures ws == wa + wt
  {}

  lemma {:induction false} WordsTrimStart(s: string)
    ensures Words(TrimStart(s)) == Words(s)
    decreases |s|
  {
    if s != [] && IsSpace(s[0]) {
      WordsTrimStart(s[1..]);
    }
  }

  lemma {:induction false} WordsTrimEnd(s: string)
    ensures Words(TrimEnd(s)) == Words(s)
    decreases |s|
  {
    if s != [] && IsSpace(s[|s| - 1]) {
      var p := s[..|s| - 1];
      assert s == p + [s[|s| - 1]] + [];
      WordsSpaceSplit(p, s[|s| - 1], []);
      WordsTrimEnd(p);
    }
  }

  /** Trimming keeps every word. */
  lemma {:induction false} WordsTrim(s: string)
    ensures Words(Trim(s)) == Words(s)
  {
    WordsTrimStart(s);
    WordsTrimEnd(TrimStart(s));
  }

  /** The words of a string that starts with the non-space `x`. */
  lemma {:induction false} WordsPrepend(x: char, t: string)
    requires !IsSpace(x)
    ensures t == [] || IsSpace(t[0]) ==> Words([x] + t) == [[x]] + Words(t)
    ensures t != [] && !IsSpace(t[0]) ==>
      Words(t) != [] && Words([x] + t) == [[x] + Words(t)[0]] + Words(t)[1..]
  {
    var s := [x] + t;
    var m := WordEnd(t);
    WordEndCons(x, t);
    WordsSplitFirst(s);
    assert s[..1 + m] == [x] + t[..m];
    assert s[1 + m..] == t[m..];
    if t != [] && !IsSpace(t[0]) {
      WordsSplitFirst(t);
    } else {
      assert m == 0 && t[..m] == [] && t[m..] == t;
    }
  }

  lemma {:induction false} WordEndCons(x: char, t: string)
    requires !IsSpace(x)
    ensures WordEnd([x] + t) == 1 + WordEnd(t)
  {
    assert ([x] + t)[0] == x && ([x] + t)[1..] == t;
  }

  /** A string that starts with a word: that word, then the words of the
      rest. */
  lemma {:induction false} WordsSplitFirst(s: string)
    requires s != [] && !IsSpace(s[0])
    ensures Words(s) == [s[..WordEnd(s)]] + Words(s[WordEnd(s)..])
  {}

  /** A string that does not trim to "" has a word. */
  lemma {:induction false} WordsOfNonBlank(s: string)
    requires Trim(s) != []
    ensures Words(s) != []
  {
    WordsTrim(s);
    var u := Trim(s);
    assert !IsSpace(u[0]);
  }

  lemma {:induction false} AllWordsNonEmpty(ts: seq<string>, i: nat)
    requires i < |ts| && Words(ts[i]) != []
    ensures AllWords(ts) != []
  {
    if i > 0 {
      AllWordsNonEmpty(ts[1..], i - 1);
    }
  }

  /** Collapsing whitespace keeps every word. */
  lemma {:induction false} WordsCollapse(s: string)
    ensures Words(Collapse(s)) == Words(s)
    decreases |s|
  {
    if s == [] {
    } else if IsSpace(s[0]) {
      var t := TrimStart(s);
      WordsCollapse(t);
      WordsTrimStart(s);
      assert ([' '] + Collapse(t))[1..] == Collapse(t);
    } else {
      var t := s[1..];
      WordsCollapse(t);
      WordsPrepend(s[0], t);
      WordsPrepend(s[0], Collapse(t));
      assert s == [s[0]] + t;
    }
  }

  // ---------------------------------------------------------------------------
  // join and split

  /** `ts.join(sep)` */
  function Join(ts: seq<string>, sep: string): (r: string)
    ensures ts == [] ==> r == []
  {
    if |ts| == 0 then []
    else if |ts| == 1 then ts[0]
    else ts[0] + sep + Join(ts[1..], sep)
  }

  /** Joining with one space keeps the words of every part, in order. */
  lemma {:induction false} WordsJoin(ts: seq<string>)
    ensures Words(Join(ts, " ")) == AllWords(ts)
  {
    if |ts| == 0 {
    } else if |ts| == 1 {
      assert AllWords(ts[1..]) == [];
    } else {
      WordsJoin(ts[1..]);
      assert Join(ts, " ") == ts[0] + [' '] + Join(ts[1..], " ");
      WordsSpaceSplit(ts[0], ' ', Join(ts[1..], " "));
    }
  }

  /** A trimmed string in which every space is a single ' ' is exactly its
      words joined by ' '. */
  lemma {:induction false} CanonicalSpacing(s: string)
    requires IsTrimmed(s) && PlainSpacing(s)
    ensures s == Join(Words(s), " ")
    decreases |s|
  {
    if s != [] {
      var n := WordEnd(s);
      if n == |s| {
        assert s[..n] == s && s[n..] == [];
      } else {
        var w, u := s[..n], s[n + 1..];
        assert IsTrimmed(u) && PlainSpacing(u) && s == w + " " + u by {
          CanonicalTail(s);
        }
        assert Words(s) == [w] + Words(u) && Words(u) != [] by {
          CanonicalTailWords(s);
        }
        CanonicalSpacing(u);
        JoinCons(w, Words(u), " ");
      }
    }
  }

  /** After the first word of a canonically spaced string come one ' ' and
      another canonically spaced string... */
  lemma {:induction false} CanonicalTail(s: string)
    requires IsTrimmed(s) && PlainSpacing(s) && s != [] && WordEnd(s) < |s|
    ensures WordEnd(s) + 1 < |s| && s[WordEnd(s)] == ' '
    ensures IsTrimmed(s[WordEnd(s) + 1..]) && PlainSpacing(s[WordEnd(s) + 1..])
  {
    var n := WordEnd(s);
    SpaceAfterWord(s);
    var u := s[n + 1..];
    assert u[0] == s[n + 1] && u[|u| - 1] == s[|s| - 1];
    PlainSpacingDrop(s, n + 1);
  }

  /** ...that holds the remaining words. */
  lemma {:induction false} CanonicalTailWords(s: string)
    requires IsTrimmed(s) && PlainSpacing(s) && s != [] && WordEnd(s) < |s|
    ensures Words(s) == [s[..WordEnd(s)]] + Words(s[WordEnd(s) + 1..])
    ensures Words(s[WordEnd(s) + 1..]) != []
  {
    SpaceAfterWord(s);
    WordsAfterFirst(s);
    WordsOfWordStart(s[WordEnd(s) + 1..]);
  }

  lemma {:induction false} WordsAfterFirst(s: string)
    requires s != [] && !IsSpace(s[0]) && WordEnd(s) < |s|
    ensures Words(s) == [s[..WordEnd(s)]] + Words(s[WordEnd(s) + 1..])
  {
    WordsSplitFirst(s);
    WordsAfterSpace(s, WordEnd(s));
  }

  lemma {:induction false} SpaceAfterWord(s: string)
    requires IsTrimmed(s) && PlainSpacing(s) && s != [] && WordEnd(s) < |s|
    ensures WordEnd(s) + 1 < |s| && s[WordEnd(s)] == ' ' && !IsSpace(s[WordEnd(s) + 1])
  {
    var n := WordEnd(s);
    assert IsSpace(s[n]);
    assert n != |s| - 1;
    PlainSpacingAt(s, n);
  }

  /** The words after a whitespace character at `n` are those after `n`. */
  lemma {:induction false} WordsAfterSpace(s: string, n: nat)
    requires n < |s| && IsSpace(s[n])
    ensures Words(s[n..]) == Words(s[n + 1..])
  {
    assert s[n..][0] == s[n] && s[n..][1..] == s[n + 1..];
  }

  lemma {:induction false} WordsOfWordStart(u: string)
    requires u != [] && !IsSpace(u[0])
    ensures Words(u) != []
  {}

  lemma {:induction false} JoinCons(t: string, ts: seq<string>, sep: string)
    requires ts != []
    ensures Join([t] + ts, sep) == t + sep + Join(ts, sep)
  {
    assert ([t] + ts)[0] == t && ([t] + ts)[1..] == ts;
  }

  /** `s.replace(/\s+/g, ' ').trim()` is the words of `s` joined by single
      plain spaces, so it holds no other whitespace, line breaks included. */
  lemma {:induction false} CollapseTrim(s: string)
    ensures Trim(Collapse(s)) == Join(Words(s), " ")
    ensures Words(Trim(Collapse(s))) == Words(s)
    ensures IsTrimmed(Trim(Collapse(s))) && PlainSpacing(Trim(Collapse(s)))
  {
    var c := Collapse(s);
    CollapsePlain(s);
    WordsCollapse(s);
    WordsTrim(c);
    TrimKeepsPlainSpacing(c);
    CanonicalSpacing(Trim(c));
  }

  /** Trimming keeps plain spacing. */
  lemma {:induction false} TrimKeepsPlainSpacing(s: string)
    requires PlainSpacing(s)
    ensures PlainSpacing(Trim(s))
  {
    var a, b := TrimSlice(s);
    PlainSpacingSlice(s, a, b, Trim(s));
  }

  /** With plain spacing the only whitespace is ' ', so there is no line
      break. */
  lemma {:induction false} PlainSpacingNoBreak(s: string)
    requires PlainSpacing(s)
    ensures '\n' !in s
  {
    if s != [] {
      PlainSpacingNoBreak(s[1..]);
      assert IsSpace('\n');
      assert s == [s[0]] + s[1..];
    }
  }

  /** What `trim` keeps is one contiguous slice, `s[a..b]`. */
  lemma {:induction false} TrimSlice(s: string) returns (a: nat, b: nat)
    ensures a <= b <= |s| && Trim(s) == s[a..b]
  {
    var u := TrimStart(s);
    var t := TrimEnd(u);
    a := |s| - |u|;
    b := a + |t|;
    assert Trim(s) == t;
    assert t == u[..|t|] && u == s[a..];
    assert u[..|t|] == s[a..b];
  }

  /** The first index of `c` in `s`, or -1: `s.indexOf(c)`. */
  function IndexOf(s: string, c: char): (r: int)
    ensures -1 <= r < |s|
    ensures r >= 0 ==> s[r] == c
  {
    if s == [] then -1
    else if s[0] == c then 0
    else var k := IndexOf(s[1..], c); if k < 0 then -1 else k + 1
  }

  /** `indexOf` finds the first occurrence, and -1 means there is none. */
  lemma {:induction false} IndexOfFirst(s: string, c: char)
    ensures IndexOf(s, c) >= 0 ==> c !in s[..IndexOf(s, c)]
    ensures IndexOf(s, c) == -1 <==> c !in s
  {
    if s != [] && s[0] != c {
      IndexOfFirst(s[1..], c);
      assert s == [s[0]] + s[1..];
      var k := IndexOf(s[1..], c);
      if k >= 0 {
        assert s[..k + 1] == [s[0]] + s[1..][..k];
      }
    }
  }

  /** The last index of `c` in `s`, or -1: `s.lastIndexOf(c)`. */
  function LastIndexOf(s: string, c: char): (r: int)
    ensures -1 <= r < |s|
    ensures r >= 0 ==> s[r] == c
  {
    if s == [] then -1
    else if s[|s| - 1] == c then |s| - 1
    else LastIndexOf(s[..|s| - 1], c)
  }

  /** `lastIndexOf` finds the last occurrence, and -1 means there is none. */
  lemma {:induction false} LastIndexOfLast(s: string, c: char)
    ensures LastIndexOf(s, c) >= 0 ==> c !in s[LastIndexOf(s, c) + 1..]
    ensures LastIndexOf(s, c) == -1 <==> c !in s
  {
    if s != [] && s[|s| - 1] != c {
      var p := s[..|s| - 1];
      LastIndexOfLast(p, c);
      LastIndexOfStep(s, c);
    }
  }

  lemma {:induction false} LastIndexOfStep(s: string, c: char)
    requires s != [] && s[|s| - 1] != c
    ensures c in s <==> c in s[..|s| - 1]
    ensures LastIndexOf(s, c) == LastIndexOf(s[..|s| - 1], c)
    ensures LastIndexOf(s, c) >= 0 ==>
      s[LastIndexOf(s, c) + 1..] == s[..|s| - 1][LastIndexOf(s, c) + 1..] + [s[|s| - 1]]
  {
    assert s == s[..|s| - 1] + [s[|s| - 1]];
  }

  function Split(s: string, sep: char): (r: seq<string>)
    ensures |r| >= 1
    decreases |s|
  {
    var k := IndexOf(s, sep);
    if k < 0 then [s] else [s[..k]] + Split(s[k + 1..], sep)
  }

  /** No part of a split holds the separator. */
  lemma {:induction false} SplitPartsLackSep(s: string, sep: char)
    ensures forall i :: 0 <= i < |Split(s, sep)| ==> sep !in Split(s, sep)[i]
    decreases |s|
  {
    var k := IndexOf(s, sep);
    if k < 0 {
      assert sep !in s by {
        IndexOfFirst(s, sep);
      }
    } else {
      assert sep !in s[..k] by {
        IndexOfFirst(s, sep);
      }
      var rest := Split(s[k + 1..], sep);
      SplitPartsLackSep(s[k + 1..], sep);
      SplitConsParts(s[..k], rest, sep);
    }
  }

  lemma {:induction false} SplitConsParts(t: string, rest: seq<string>, sep: char)
    requires sep !in t
    requires forall i :: 0 <= i < |rest| ==> sep !in rest[i]
    ensures forall i :: 0 <= i < |[t] + rest| ==> sep !in ([t] + rest)[i]
  {
    forall i | 0 <= i < |[t] + rest|
      ensures sep !in ([t] + rest)[i]
    {
      if i > 0 {
        assert ([t] + rest)[i] == rest[i - 1];
      }
    }
  }

  /** The first part of a split is the text before the first separator,
      or all of `s` when there is none. */
  lemma {:induction false} SplitFirst(s: string, sep: char)
    ensures sep !in Split(s, sep)[0]
    ensures sep !in s ==> Split(s, sep)[0] == s
    ensures sep in s ==>
      0 <= IndexOf(s, sep) && sep !in s[..IndexOf(s, sep)] && Split(s, sep)[0] == s[..IndexOf(s, sep)]
  {
    IndexOfFirst(s, sep);
  }

  /** `s.split(sep).pop()` */
  function LastPart(s: string, sep: char): string {
    var parts := Split(s, sep);
    parts[|parts| - 1]
  }

  /** The text `t` is what follows the last `sep` of `s`, or all of `s`
      when `s` holds no `sep`. */
  predicate AfterLastSep(s: string, sep: char, t: string) {
    |t| <= |s| && t == s[|s| - |t|..] && sep !in t
    && (|t| == |s| <==> sep !in s)
    && (|t| < |s| ==> s[|s| - |t| - 1] == sep)
  }

  /** The last part of a split is the text after the last separator, or
      the whole string when there is none. */
  lemma {:induction false} SplitLast(s: string, sep: char)
    ensures AfterLastSep(s, sep, LastPart(s, sep))
    decreases |s|
  {
    var k := IndexOf(s, sep);
    if k < 0 {
      assert sep !in s by {
        IndexOfFirst(s, sep);
      }
      assert LastPart(s, sep) == s;
    } else {
      SplitLast(s[k + 1..], sep);
      SplitLastStep(s, sep);
    }
  }

  lemma {:induction false} SplitLastStep(s: string, sep: char)
    requires IndexOf(s, sep) >= 0
    requires AfterLastSep(s[IndexOf(s, sep) + 1..], sep, LastPart(s[IndexOf(s, sep) + 1..], sep))
    ensures AfterLastSep(s, sep, LastPart(s, sep))
  {
    var k := IndexOf(s, sep);
    var u := s[k + 1..];
    var t := LastPart(u, sep);
    assert LastPart(s, sep) == t by {
      LastPartStep(s, sep);
    }
    assert |u| == |s| - k - 1;
    assert s[|s| - |t|..] == u[|u| - |t|..];
    var j := |s| - |t| - 1;
    if |t| < |u| {
      var m := |u| - |t| - 1;
      assert u[m] == sep;
      assert u[m] == s[k + 1 + m];
      assert j == k + 1 + m;
    } else {
      assert j == k;
    }
    assert s[k] == sep;
    assert sep in s;
    assert |t| < |s|;
    assert sep !in t;
    assert t == s[|s| - |t|..];
    assert s[j] == sep;
    assert AfterLastSep(s, sep, t);
  }

  lemma {:induction false} LastPartStep(s: string, sep: char)
    requires IndexOf(s, sep) >= 0
    ensures LastPart(s, sep) == LastPart(s[IndexOf(s, sep) + 1..], sep)
  {
    var k := IndexOf(s, sep);
    var r := Split(s[k + 1..], sep);
    var p := Split(s, sep);
    assert p == [s[..k]] + r;
    assert |p| == |r| + 1;
    assert p[|p| - 1] == r[|r| - 1];
    assert LastPart(s, sep) == p[|p| - 1];
    assert LastPart(s[k + 1..], sep) == r[|r| - 1];
  }

  lemma {:induction false} IndexOfAt(s: string, c: char, j: nat)
    requires j < |s| && s[j] == c && c !in s[..j]
    ensures IndexOf(s, c) == j
  {
    if j > 0 {
      assert s[0] == s[..j][0];
      assert s[1..][..j - 1] == s[..j][1..];
      IndexOfAt(s[1..], c, j - 1);
    }
  }

  /** Splitting undoes joining when no part holds the separator. */
  lemma {:induction false} SplitJoin(ts: seq<string>, sep: char)
    requires |ts| >= 1
    requires forall i :: 0 <= i < |ts| ==> sep !in ts[i]
    ensures Split(Join(ts, [sep]), sep) == ts
  {
    if |ts| > 1 {
      var rest := Join(ts[1..], [sep]);
      var s := ts[0] + [sep] + rest;
      assert s[..|ts[0]|] == ts[0];
      assert s[|ts[0]|] == sep;
      IndexOfAt(s, sep, |ts[0]|);
      assert s[|ts[0]| + 1..] == rest;
      SplitJoin(ts[1..], sep);
    }
  }

  lemma {:induction false} JoinSplitStep(s: string, sep: char)
    requires IndexOf(s, sep) >= 0
    ensures var k := IndexOf(s, sep);
      Join(Split(s, sep), [sep]) == s[..k] + [sep] + Join(Split(s[k + 1..], sep), [sep])
      && s == s[..k] + [sep] + s[k + 1..]
  {
    var k := IndexOf(s, sep);
    JoinCons(s[..k], Split(s[k + 1..], sep), [sep]);
  }

  /** Joining undoes splitting. */
  lemma {:induction false} JoinSplit(s: string, sep: char)
    ensures Join(Split(s, sep), [sep]) == s
    decreases |s|
  {
    var k := IndexOf(s, sep);
    if k >= 0 {
      JoinSplit(s[k + 1..], sep);
      JoinSplitStep(s, sep);
    }
  }

  // ---------------------------------------------------------------------------
  // searching

  predicate OccursAt(s: string, pat: string, i: int) {
    0 <= i && i + |pat| <= |s| && s[i..i + |pat|] == pat
  }

  /** `s.indexOf(pat, from)`, as an option. */
  function IndexOfFrom(s: string, pat: string, from: nat): (r: Option<nat>)
    ensures r.Some? ==> from <= r.value && OccursAt(s, pat, r.value)
    ensures r.Some? ==> forall i :: from <= i < r.value ==> !OccursAt(s, pat, i)
    ensures r.None? ==> forall i :: from <= i ==> !OccursAt(s, pat, i)
    decreases |s| - from
  {
    if from + |pat| > |s| then None
    else if s[from..from + |pat|] == pat then Some(from)
    else IndexOfFrom(s, pat, from + 1)
  }

  /** `s.includes(pat)` */
  predicate Contains(s: string, pat: string) {
    exists i | 0 <= i <= |s| - |pat| :: OccursAt(s, pat, i)
  }

  /** `includes` holds exactly when `indexOf` finds an occurrence. */
  lemma {:induction false} ContainsIndexOf(s: string, pat: string)
    ensures Contains(s, pat) <==> IndexOfFrom(s, pat, 0).Some?
  {}

  /** A slice in which no occurrence starts holds no occurrence. */
  lemma {:induction false} NotInSlice(s: string, pat: string, start: nat, q: nat)
    requires pat != [] && start <= q <= |s|
    requires forall i :: start <= i < q ==> !OccursAt(s, pat, i)
    ensures forall i :: !OccursAt(s[start..q], pat, i)
  {
    var t := s[start..q];
    forall i | OccursAt(t, pat, i) ensures false {
      var w := s[start + i..start + i + |pat|];
      forall k | 0 <= k < |pat| ensures w[k] == pat[k] {
        assert pat[k] == t[i..i + |pat|][k] == t[i + k];
      }
      assert w == pat;
      assert OccursAt(s, pat, start + i);
    }
  }

  /** `s.startsWith(p)` */
  predicate StartsWith(s: string, p: string) {
    |p| <= |s| && s[..|p|] == p
  }

  /** A prefix stays a prefix when text is appended. */
  lemma {:induction false} StartsWithAppend(s: string, p: string, t: string)
    requires StartsWith(s, p)
    ensures StartsWith(s + t, p)
  {
    assert (s + t)[..|p|] == s[..|p|];
  }

  /** `s.endsWith(p)` */
  predicate EndsWith(s: string, p: string) {
    |p| <= |s| && s[|s| - |p|..] == p
  }

  /** A suffix stays a suffix when text is prepended. */
  lemma {:induction false} EndsWithAppend(s: string, t: string, p: string)
    requires EndsWith(t, p)
    ensures EndsWith(s + t, p)
  {
    assert (s + t)[|s + t| - |p|..] == t[|t| - |p|..];
  }

  /** What `p` holds between a leading `head` and a trailing `tail`, if it
      starts and ends with them. */
  function Between(p: string, head: string, tail: string): (r: Option<string>)
    ensures r.Some? ==> head + r.value + tail == p
  {
    if |head| + |tail| <= |p| && StartsWith(p, head) && EndsWith(p, tail) then
      var x := p[|head|..|p| - |tail|];
      assert p == p[..|head|] + x + p[|p| - |tail|..];
      Some(x)
    else None
  }

  /** Wrapping `x` in `head` and `tail` and taking it out again gives `x`. */
  lemma {:induction false} BetweenWrapped(head: string, x: string, tail: string)
    ensures Between(head + x + tail, head, tail) == Some(x)
  {
    var p := head + x + tail;
    assert p[..|head|] == head;
    assert p[|p| - |tail|..] == tail;
    assert p[|head|..|p| - |tail|] == x;
  }

  // ---------------------------------------------------------------------------
  // toLowerCase, as far as matching ASCII text goes

  /** The lower case of a code unit, for the units whose lower case is an
      ASCII character: the letters A to Z and the Kelvin sign U+212A, whose
      lower case is 'k'. Other units are kept; their lower case is not
      ASCII (U+0130 becomes 'i' followed by U+0307, which no ASCII pattern
      of the application can match across). */
  function LowerChar(c: char): char {
    if 'A' <= c <= 'Z' then (c as int + 32) as char
    else if c == '\U{212A}' then 'k'
    else c
  }

  /** The model's lower case: code unit by code unit, so it keeps the
      length (JavaScript's own `toLowerCase` can lengthen a string). */
  function ToLower(s: string): (r: string)
    ensures |r| == |s|
    ensures forall i :: 0 <= i < |r| ==> !('A' <= r[i] <= 'Z') && r[i] != '\U{212A}'
    ensures forall i :: 0 <= i < |s| && !('A' <= s[i] <= 'Z') && s[i] != '\U{212A}' ==> r[i] == s[i]
    ensures forall i :: 0 <= i < |s| && 'A' <= s[i] <= 'Z' ==> 'a' <= r[i] <= 'z' && r[i] as int - s[i] as int == 32
    ensures forall i :: 0 <= i < |s| && s[i] == '\U{212A}' ==> r[i] == 'k'
  {
    seq(|s|, i requires 0 <= i < |s| => LowerChar(s[i]))
  }

  lemma {:induction false} ToLowerIdempotent(s: string)
    ensures ToLower(ToLower(s)) == ToLower(s)
  {}

  /** `.map((s) => s.trim())` */
  function TrimEach(ts: seq<string>): (r: seq<string>)
    ensures |r| == |ts|
    ensures forall i :: 0 <= i < |r| ==> IsTrimmed(r[i]) && Words(r[i]) == Words(ts[i])
  {
    WordsTrimAll(ts);
    seq(|ts|, i requires 0 <= i < |ts| => Trim(ts[i]))
  }

  lemma {:induction false} WordsTrimAll(ts: seq<string>)
    ensures forall i :: 0 <= i < |ts| ==> Words(Trim(ts[i])) == Words(ts[i])
  {
    forall i | 0 <= i < |ts| ensures Words(Trim(ts[i])) == Words(ts[i]) {
      WordsTrim(ts[i]);
    }
  }

  /** Trimming strings that are already trimmed changes nothing. */
  lemma {:induction false} TrimEachTrimmed(ts: seq<string>)
    requires forall i :: 0 <= i < |ts| ==> IsTrimmed(ts[i])
    ensures TrimEach(ts) == ts
  {
    forall i | 0 <= i < |ts|
      ensures TrimEach(ts)[i] == ts[i]
    {
      TrimOfTrimmed(ts[i]);
    }
  }

  // ---------------------------------------------------------------------------
  // decimal rendering of a non-negative integer (template literals)

  function DigitChar(d: nat): char
    requires d < 10
  {
    ('0' as int + d) as char
  }

  predicate IsDigits(s: string) {
    forall i :: 0 <= i < |s| ==> '0' <= s[i] <= '9'
  }

  /** `${n}` for a non-negative integer `n`: no leading zero. */
  function NatToString(n: nat): (s: string)
    ensures |s| >= 1 && IsDigits(s)
    ensures n > 0 ==> s[0] != '0'
  {
    if n < 10 then [DigitChar(n)] else NatToString(n / 10) + [DigitChar(n % 10)]
  }

  /** The value of a string of decimal digits. */
  function DigitsValue(s: string): nat
    requires IsDigits(s)
  {
    if s == [] then 0 else 10 * DigitsValue(s[..|s| - 1]) + (s[|s| - 1] as int - '0' as int)
  }

  /** Reading back the rendering gives the number. */
  lemma {:induction false} NatToStringRoundTrip(n: nat)
    ensures DigitsValue(NatToString(n)) == n
  {
    if n >= 10 {
      NatToStringRoundTrip(n / 10);
      var s := NatToString(n);
      assert s[..|s| - 1] == NatToString(n / 10);
    }
  }

  /** Trimming adds no character. */
  lemma {:induction false} TrimOmits(s: string, c: char)
    requires c !in s
    ensures c !in Trim(s)
  {
    var a, b := TrimSlice(s);
    forall j | 0 <= j < |Trim(s)| ensures Trim(s)[j] != c {
      assert Trim(s)[j] == s[a + j];
    }
  }

  // ---------------------------------------------------------------------------
  // .filter(Boolean) over strings

  /** Keeps the non-empty strings, in order. */
  function NonEmptyOnly(ts: seq<string>): (r: seq<string>)
    ensures |r| <= |ts|
  {
    if ts == [] then []
    else if ts[0] == [] then NonEmptyOnly(ts[1..])
    else [ts[0]] + NonEmptyOnly(ts[1..])
  }

  /** `.filter(Boolean)` keeps exactly the non-empty strings, in order, and
      changes nothing when none is empty. */
  lemma {:induction false} NonEmptyOnlyKeeps(ts: seq<string>)
    ensures forall i :: 0 <= i < |NonEmptyOnly(ts)| ==> NonEmptyOnly(ts)[i] != []
    ensures forall t :: t in NonEmptyOnly(ts) <==> t in ts && t != []
    ensures (forall i :: 0 <= i < |ts| ==> ts[i] != []) ==> NonEmptyOnly(ts) == ts
  {
    if ts != [] {
      NonEmptyOnlyKeeps(ts[1..]);
      assert ts == [ts[0]] + ts[1..];
      if forall i :: 0 <= i < |ts| ==> ts[i] != [] {
        assert forall i :: 0 <= i < |ts[1..]| ==> ts[1..][i] == ts[i + 1];
      }
    }
  }
}
